/** Import sources: at most one per subtree. */
module StoreSources {
  import opened Wrappers
  import opened StoreNames
  import opened StoreIndex
  import opened StoreMove

  predicate Sourced(idx: Index, id: Id) {
    id in idx.folders && id in idx.folderDir && idx.folders[id].source.Some?
  }

  predicate Above(idx: Index, a: Id, b: Id) {
    a in idx.folderDir && b in idx.folderDir && idx.folderDir[a] < idx.folderDir[b]
  }

  /** No folder with a source lies above another, and the root has none. */
  ghost predicate OneSourcePerSubtree(idx: Index) {
    && !Sourced(idx, idx.rootId)
    && forall a, b :: Sourced(idx, a) && Sourced(idx, b) ==> !Above(idx, a, b)
  }

  /** A source above or below folder id. */
  ghost predicate SourceInTheWay(idx: Index, id: Id) {
    exists k :: k != id && Sourced(idx, k) && (Above(idx, k, id) || Above(idx, id, k))
  }

  function WithSource(env: Env, idx: Index, id: Id, src: Option<Source>): Index
    requires id in idx.folders
  {
    var f := idx.folders[id];
    idx.(folders := idx.folders[id := f.(source := src, revision := f.revision + 1, updatedAt := env.clock(idx.tick))],
         tick := idx.tick + 1)
  }

  ghost function SetSource(env: Env, idx: Index, id: Id, src: Source): Result<Index, StoreError> {
    if id == idx.rootId then Err(RootFolder)
    else if id !in idx.folders then Err(NotFound)
    else if SourceInTheWay(idx, id) then Err(SourceConflict)
    else Ok(WithSource(env, idx, id, Some(src.(updatedAt := env.clock(idx.tick)))))
  }

  function ClearSource(env: Env, idx: Index, id: Id): Result<Index, StoreError> {
    if id !in idx.folders then Err(NotFound)
    else if idx.folders[id].source.None? then Ok(idx)
    else Ok(WithSource(env, idx, id, None))
  }

  lemma WithSourceOk(env: Env, idx: Index, id: Id, src: Option<Source>)
    requires IndexOk(env, idx) && id in idx.folders
    ensures IndexOk(env, WithSource(env, idx, id, src))
  {
    hide IndexOk, Env.EqualFold;
    OthersNamedApart(env, idx, id);
    InPlaceOk(env, idx, WithSource(env, idx, id, src).folders[id]);
  }

  lemma OthersNamedApart(env: Env, idx: Index, id: Id)
    requires IndexOk(env, idx) && id in idx.folders
    ensures idx.folders[id].id == id
    ensures forall k :: k in idx.folders && k != id && idx.folders[k].parentId == idx.folders[id].parentId ==>
              !env.EqualFold(idx.folders[k].name, idx.folders[id].name)
  {
    assert FolderOk(idx, id);
    forall k | k in idx.folders && k != id && idx.folders[k].parentId == idx.folders[id].parentId
      ensures !env.EqualFold(idx.folders[k].name, idx.folders[id].name)
    {
      assert !SameFolderName(env, idx.folders[k], idx.folders[id]);
    }
  }

  /** SetFolderSource is refused exactly when the result would put two sources on one branch. */
  lemma SetSourceExact(env: Env, idx: Index, id: Id, src: Source)
    requires IndexOk(env, idx) && OneSourcePerSubtree(idx) && id in idx.folders && id != idx.rootId
    ensures SetSource(env, idx, id, src).Ok? <==> OneSourcePerSubtree(WithSource(env, idx, id, Some(src)))
    ensures SetSource(env, idx, id, src).Ok? ==> OneSourcePerSubtree(SetSource(env, idx, id, src).value)
  {
    hide IndexOk, OneSourcePerSubtree, SourceInTheWay, WithSource;
    WithSourceExact(env, idx, id, src);
    WithSourceExact(env, idx, id, src.(updatedAt := env.clock(idx.tick)));
  }

  lemma WithSourceExact(env: Env, idx: Index, id: Id, src: Source)
    requires IndexOk(env, idx) && OneSourcePerSubtree(idx) && id in idx.folders && id != idx.rootId
    ensures OneSourcePerSubtree(WithSource(env, idx, id, Some(src))) <==> !SourceInTheWay(idx, id)
  {
    hide SessionsOk, Apart;
    InjectivePathsOf(env, idx);
    var r := WithSource(env, idx, id, Some(src));
    forall k | k != id ensures Sourced(r, k) == Sourced(idx, k) {
    }
    assert Sourced(r, id);
    if SourceInTheWay(idx, id) {
      var k :| k != id && Sourced(idx, k) && (Above(idx, k, id) || Above(idx, id, k));
      assert Sourced(r, k) && (Above(r, k, id) || Above(r, id, k));
    } else {
      forall a, b | Sourced(r, a) && Sourced(r, b) ensures !Above(r, a, b) {
        assert Above(r, a, b) ==> Above(idx, a, b);
        assert !Above(r, id, id);
      }
    }
  }

  lemma InjectivePathsOf(env: Env, idx: Index)
    requires FoldersOk(env, idx)
    ensures idx.folderDir.Keys == idx.folders.Keys && Injective(idx.folderDir)
  {
  }

  lemma ClearSourceKeeps(env: Env, idx: Index, id: Id)
    requires OneSourcePerSubtree(idx) && ClearSource(env, idx, id).Ok?
    ensures OneSourcePerSubtree(ClearSource(env, idx, id).value)
  {
    var r := ClearSource(env, idx, id).value;
    forall a, b | Sourced(r, a) && Sourced(r, b) ensures !Above(r, a, b) {
      assert Sourced(idx, a) && Sourced(idx, b);
      assert Above(r, a, b) ==> Above(idx, a, b);
    }
  }

  lemma AddKeeps(env: Env, idx: Index, f: Folder)
    requires IndexOk(env, idx) && OneSourcePerSubtree(idx) && AddFolder(env, idx, f).Ok? && f.source.None?
    ensures OneSourcePerSubtree(AddFolder(env, idx, f).value)
  {
    hide FolderClash, Sanitized, TrimSpace;
    var out, d := AddFolderIs(env, idx, f);
    var r := AddFolder(env, idx, f).value;
    forall a, b | Sourced(r, a) && Sourced(r, b) ensures !Above(r, a, b) {
      assert Sourced(idx, a) && Sourced(idx, b);
      assert Above(r, a, b) ==> Above(idx, a, b);
    }
  }

  lemma DeleteKeeps(idx: Index, id: Id)
    requires OneSourcePerSubtree(idx) && DeleteId(idx, id).Ok?
    ensures OneSourcePerSubtree(DeleteId(idx, id).value)
  {
    hide HasChild, HasSession;
    var r := DeleteId(idx, id).value;
    forall a, b | Sourced(r, a) && Sourced(r, b) ensures !Above(r, a, b) {
      assert Sourced(idx, a) && Sourced(idx, b);
      assert Above(r, a, b) ==> Above(idx, a, b);
    }
  }

  // ---------------------------------------------------------------------- moving

  /** A source at or above the folder's new parent. */
  ghost predicate SourceAtOrAbove(idx: Index, parent: Id) {
    exists k :: Sourced(idx, k) && (k == parent || Above(idx, k, parent))
  }

  ghost predicate SourceBelow(idx: Index, id: Id) {
    exists k :: Sourced(idx, k) && Above(idx, id, k)
  }

  /** How a move changes who is above whom. */
  lemma MovedAbove(env: Env, idx: Index, out: Folder, src: Path, target: Path, a: Id, b: Id)
    requires IndexOk(env, idx) && CanMove(env, idx, out, src, target) && a in idx.folderDir && b in idx.folderDir
    ensures var r := MovedFolder(idx, out, src, target);
            var (inA, inB) := (src <= idx.folderDir[a], src <= idx.folderDir[b]);
            && (inA == inB ==> Above(r, a, b) == Above(idx, a, b))
            && (inA && !inB ==> !Above(r, a, b))
            && (!inA && inB ==> (Above(r, a, b) <==> a == out.parentId || Above(idx, a, out.parentId)))
  {
    hide FoldersOk, SessionsOk, Apart;
    NothingBelow(env, idx, out, src, target);
    InjectiveDirs(env, idx);
    MovedPrefix(idx.folderDir[a], idx.folderDir[b], idx.folderDir[out.parentId], src, target);
  }

  lemma InjectiveDirs(env: Env, idx: Index)
    requires FoldersOk(env, idx)
    ensures Injective(idx.folderDir)
  {
  }

  lemma MovedPrefix(p: Path, q: Path, parent: Path, src: Path, target: Path)
    requires ChildPath(target, parent) && !(target <= p) && !(target <= q)
    ensures var (p1, q1) := (Relocated(p, src, target), Relocated(q, src, target));
            && (src <= p && src <= q ==> (p1 < q1 <==> p < q))
            && (!(src <= p) && !(src <= q) ==> (p1 < q1 <==> p < q))
            && (src <= p && !(src <= q) ==> !(p1 < q1))
            && (!(src <= p) && src <= q ==> (p1 < q1 <==> p <= parent))
  {
    assert src <= p ==> target <= Relocated(p, src, target);
    if src <= p && src <= q {
      assert p == src + p[|src|..] && q == src + q[|src|..];
      SamePrefix(src, p[|src|..], q[|src|..]);
      SamePrefix(target, p[|src|..], q[|src|..]);
    } else if src <= q {
      var q1 := target + q[|src|..];
      assert target <= q1 && parent <= target;
      if p < q1 {
        BothPrefixes(p, target, q1);
      }
    }
  }

  lemma SamePrefix(a: Path, p: Path, q: Path)
    ensures a + p < a + q <==> p < q
  {
    assert (a + p)[|a|..] == p && (a + q)[|a|..] == q;
    if |p| <= |q| {
      assert (a + q)[..|a + p|] == a + q[..|p|];
    }
  }

  lemma BothPrefixes(p: Path, t: Path, q: Path)
    requires p <= q && t <= q && !(t <= p) && t != []
    ensures p <= t[..|t| - 1]
  {
    assert p == q[..|p|] && t == q[..|t|];
  }

  /** The moved folder's own source after the move, or one that moves along below it. */
  lemma LowSource(idx: Index, out: Folder) returns (low: Id)
    requires out.id in idx.folderDir && (out.source.Some? || SourceBelow(idx, out.id))
    ensures low in idx.folderDir && idx.folderDir[out.id] <= idx.folderDir[low]
    ensures if out.source.Some? then low == out.id else Sourced(idx, low) && low != out.id
  {
    if out.source.Some? {
      low := out.id;
    } else {
      low :| Sourced(idx, low) && Above(idx, out.id, low);
    }
  }

  /** Which folders carry a source after a move, and which of them moved along. */
  lemma MovedFacts(env: Env, idx: Index, out: Folder, src: Path, target: Path)
    requires IndexOk(env, idx) && CanMove(env, idx, out, src, target)
    ensures var r := MovedFolder(idx, out, src, target);
            && r.rootId == idx.rootId != out.id && out.id in idx.folderDir && idx.folderDir[out.id] == src
            && (forall k :: Sourced(r, k) == if k == out.id then out.source.Some? else Sourced(idx, k))
            && (forall k :: k in idx.folderDir ==> (src <= idx.folderDir[k] <==> k == out.id || Above(idx, out.id, k)))
            && out.parentId in idx.folderDir && !(src <= idx.folderDir[out.parentId])
  {
    hide SessionsOk, Apart, Relocated;
    InjectivePathsOf(env, idx);
    assert idx.folderDir[out.parentId] <= target;
  }

  /**
   * Moving a folder to another directory keeps one source per subtree iff it does not bring a
   * source under another one: neither below the new parent nor through its own record.
   */
  lemma MoveKeepsIff(env: Env, idx: Index, out: Folder, src: Path, target: Path)
    requires IndexOk(env, idx) && OneSourcePerSubtree(idx) && CanMove(env, idx, out, src, target)
    ensures OneSourcePerSubtree(MovedFolder(idx, out, src, target)) <==>
              !((out.source.Some? || SourceBelow(idx, out.id)) && SourceAtOrAbove(idx, out.parentId))
              && !(out.source.Some? && SourceBelow(idx, out.id))
  {
    hide IndexOk, CanMove, MovedFolder;
    var r := MovedFolder(idx, out, src, target);
    MovedFacts(env, idx, out, src, target);
    if out.source.Some? && SourceBelow(idx, out.id) {
      var k :| Sourced(idx, k) && Above(idx, out.id, k);
      MovedAbove(env, idx, out, src, target, out.id, k);
      assert Sourced(r, out.id) && Sourced(r, k) && Above(r, out.id, k);
    } else if (out.source.Some? || SourceBelow(idx, out.id)) && SourceAtOrAbove(idx, out.parentId) {
      var top :| Sourced(idx, top) && (top == out.parentId || Above(idx, top, out.parentId));
      var low := LowSource(idx, out);
      MovedAbove(env, idx, out, src, target, top, low);
      assert Sourced(r, low);
      assert Sourced(r, top) && Above(r, top, low);
    } else {
      forall a, b | Sourced(r, a) && Sourced(r, b) ensures !Above(r, a, b) {
        MovedAbove(env, idx, out, src, target, a, b);
      }
    }
  }

  // ------------------------------------------------------- every branch of PutFolder

  /** The record brings no source under another: not to the root, not below the parent, not above a source. */
  ghost predicate KeepsSources(idx: Index, f: Folder) {
    if f.id != "" && f.id == idx.rootId then f.source.None?
    else
      var parent := if f.parentId == "" then idx.rootId else f.parentId;
      && !((f.source.Some? || SourceBelow(idx, f.id)) && SourceAtOrAbove(idx, parent))
      && !(f.source.Some? && SourceBelow(idx, f.id))
  }

  /** Only folder id's having a source changed, and no path. */
  ghost predicate Resourced(idx: Index, r: Index, id: Id) {
    && r.rootId == idx.rootId && r.folderDir == idx.folderDir
    && forall k :: k != id ==> Sourced(r, k) == Sourced(idx, k)
  }

  lemma RootResourced(idx: Index, r: Index)
    requires OneSourcePerSubtree(idx) && Resourced(idx, r, idx.rootId)
    ensures OneSourcePerSubtree(r) <==> !Sourced(r, idx.rootId)
  {
    forall a, b | Sourced(r, a) && Sourced(r, b) && a != idx.rootId && b != idx.rootId ensures !Above(r, a, b) {
      assert Sourced(idx, a) && Sourced(idx, b);
      assert Above(r, a, b) ==> Above(idx, a, b);
    }
  }

  lemma RewrittenIff(env: Env, idx: Index, r: Index, id: Id)
    requires IndexOk(env, idx) && OneSourcePerSubtree(idx) && Resourced(idx, r, id)
    requires id in idx.folders && id != idx.rootId
    ensures OneSourcePerSubtree(r) <==>
              !((Sourced(r, id) || SourceBelow(idx, id)) && SourceAtOrAbove(idx, idx.folders[id].parentId))
              && !(Sourced(r, id) && SourceBelow(idx, id))
  {
    hide SessionsOk, Apart, FoldersOk, Above;
    assert forall a, b :: Above(r, a, b) == Above(idx, a, b) by { SamePaths(idx, r); }
    AboveStep(env, idx, id);
    if SourceBelow(idx, id) && SourceAtOrAbove(idx, idx.folders[id].parentId) {
      var low :| Sourced(idx, low) && Above(idx, id, low);
      var top :| Sourced(idx, top) && (top == idx.folders[id].parentId || Above(idx, top, idx.folders[id].parentId));
      AboveTrans(idx, top, id, low);
      assert false;
    }
    if Sourced(r, id) {
      NotAboveSelf(idx, id);
      if SourceBelow(idx, id) {
        var low :| Sourced(idx, low) && Above(idx, id, low);
        assert Sourced(r, low) && Above(r, id, low);
      }
      if SourceAtOrAbove(idx, idx.folders[id].parentId) {
        var top :| Sourced(idx, top) && (top == idx.folders[id].parentId || Above(idx, top, idx.folders[id].parentId));
        assert Sourced(r, top) && Above(r, top, id);
      }
    }
  }

  lemma SamePaths(idx: Index, r: Index)
    requires r.folderDir == idx.folderDir
    ensures forall a, b :: Above(r, a, b) == Above(idx, a, b)
  {
  }

  lemma AboveTrans(idx: Index, a: Id, b: Id, c: Id)
    requires Above(idx, a, b) && Above(idx, b, c)
    ensures Above(idx, a, c)
  {
  }

  /** How a new folder stands to the others. */
  lemma AddedAbove(env: Env, idx: Index, f: Folder)
    requires IndexOk(env, idx) && AddFolder(env, idx, f).Ok?
    ensures var r := AddFolder(env, idx, f).value;
            var id := env.ulid(idx.tick);
            var parent := if f.parentId == "" then idx.rootId else f.parentId;
            && r.rootId == idx.rootId && id !in idx.folders && (forall k :: !Above(r, id, k))
            && (forall k :: Sourced(r, k) == if k == id then f.source.Some? else Sourced(idx, k))
            && (forall a, b :: a != id && b != id ==> Above(r, a, b) == Above(idx, a, b))
            && (forall k :: Above(r, k, id) <==> k == parent || Above(idx, k, parent))
  {
    hide FolderClash, Sanitized, TrimSpace, AddFolder, FoldersOk, SessionsOk, Apart;
    var out, d := AddFolderIs(env, idx, f);
    var target := idx.folderDir[out.parentId] + [d];
    KeysAgree(env, idx);
    NewId(env, idx);
    DirFree(env, idx, "", out.parentId, f.name, d);
    NoEmptyId(env, idx);
    FreeTarget(env, idx, target);
    UnderParent(env, idx, out, d);
  }

  lemma FreeTarget(env: Env, idx: Index, target: Path)
    requires FoldersOk(env, idx) && forall k :: k in idx.folderDir ==> idx.folderDir[k] != target
    ensures forall k :: k in idx.folderDir ==> !(target <= idx.folderDir[k])
  {
    forall k | k in idx.folderDir ensures !(target <= idx.folderDir[k]) {
      if target <= idx.folderDir[k] {
        var j := PrefixIsFolder(env, idx, k, target);
      }
    }
  }

  lemma UnderParent(env: Env, idx: Index, out: Folder, d: string)
    requires FoldersOk(env, idx) && out.parentId in idx.folderDir && out.id !in idx.folderDir
    ensures var target := idx.folderDir[out.parentId] + [d];
            var r := WithFolder(idx, out, target);
            forall k :: Above(r, k, out.id) <==> k == out.parentId || Above(idx, k, out.parentId)
  {
    hide FolderOk, FolderNamesUnique;
    var dir := idx.folderDir[out.parentId];
    forall k | k in idx.folderDir ensures idx.folderDir[k] < dir + [d] <==> k == out.parentId || idx.folderDir[k] < dir {
      ParentPrefix(idx.folderDir[k], dir, d);
    }
  }

  lemma NewId(env: Env, idx: Index)
    requires IndexOk(env, idx)
    ensures env.ulid(idx.tick) !in idx.folders && env.ulid(idx.tick) !in idx.folderDir
  {
  }

  lemma ParentPrefix(p: Path, dir: Path, d: string)
    ensures p < dir + [d] <==> p <= dir
  {
    if |p| <= |dir| {
      assert (dir + [d])[..|p|] == dir[..|p|];
    }
  }

  lemma AddedIff(env: Env, idx: Index, f: Folder)
    requires IndexOk(env, idx) && OneSourcePerSubtree(idx) && AddFolder(env, idx, f).Ok?
    ensures OneSourcePerSubtree(AddFolder(env, idx, f).value) <==>
              !(f.source.Some? && SourceAtOrAbove(idx, if f.parentId == "" then idx.rootId else f.parentId))
  {
    hide AddFolder, IndexOk, Above;
    AddedAbove(env, idx, f);
    RootIn(env, idx);
    var r, id := AddFolder(env, idx, f).value, env.ulid(idx.tick);
    var parent := if f.parentId == "" then idx.rootId else f.parentId;
    if f.source.Some? && SourceAtOrAbove(idx, parent) {
      var top :| Sourced(idx, top) && (top == parent || Above(idx, top, parent));
      assert Sourced(r, top) && Sourced(r, id) && Above(r, top, id);
    }
  }

  lemma RootIn(env: Env, idx: Index)
    requires IndexOk(env, idx)
    ensures idx.rootId in idx.folders
  {
  }

  /**
   * Whatever PutFolder accepts, a creation, an update in place, a move or a rewrite of the root,
   * keeps one source per subtree iff the record brings no source under another.
   */
  lemma PutFolderKeepsIff(env: Env, idx: Index, f: Folder)
    requires IndexOk(env, idx) && OneSourcePerSubtree(idx) && idx.rootId in idx.folders && PutFolder(env, idx, f).Ok?
    ensures OneSourcePerSubtree(PutFolder(env, idx, f).value) <==> KeepsSources(idx, f)
  {
    hide FoldersOk, SessionsOk, Apart, OneSourcePerSubtree, AddFolder, MovedFolder, CanMove;
    if f.id == "" {
      AddedIff(env, idx, f);
      NothingBelowNone(env, idx);
    } else if f.id == idx.rootId {
      RootRewritten(env, idx, f);
    } else {
      var out, target := UpdateIs(env, idx, f);
      if idx.folderDir[f.id] == target {
        UpdateInPlace(env, idx, f, out, target);
        InPlaceResourced(idx, out, target);
        RewrittenIff(env, idx, MovedFolder(idx, out, target, target), f.id);
      } else {
        UpdateCanMove(env, idx, f, out, target);
        MoveKeepsIff(env, idx, out, idx.folderDir[f.id], target);
      }
    }
  }

  lemma NothingBelowNone(env: Env, idx: Index)
    requires IndexOk(env, idx)
    ensures !SourceBelow(idx, "")
  {
    NoEmptyId(env, idx);
  }

  lemma RootRewritten(env: Env, idx: Index, f: Folder)
    requires IndexOk(env, idx) && OneSourcePerSubtree(idx) && idx.rootId in idx.folders && f.id == idx.rootId != ""
    ensures OneSourcePerSubtree(PutFolder(env, idx, f).value) <==> f.source.None?
  {
    hide IndexOk, OneSourcePerSubtree, Above;
    var r := PutFolder(env, idx, f).value;
    RootKeys(env, idx);
    RootResourced(idx, r);
  }

  lemma RootKeys(env: Env, idx: Index)
    requires IndexOk(env, idx)
    ensures idx.rootId in idx.folderDir
  {
  }

  lemma InPlaceResourced(idx: Index, out: Folder, target: Path)
    requires out.id in idx.folders && out.id in idx.folderDir
    ensures var r := MovedFolder(idx, out, target, target);
            Resourced(idx, r, out.id) && (Sourced(r, out.id) <==> out.source.Some?)
  {
    RelocateNothing(idx.folderDir, target);
  }

  /** Renaming a folder where it is, source untouched, never breaks the rule. */
  lemma RenameKeeps(env: Env, idx: Index, out: Folder, src: Path, target: Path)
    requires IndexOk(env, idx) && OneSourcePerSubtree(idx) && CanMove(env, idx, out, src, target)
    requires out.parentId == idx.folders[out.id].parentId && out.source == idx.folders[out.id].source
    ensures OneSourcePerSubtree(MovedFolder(idx, out, src, target))
  {
    hide MovedFolder, CanMove, SessionsOk, Apart;
    MoveKeepsIff(env, idx, out, src, target);
    MovedFacts(env, idx, out, src, target);
    InjectivePathsOf(env, idx);
    AboveStep(env, idx, out.id);
    assert Sourced(idx, out.id) == out.source.Some?;
    if out.source.Some? || SourceBelow(idx, out.id) {
      var low := LowSource(idx, out);
      forall top | top == out.parentId || Above(idx, top, out.parentId) ensures !Sourced(idx, top) {
        AboveAll(idx, top, out.id, low);
      }
    }
  }

  lemma AboveAll(idx: Index, top: Id, mid: Id, low: Id)
    requires Above(idx, top, mid) && low in idx.folderDir && idx.folderDir[mid] <= idx.folderDir[low]
    ensures Above(idx, top, low)
  {
  }

  /** The folders above id are its parent and those above it: walking up parents meets all of them. */
  lemma AboveStep(env: Env, idx: Index, id: Id)
    requires FoldersOk(env, idx) && id in idx.folders
    ensures id in idx.folderDir
    ensures id == idx.rootId ==> idx.folders[id].parentId == "" && forall k :: !Above(idx, k, id)
    ensures id != idx.rootId ==>
              var p := idx.folders[id].parentId;
              && p != "" && p in idx.folders && p in idx.folderDir && |idx.folderDir[p]| < |idx.folderDir[id]|
              && (forall k :: Above(idx, k, id) <==> k == p || Above(idx, k, p))
  {
    assert FolderOk(idx, id);
    if id != idx.rootId {
      var p := idx.folders[id].parentId;
      assert FolderOk(idx, p);
      forall k | Above(idx, k, id) ensures k == p || Above(idx, k, p) {
        PrefixOfChild(idx.folderDir[id], idx.folderDir[k]);
      }
    }
  }

  lemma NotAbove(env: Env, idx: Index, a: Id, id: Id)
    requires FoldersOk(env, idx) && id !in idx.folders
    ensures !Above(idx, a, id)
  {
  }

  lemma NotAboveSelf(idx: Index, id: Id)
    ensures !Above(idx, id, id)
  {
  }

  lemma Known(env: Env, idx: Index, id: Id)
    requires IndexOk(env, idx) && id in idx.folders && idx.folders[id].source.Some?
    ensures Sourced(idx, id)
  {
  }
}
