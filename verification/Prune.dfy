/** Pruning of empty auto-created folders: bounded passes over the folder tree. */
module Prune {
  import opened Wrappers
  import opened StoreNames
  import opened StoreIndex
  import opened StoreMove

  predicate Owned(idx: Index, src: Id, id: Id) {
    id in idx.folders && idx.folders[id].sourceOwner == src
  }

  /** Folders a pass deletes: owned by the source, without child folders and without sessions. */
  function Eligible(idx: Index, src: Id): set<Id> {
    set id | id in idx.folders && Owned(idx, src, id) && !HasChild(idx, id) && !HasSession(idx, id)
  }

  function Without(idx: Index, ids: set<Id>): Index {
    idx.(folders := idx.folders - ids, folderDir := idx.folderDir - ids)
  }

  /** At most `passes` passes; stops early when one deletes nothing. The root is never deletable. */
  function Pruned(idx: Index, src: Id, passes: nat): Result<Index, StoreError>
    decreases passes
  {
    if passes == 0 || Eligible(idx, src) == {} then Ok(idx)
    else if idx.rootId in Eligible(idx, src) then Err(RootFolder)
    else Pruned(Without(idx, Eligible(idx, src)), src, passes - 1)
  }

  // ----------------------------------------------------------- what should survive

  predicate AtOrBelow(idx: Index, id: Id, d: Id) {
    id in idx.folderDir && d in idx.folderDir && idx.folderDir[id] <= idx.folderDir[d]
  }

  /** Something worth keeping: a session, or a folder of somebody else. */
  predicate Worth(idx: Index, src: Id, d: Id) {
    d in idx.folders && (!Owned(idx, src, d) || HasSession(idx, d))
  }

  ghost predicate Supported(idx: Index, src: Id, id: Id) {
    exists d :: AtOrBelow(idx, id, d) && Worth(idx, src, d)
  }

  /** Some folder lies n or more levels below. */
  ghost predicate Deep(idx: Index, id: Id, n: nat) {
    exists d :: AtOrBelow(idx, id, d) && |idx.folderDir[d]| >= |idx.folderDir[id]| + n
  }

  lemma ChildFacts(env: Env, idx: Index, c: Id)
    requires FoldersOk(env, idx) && c in idx.folders && c != idx.rootId
    ensures var p := idx.folders[c].parentId;
            && p in idx.folders && p in idx.folderDir && c in idx.folderDir && HasChild(idx, p)
            && ChildPath(idx.folderDir[c], idx.folderDir[p])
  {
    assert FolderOk(idx, c);
  }

  /** A folder with something strictly below it has a child, and that child leads there. */
  lemma StepDown(env: Env, idx: Index, id: Id, d: Id) returns (c: Id)
    requires FoldersOk(env, idx) && AtOrBelow(idx, id, d) && id != d
    ensures c in idx.folders && idx.folders[c].parentId == id && AtOrBelow(idx, c, d) && AtOrBelow(idx, id, c)
    ensures c in idx.folderDir && |idx.folderDir[c]| == |idx.folderDir[id]| + 1
  {
    assert FolderOk(idx, id) && FolderOk(idx, d);
    var p := idx.folderDir[d][..|idx.folderDir[id]| + 1];
    c := PrefixIsFolder(env, idx, d, p);
    assert FolderOk(idx, c);
  }

  lemma Below(idx: Index, a: Id, b: Id, c: Id)
    requires AtOrBelow(idx, a, b) && AtOrBelow(idx, b, c)
    ensures AtOrBelow(idx, a, c)
  {
  }

  /** A child of a folder. */
  lemma ChildOf(env: Env, idx: Index, id: Id) returns (c: Id)
    requires FoldersOk(env, idx) && id in idx.folders && HasChild(idx, id)
    ensures c in idx.folders && idx.folders[c].parentId == id && AtOrBelow(idx, id, c)
    ensures |idx.folderDir[c]| == |idx.folderDir[id]| + 1
  {
    c :| c in idx.folders && idx.folders[c].parentId == id;
    NoEmptyId(env, idx);
    assert FolderOk(idx, c);
  }

  /** Supported folders are never eligible. */
  lemma SupportedStays(env: Env, idx: Index, src: Id, id: Id)
    requires FoldersOk(env, idx) && id in idx.folders && Supported(idx, src, id)
    ensures id !in Eligible(idx, src)
  {
    var d :| AtOrBelow(idx, id, d) && Worth(idx, src, d);
    if d != id {
      var c := StepDown(env, idx, id, d);
    }
  }

  lemma PassOk(env: Env, idx: Index, src: Id)
    requires IndexOk(env, idx) && idx.rootId !in Eligible(idx, src)
    ensures IndexOk(env, Without(idx, Eligible(idx, src)))
  {
    WithoutFolders(env, idx, Eligible(idx, src));
  }

  /** One pass: what is supported stays supported, and nothing becomes so. */
  lemma PassSupport(env: Env, idx: Index, src: Id, id: Id)
    requires FoldersOk(env, idx) && id in idx.folders && id !in Eligible(idx, src)
    ensures Supported(Without(idx, Eligible(idx, src)), src, id) <==> Supported(idx, src, id)
  {
    var gone := Eligible(idx, src);
    var r := Without(idx, gone);
    if Supported(idx, src, id) {
      var d :| AtOrBelow(idx, id, d) && Worth(idx, src, d);
      assert d !in gone;
      assert AtOrBelow(r, id, d) && Worth(r, src, d);
    }
    if Supported(r, src, id) {
      var d :| AtOrBelow(r, id, d) && Worth(r, src, d);
      assert AtOrBelow(idx, id, d) && Worth(idx, src, d);
    }
  }

  /** One pass takes exactly one level off what is unsupported. */
  lemma PassDepth(env: Env, idx: Index, src: Id, id: Id, n: nat)
    requires FoldersOk(env, idx) && id in idx.folders && !Supported(idx, src, id) && n > 0
    ensures var r := Without(idx, Eligible(idx, src));
            id in r.folders && Deep(r, id, n - 1) <==> Deep(idx, id, n)
  {
    var gone := Eligible(idx, src);
    var r := Without(idx, gone);
    if Deep(idx, id, n) {
      var d :| AtOrBelow(idx, id, d) && |idx.folderDir[d]| >= |idx.folderDir[id]| + n;
      var c := StepDown(env, idx, id, d);
      assert FolderOk(idx, d) && FolderOk(idx, id);
      var p := idx.folders[d].parentId;
      ChildFacts(env, idx, d);
      PrefixOfChild(idx.folderDir[d], idx.folderDir[id]);
      assert p !in gone && id !in gone;
      assert AtOrBelow(r, id, p);
    }
    if id in r.folders && Deep(r, id, n - 1) {
      var d :| AtOrBelow(r, id, d) && |r.folderDir[d]| >= |r.folderDir[id]| + n - 1;
      Unworthy(env, idx, src, id, d);
      var c := ChildOf(env, idx, d);
      Below(idx, id, d, c);
    }
  }

  /** Below an unsupported folder everything is owned and empty, so what stays has a child. */
  lemma Unworthy(env: Env, idx: Index, src: Id, id: Id, d: Id)
    requires FoldersOk(env, idx) && !Supported(idx, src, id) && AtOrBelow(idx, id, d)
    ensures d in idx.folders && !Worth(idx, src, d) && (d !in Eligible(idx, src) ==> HasChild(idx, d))
  {
  }

  /** Where nothing is eligible everything is supported: an unsupported folder has an eligible one below. */
  lemma {:induction false} EligibleBelow(env: Env, idx: Index, src: Id, id: Id, limit: nat) returns (d: Id)
    requires FoldersOk(env, idx) && id in idx.folders && id in idx.folderDir && !Supported(idx, src, id)
    requires forall k :: k in idx.folderDir ==> |idx.folderDir[k]| <= limit
    ensures d in Eligible(idx, src)
    decreases limit - |idx.folderDir[id]|
  {
    assert AtOrBelow(idx, id, id);
    Unworthy(env, idx, src, id, id);
    if id in Eligible(idx, src) {
      d := id;
    } else {
      var c := ChildOf(env, idx, id);
      forall k | AtOrBelow(idx, c, k) ensures !Worth(idx, src, k) {
        Below(idx, id, c, k);
      }
      d := EligibleBelow(env, idx, src, c, limit);
    }
  }

  ghost function DepthLimit(idx: Index): (n: nat)
    ensures forall k :: k in idx.folderDir ==> |idx.folderDir[k]| <= n
  {
    MaxOver(idx.folderDir, idx.folderDir.Keys)
  }

  ghost function MaxOver(m: map<Id, Path>, ks: set<Id>): (n: nat)
    requires ks <= m.Keys
    ensures forall k :: k in ks ==> |m[k]| <= n
  {
    if ks == {} then 0
    else
      var k :| k in ks;
      var n := MaxOver(m, ks - {k});
      if |m[k]| > n then |m[k]| else n
  }

  // ------------------------------------------------------------------- the theorem

  /** Records and paths of what is left are untouched, and so is everything else. */
  lemma {:induction false} PrunedKeeps(env: Env, idx: Index, src: Id, n: nat)
    requires IndexOk(env, idx) && Pruned(idx, src, n).Ok?
    ensures var r := Pruned(idx, src, n).value;
            && IndexOk(env, r) && r == idx.(folders := r.folders, folderDir := r.folderDir)
            && (forall id :: id in r.folders ==> id in idx.folders && r.folders[id] == idx.folders[id])
            && (forall id :: id in r.folderDir ==> id in idx.folderDir && r.folderDir[id] == idx.folderDir[id])
            && (forall id :: id in idx.folders && id !in r.folders ==> Owned(idx, src, id))
    decreases n
  {
    hide IndexOk, HasChild, HasSession;
    if n > 0 && Eligible(idx, src) != {} {
      PassOk(env, idx, src);
      PrunedKeeps(env, Without(idx, Eligible(idx, src)), src, n - 1);
    }
  }

  /**
   * After n passes exactly those folders are left that are supported or have something
   * n or more levels below them.
   */
  lemma {:induction false} PrunedExact(env: Env, idx: Index, src: Id, n: nat, id: Id)
    requires IndexOk(env, idx) && Pruned(idx, src, n).Ok? && id in idx.folders
    ensures var r := Pruned(idx, src, n).value;
            && (id in r.folders <==> Supported(idx, src, id) || Deep(idx, id, n))
            && (id in r.folders ==> (Supported(r, src, id) <==> Supported(idx, src, id)))
    decreases n
  {
    hide SessionsOk, Apart, Supported, Deep, Eligible, FoldersOk;
    var gone := Eligible(idx, src);
    KnownDir(env, idx, id);
    if n == 0 {
      Shallow(idx, id);
    } else if gone == {} {
      if !Supported(idx, src, id) {
        var d := EligibleBelow(env, idx, src, id, DepthLimit(idx));
      }
    } else {
      var r := Without(idx, gone);
      PassOk(env, idx, src);
      if Supported(idx, src, id) {
        SupportedStays(env, idx, src, id);
      } else {
        PassDepth(env, idx, src, id, n);
      }
      if id in r.folders {
        PassSupport(env, idx, src, id);
        PrunedExact(env, r, src, n - 1, id);
      } else {
        PrunedKeeps(env, r, src, n - 1);
      }
    }
  }

  lemma KnownDir(env: Env, idx: Index, id: Id)
    requires FoldersOk(env, idx) && id in idx.folders
    ensures id in idx.folderDir
  {
  }

  lemma Shallow(idx: Index, id: Id)
    requires id in idx.folderDir
    ensures Deep(idx, id, 0)
  {
    assert AtOrBelow(idx, id, id);
  }

  // ------------------------------------------------------- when the passes are enough

  /** Every remaining folder leads to a session or to somebody else's folder. */
  ghost predicate Complete(idx: Index, src: Id) {
    forall id :: id in idx.folders ==> Supported(idx, src, id)
  }

  /** No unsupported folder has anything n or more levels below it. */
  ghost predicate ShallowRest(idx: Index, src: Id, n: nat) {
    forall id :: id in idx.folders && !Supported(idx, src, id) ==> !Deep(idx, id, n)
  }

  /** The bounded passes reach the fixpoint exactly when no unsupported chain is longer than them. */
  lemma CompleteIff(env: Env, idx: Index, src: Id, n: nat)
    requires IndexOk(env, idx) && Pruned(idx, src, n).Ok?
    ensures Complete(Pruned(idx, src, n).value, src) <==> ShallowRest(idx, src, n)
  {
    hide IndexOk, Supported, Deep, Pruned;
    var r := Pruned(idx, src, n).value;
    PrunedKeeps(env, idx, src, n);
    forall id | id in idx.folders
      ensures (id in r.folders <==> Supported(idx, src, id) || Deep(idx, id, n))
              && (id in r.folders ==> (Supported(r, src, id) <==> Supported(idx, src, id)))
    {
      PrunedExact(env, idx, src, n, id);
    }
  }

  /** Auto-created folders sit at most `depth` levels below their source. */
  ghost predicate WithinDepth(idx: Index, src: Id, depth: nat) {
    src in idx.folderDir && forall id :: Owned(idx, src, id) && id in idx.folderDir ==>
      |idx.folderDir[src]| < |idx.folderDir[id]| <= |idx.folderDir[src]| + depth
  }

  /** Then depth passes, and so the depth + 1 the store makes, reach the fixpoint. */
  lemma DepthSuffices(env: Env, idx: Index, src: Id, depth: nat, n: nat)
    requires IndexOk(env, idx) && WithinDepth(idx, src, depth) && n >= depth
    ensures ShallowRest(idx, src, n)
  {
    forall id | id in idx.folders && !Supported(idx, src, id) ensures !Deep(idx, id, n) {
      assert AtOrBelow(idx, id, id);
      forall d | AtOrBelow(idx, id, d) ensures |idx.folderDir[d]| < |idx.folderDir[id]| + n {
        Unworthy(env, idx, src, id, d);
        Unworthy(env, idx, src, id, id);
      }
    }
  }

  /** At the fixpoint another prune changes nothing. */
  lemma PrunedAgain(env: Env, idx: Index, src: Id, n: nat)
    requires IndexOk(env, idx) && Complete(idx, src)
    ensures Eligible(idx, src) == {} && Pruned(idx, src, n) == Ok(idx)
  {
    forall id | id in idx.folders ensures id !in Eligible(idx, src) {
      SupportedStays(env, idx, src, id);
    }
  }
}
