/** Updating, moving and deleting: the remaining operations on the store's index. */
module StoreMove {
  import opened Wrappers
  import opened StoreNames
  import opened StoreIndex

  // -------------------------------------------------------------------- deleting

  predicate HasChild(idx: Index, id: Id) {
    exists k :: k in idx.folders && idx.folders[k].parentId == id
  }

  predicate HasSession(idx: Index, id: Id) {
    exists k :: k in idx.sessions && idx.sessions[k].folderId == id
  }

  function DeleteId(idx: Index, id: Id): Result<Index, StoreError> {
    if id in idx.sessions then Ok(idx.(sessions := idx.sessions - {id}, sessionFile := idx.sessionFile - {id}))
    else if id !in idx.folders then Err(NotFound)
    else if id == idx.rootId then Err(RootFolder)
    else if HasChild(idx, id) || HasSession(idx, id) then Err(NotEmpty)
    else Ok(idx.(folders := idx.folders - {id}, folderDir := idx.folderDir - {id}))
  }

  lemma WithoutSessions(env: Env, idx: Index, ids: set<Id>)
    requires IndexOk(env, idx)
    ensures IndexOk(env, idx.(sessions := idx.sessions - ids, sessionFile := idx.sessionFile - ids))
  {
    var r := idx.(sessions := idx.sessions - ids, sessionFile := idx.sessionFile - ids);
    FoldersFrame(env, idx, r);
    forall k | k in r.sessions ensures SessionOk(r, k) {
      assert SessionOk(idx, k);
    }
    forall a, b | a in r.sessions && b in r.sessions && SameSessionName(env, r.sessions[a], r.sessions[b]) ensures a == b {
      assert SameSessionName(env, idx.sessions[a], idx.sessions[b]);
    }
  }

  /** Removing folders that are nobody's home keeps the index consistent. */
  lemma WithoutFolders(env: Env, idx: Index, ids: set<Id>)
    requires IndexOk(env, idx) && idx.rootId !in ids
    requires forall id :: id in ids ==> !HasChild(idx, id) && !HasSession(idx, id)
    ensures IndexOk(env, idx.(folders := idx.folders - ids, folderDir := idx.folderDir - ids))
  {
    hide FoldersOk, SessionsOk, HasChild, HasSession;
    FoldersKeep(env, idx, ids);
    SessionsKeep(env, idx, ids);
  }

  lemma FoldersKeep(env: Env, idx: Index, ids: set<Id>)
    requires FoldersOk(env, idx) && idx.rootId !in ids && forall id :: id in ids ==> !HasChild(idx, id)
    ensures FoldersOk(env, idx.(folders := idx.folders - ids, folderDir := idx.folderDir - ids))
  {
    hide IsFolderDir, Env.EqualFold, FolderNamesUnique;
    var r := idx.(folders := idx.folders - ids, folderDir := idx.folderDir - ids);
    forall k | k in r.folders ensures FolderOk(r, k) {
      assert FolderOk(idx, k);
    }
    FolderNamesKeep(env, idx.folders, ids);
  }

  lemma FolderNamesKeep(env: Env, folders: map<Id, Folder>, ids: set<Id>)
    requires FolderNamesUnique(env, folders)
    ensures FolderNamesUnique(env, folders - ids)
  {
    var r := folders - ids;
    forall a, b | a in r && b in r && SameFolderName(env, r[a], r[b]) ensures a == b {
      assert SameFolderName(env, folders[a], folders[b]);
    }
  }

  lemma SessionsKeep(env: Env, idx: Index, ids: set<Id>)
    requires SessionsOk(env, idx) && forall id :: id in ids ==> !HasSession(idx, id)
    ensures SessionsOk(env, idx.(folders := idx.folders - ids, folderDir := idx.folderDir - ids))
  {
    var r := idx.(folders := idx.folders - ids, folderDir := idx.folderDir - ids);
    forall k | k in r.sessions ensures SessionOk(r, k) {
      assert SessionOk(idx, k);
    }
  }

  lemma DeleteOk(env: Env, idx: Index, id: Id)
    requires IndexOk(env, idx) && DeleteId(idx, id).Ok?
    ensures IndexOk(env, DeleteId(idx, id).value)
  {
    hide IndexOk, HasChild, HasSession;
    if id in idx.sessions {
      WithoutSessions(env, idx, {id});
    } else {
      WithoutFolders(env, idx, {id});
    }
  }

  // --------------------------------------------------------------------- moving

  /** Where a path ends up when directory `src` is renamed to `to`. */
  function Relocated(p: Path, src: Path, to: Path): Path {
    if src <= p then to + p[|src|..] else p
  }

  function RelocatedAll(m: map<Id, Path>, src: Path, to: Path): map<Id, Path> {
    map id | id in m :: Relocated(m[id], src, to)
  }

  /** PutFolder: create, update in place, or move with the whole subtree. */
  function PutFolder(env: Env, idx: Index, f: Folder): Result<Index, StoreError>
    requires idx.rootId in idx.folders
  {
    if f.id != "" && f.id == idx.rootId then
      var was := idx.folders[f.id];
      var out := f.(parentId := "", name := was.name, revision := was.revision + 1, updatedAt := env.clock(idx.tick));
      Ok(idx.(folders := idx.folders[f.id := out], tick := idx.tick + 1))
    else if f.id == "" then AddFolder(env, idx, f)
    else
      var parent := if f.parentId == "" then idx.rootId else f.parentId;
      if TrimSpace(f.name) == "" then Err(NameRequired)
      else if parent !in idx.folderDir then Err(NotFound)
      else if Sanitized(f.name) == "" then Err(BadName)
      else
        var target := idx.folderDir[parent] + [Sanitized(f.name)];
        if FolderClash(env, idx, f.id, parent, f.name, target) then Err(Duplicate)
        else if f.id !in idx.folders || f.id !in idx.folderDir then Err(NotFound)
        else
          var src := idx.folderDir[f.id];
          if src != target && src <= target then Err(IntoSubtree)
          else if src != target && (target in idx.sessionFile.Values || Sanitized(f.name) == FOLDER_FILE) then Err(IOError)
          else
            var out := f.(parentId := parent, revision := idx.folders[f.id].revision + 1, updatedAt := env.clock(idx.tick));
            Ok(MovedFolder(idx, out, src, target))
  }

  function MovedFolder(idx: Index, out: Folder, src: Path, target: Path): Index {
    idx.(folders := idx.folders[out.id := out], folderDir := RelocatedAll(idx.folderDir, src, target),
         sessionFile := RelocatedAll(idx.sessionFile, src, target), tick := idx.tick + 1)
  }

  lemma MovedTick(idx: Index, out: Folder, src: Path, target: Path)
    ensures MovedFolder(idx, out, src, target).tick == idx.tick + 1
  {
  }

  /** Every directory on the way to a folder is a folder. */
  lemma {:induction false} PrefixIsFolder(env: Env, idx: Index, id: Id, p: Path) returns (k: Id)
    requires FoldersOk(env, idx) && id in idx.folderDir && p <= idx.folderDir[id]
    ensures k in idx.folderDir && idx.folderDir[k] == p
    decreases |idx.folderDir[id]|
  {
    if p == idx.folderDir[id] {
      k := id;
    } else {
      assert FolderOk(idx, id);
      var parent := idx.folders[id].parentId;
      assert idx.folderDir[parent] == idx.folderDir[id][..|idx.folderDir[id]| - 1];
      k := PrefixIsFolder(env, idx, parent, p);
    }
  }

  /** What a move may assume: the target is free, below no moved directory, next to its new parent. */
  ghost predicate CanMove(env: Env, idx: Index, out: Folder, src: Path, target: Path) {
    && out.id in idx.folders && out.id in idx.folderDir && out.id != idx.rootId && idx.folderDir[out.id] == src != target
    && !(src <= target)
    && out.parentId in idx.folderDir && ChildPath(target, idx.folderDir[out.parentId]) && IsFolderDir(target[|target| - 1])
    && (forall k :: k in idx.folderDir ==> idx.folderDir[k] != target)
    && (forall s :: s in idx.sessionFile ==> idx.sessionFile[s] != target)
    && (forall k :: k in idx.folders && k != out.id && idx.folders[k].parentId == out.parentId ==>
          !env.EqualFold(idx.folders[k].name, out.name))
  }

  lemma PrefixOfChild(p: Path, t: Path)
    requires p != []
    ensures t <= p && t != p ==> t <= p[..|p| - 1]
  {
  }

  /** Nothing in the tree lies below a free target. */
  lemma NothingBelow(env: Env, idx: Index, out: Folder, src: Path, target: Path)
    requires FoldersOk(env, idx) && SessionsOk(env, idx) && CanMove(env, idx, out, src, target)
    ensures forall k :: k in idx.folderDir ==> !(target <= idx.folderDir[k])
    ensures forall s :: s in idx.sessionFile ==> !(target <= idx.sessionFile[s])
  {
    forall k | k in idx.folderDir ensures !(target <= idx.folderDir[k]) {
      if target <= idx.folderDir[k] {
        var j := PrefixIsFolder(env, idx, k, target);
      }
    }
    forall s | s in idx.sessionFile ensures !(target <= idx.sessionFile[s]) {
      assert SessionOk(idx, s);
      var home, file := idx.sessions[s].folderId, idx.sessionFile[s];
      PrefixOfChild(file, target);
      assert home in idx.folderDir && file[..|file| - 1] == idx.folderDir[home];
    }
  }

  lemma RelocateInjective(m: map<Id, Path>, src: Path, target: Path)
    requires Injective(m) && forall k :: k in m ==> !(target <= m[k])
    ensures Injective(RelocatedAll(m, src, target))
  {
    var r := RelocatedAll(m, src, target);
    forall a, b | a in r && b in r && r[a] == r[b] ensures a == b {
      RelocateEqual(m[a], m[b], src, target);
    }
  }

  lemma RelocateEqual(p: Path, q: Path, src: Path, target: Path)
    requires !(target <= p) && !(target <= q) && Relocated(p, src, target) == Relocated(q, src, target)
    ensures p == q
  {
    assert src <= p ==> target <= Relocated(p, src, target);
    assert src <= q ==> target <= Relocated(q, src, target);
    if src <= p && src <= q {
      assert (target + p[|src|..])[|target|..] == p[|src|..];
      assert (target + q[|src|..])[|target|..] == q[|src|..];
      assert p == src + p[|src|..] && q == src + q[|src|..];
    }
  }

  /** A child path stays a child path when the directory above both moves, or neither is touched. */
  lemma RelocateChild(p: Path, dir: Path, src: Path, target: Path)
    requires ChildPath(p, dir) && p != src
    ensures ChildPath(Relocated(p, src, target), Relocated(dir, src, target))
    ensures Relocated(p, src, target)[|Relocated(p, src, target)| - 1] == p[|p| - 1]
  {
    assert p == dir + [p[|p| - 1]];
    if src <= p {
      assert src <= dir;
      assert p[|src|..] == dir[|src|..] + [p[|p| - 1]];
      var r := target + p[|src|..];
      assert r[..|r| - 1] == target + dir[|src|..];
    } else {
      assert !(src <= dir);
    }
  }

  lemma MovedFoldersOk(env: Env, idx: Index, out: Folder, src: Path, target: Path)
    requires FoldersOk(env, idx) && SessionsOk(env, idx) && CanMove(env, idx, out, src, target)
    ensures FoldersOk(env, MovedFolder(idx, out, src, target))
  {
    hide FolderOk, IsFolderDir, Env.EqualFold, FolderNamesUnique, Injective, ChildPath, Relocated;
    var r := MovedFolder(idx, out, src, target);
    NothingBelow(env, idx, out, src, target);
    RelocateInjective(idx.folderDir, src, target);
    FolderNameUpdate(env, idx.folders, out);
    forall k | k in r.folders ensures FolderOk(r, k) {
      MovedFolderOk(env, idx, out, src, target, k);
    }
  }

  lemma SourceMoves(src: Path, target: Path, parent: Path)
    requires !(src <= target) && ChildPath(target, parent)
    ensures Relocated(src, src, target) == target && Relocated(parent, src, target) == parent && src != []
  {
    assert src[|src|..] == [] && target + [] == target;
    assert parent <= target;
  }

  /** The part of a possible move that one folder's record needs. */
  ghost predicate Goes(idx: Index, out: Folder, src: Path, target: Path) {
    && out.id in idx.folders && out.id in idx.folderDir && out.id != idx.rootId && idx.folderDir[out.id] == src
    && !(src <= target) && out.parentId in idx.folders && out.parentId in idx.folderDir
    && ChildPath(target, idx.folderDir[out.parentId]) && target != [] && IsFolderDir(target[|target| - 1])
  }

  lemma MoveGoes(env: Env, idx: Index, out: Folder, src: Path, target: Path)
    requires FoldersOk(env, idx) && CanMove(env, idx, out, src, target)
    ensures Goes(idx, out, src, target) && Injective(idx.folderDir)
    ensures out.id in idx.folders && out.id in idx.folderDir && idx.folderDir[out.id] == src
    ensures forall k :: k in idx.folders ==> k in idx.folderDir && FolderOk(idx, k)
  {
    hide FolderOk, FolderNamesUnique;
  }

  lemma MovedFolderOk(env: Env, idx: Index, out: Folder, src: Path, target: Path, k: Id)
    requires FoldersOk(env, idx) && CanMove(env, idx, out, src, target) && k in idx.folders
    ensures FolderOk(MovedFolder(idx, out, src, target), k)
  {
    hide FoldersOk, CanMove, FolderOk, Goes, Injective, MovedFolder;
    MoveGoes(env, idx, out, src, target);
    if k == out.id {
      TheMoved(idx, out, src, target);
    } else {
      NotTheSource(idx, out.id, k);
      TheOthers(idx, out, src, target, k);
    }
  }

  lemma TheMoved(idx: Index, out: Folder, src: Path, target: Path)
    requires Goes(idx, out, src, target) && FolderOk(idx, out.id)
    ensures FolderOk(MovedFolder(idx, out, src, target), out.id)
  {
    hide IsFolderDir, Relocated;
    SourceMoves(src, target, idx.folderDir[out.parentId]);
  }

  lemma TheOthers(idx: Index, out: Folder, src: Path, target: Path, k: Id)
    requires Goes(idx, out, src, target) && k in idx.folders && k in idx.folderDir && FolderOk(idx, k) && FolderOk(idx, out.id)
    requires k != out.id && idx.folderDir[k] != src
    ensures FolderOk(MovedFolder(idx, out, src, target), k)
  {
    hide IsFolderDir, ChildPath, Relocated;
    var r := MovedFolder(idx, out, src, target);
    var p := idx.folders[k].parentId;
    if k == idx.rootId {
      SourceMoves(src, target, idx.folderDir[out.parentId]);
      RootStays(src, target);
    } else {
      ChildNotEmpty(idx.folderDir[k], idx.folderDir[p]);
      RelocateChild(idx.folderDir[k], idx.folderDir[p], src, target);
      ChildNotEmpty(r.folderDir[k], r.folderDir[p]);
    }
  }

  lemma NotTheSource(idx: Index, a: Id, b: Id)
    requires Injective(idx.folderDir) && a in idx.folderDir && b in idx.folderDir && a != b
    ensures idx.folderDir[a] != idx.folderDir[b]
  {
  }

  lemma ChildNotEmpty(p: Path, dir: Path)
    requires ChildPath(p, dir)
    ensures p != []
  {
  }

  lemma RootStays(src: Path, target: Path)
    requires src != []
    ensures Relocated([], src, target) == []
  {
  }

  lemma MovedSessionsOk(env: Env, idx: Index, out: Folder, src: Path, target: Path)
    requires FoldersOk(env, idx) && SessionsOk(env, idx) && Apart(env, idx) && CanMove(env, idx, out, src, target)
    ensures SessionsOk(env, MovedFolder(idx, out, src, target))
  {
    hide FoldersOk, Injective, Relocated, FolderOk, CanMove, SessionOk, SessionNamesUnique, Apart;
    var r := MovedFolder(idx, out, src, target);
    NothingBelow(env, idx, out, src, target);
    RelocateInjective(idx.sessionFile, src, target);
    forall k | k in r.sessions ensures SessionOk(r, k) {
      MovedSessionOk(env, idx, out, src, target, k);
    }
  }

  lemma MovedSessionOk(env: Env, idx: Index, out: Folder, src: Path, target: Path, k: Id)
    requires SessionsOk(env, idx) && Apart(env, idx) && CanMove(env, idx, out, src, target) && k in idx.sessions
    ensures SessionOk(MovedFolder(idx, out, src, target), k)
  {
    hide IsSessionFile, IsFolderDir, Env.EqualFold, SessionNamesUnique, Injective, ChildPath, Relocated;
    assert SessionOk(idx, k);
    var file, home := idx.sessionFile[k], idx.folderDir[idx.sessions[k].folderId];
    ChildNotEmpty(file, home);
    RelocateChild(file, home, src, target);
    ChildNotEmpty(Relocated(file, src, target), Relocated(home, src, target));
  }

  lemma MovedApart(env: Env, idx: Index, out: Folder, src: Path, target: Path)
    requires IndexOk(env, idx) && CanMove(env, idx, out, src, target)
    ensures Apart(env, MovedFolder(idx, out, src, target))
  {
    hide FoldersOk, SessionsOk, Relocated;
    NothingBelow(env, idx, out, src, target);
    var r := MovedFolder(idx, out, src, target);
    forall f, s | f in r.folderDir && s in r.sessionFile ensures r.folderDir[f] != r.sessionFile[s] {
      if r.folderDir[f] == r.sessionFile[s] {
        RelocateEqual(idx.folderDir[f], idx.sessionFile[s], src, target);
      }
    }
  }

  /** A folder update that stays at its directory. */
  lemma InPlaceOk(env: Env, idx: Index, out: Folder)
    requires IndexOk(env, idx) && out.id in idx.folders
    requires out.parentId == idx.folders[out.id].parentId
    requires forall k :: k in idx.folders && k != out.id && idx.folders[k].parentId == out.parentId ==>
               !env.EqualFold(idx.folders[k].name, out.name)
    ensures IndexOk(env, idx.(folders := idx.folders[out.id := out], tick := idx.tick + 1))
  {
    hide SessionsOk, FoldersOk;
    var r := idx.(folders := idx.folders[out.id := out], tick := idx.tick + 1);
    FoldersInPlace(env, idx, out);
    SessionsFrame(env, idx, r);
  }

  lemma FoldersInPlace(env: Env, idx: Index, out: Folder)
    requires FoldersOk(env, idx) && out.id in idx.folders
    requires out.parentId == idx.folders[out.id].parentId
    requires forall k :: k in idx.folders && k != out.id && idx.folders[k].parentId == out.parentId ==>
               !env.EqualFold(idx.folders[k].name, out.name)
    ensures FoldersOk(env, idx.(folders := idx.folders[out.id := out], tick := idx.tick + 1))
  {
    hide FolderNamesUnique, IsFolderDir, Env.EqualFold, Injective, ChildPath;
    var r := idx.(folders := idx.folders[out.id := out], tick := idx.tick + 1);
    forall k | k in r.folders ensures FolderOk(r, k) {
      assert FolderOk(idx, k);
    }
    FolderNameUpdate(env, idx.folders, out);
  }

  lemma RelocateNothing(m: map<Id, Path>, p: Path)
    ensures RelocatedAll(m, p, p) == m
  {
    forall k | k in m ensures Relocated(m[k], p, p) == m[k] {
      if p <= m[k] {
        assert p + m[k][|p|..] == m[k];
      }
    }
  }

  /** What a successful update of a folder below the root found out. */
  ghost predicate UpdateAt(env: Env, idx: Index, f: Folder, out: Folder, target: Path) {
    && f.id in idx.folders && f.id in idx.folderDir && f.id != idx.rootId
    && out == f.(parentId := if f.parentId == "" then idx.rootId else f.parentId,
                 revision := idx.folders[f.id].revision + 1, updatedAt := env.clock(idx.tick))
    && out.parentId in idx.folderDir && Sanitized(f.name) != "" && TrimSpace(f.name) != ""
    && target == idx.folderDir[out.parentId] + [Sanitized(f.name)]
    && !FolderClash(env, idx, f.id, out.parentId, f.name, target)
    && (idx.folderDir[f.id] != target ==>
          !(idx.folderDir[f.id] <= target) && target !in idx.sessionFile.Values && Sanitized(f.name) != FOLDER_FILE)
  }

  lemma UpdateIs(env: Env, idx: Index, f: Folder) returns (out: Folder, target: Path)
    requires idx.rootId in idx.folders && f.id != "" && f.id != idx.rootId && PutFolder(env, idx, f).Ok?
    ensures UpdateAt(env, idx, f, out, target)
    ensures PutFolder(env, idx, f).value == MovedFolder(idx, out, idx.folderDir[f.id], target)
  {
    hide FolderClash, Sanitized, TrimSpace, AddFolder, MovedFolder;
    out := f.(parentId := if f.parentId == "" then idx.rootId else f.parentId,
              revision := idx.folders[f.id].revision + 1, updatedAt := env.clock(idx.tick));
    target := idx.folderDir[out.parentId] + [Sanitized(f.name)];
  }

  /** An update that changes the directory is a possible move. */
  lemma UpdateCanMove(env: Env, idx: Index, f: Folder, out: Folder, target: Path)
    requires IndexOk(env, idx) && UpdateAt(env, idx, f, out, target) && idx.folderDir[f.id] != target
    ensures CanMove(env, idx, out, idx.folderDir[f.id], target)
  {
    hide FoldersOk, SessionsOk, Apart, FolderClash, Sanitized, TrimSpace, IsFolderDir;
    var d := Sanitized(f.name);
    KeysAgree(env, idx);
    DirFree(env, idx, f.id, out.parentId, f.name, d);
    FileNameLoads(f.name);
    assert target[..|target| - 1] == idx.folderDir[out.parentId] && target[|target| - 1] == d;
    NotAFile(idx.sessionFile, target);
    OwnDir(env, idx, f.id, target);
  }

  /** Nobody has a directory that neither the folder itself nor another has. */
  lemma OwnDir(env: Env, idx: Index, id: Id, target: Path)
    requires id in idx.folderDir && idx.folderDir[id] != target
    requires forall k :: k in idx.folderDir && k != id ==> idx.folderDir[k] != target
    ensures forall k :: k in idx.folderDir ==> idx.folderDir[k] != target
  {
  }

  lemma UpdateOk(env: Env, idx: Index, f: Folder, out: Folder, target: Path)
    requires IndexOk(env, idx) && UpdateAt(env, idx, f, out, target)
    ensures IndexOk(env, MovedFolder(idx, out, idx.folderDir[f.id], target))
  {
    hide FoldersOk, SessionsOk, Apart, CanMove, RelocatedAll, FolderClash, Sanitized, TrimSpace, IsFolderDir;
    if idx.folderDir[f.id] == target {
      UpdateInPlace(env, idx, f, out, target);
      RelocateNothing(idx.folderDir, target);
      RelocateNothing(idx.sessionFile, target);
      InPlaceOk(env, idx, out);
    } else {
      UpdateCanMove(env, idx, f, out, target);
      MovedFoldersOk(env, idx, out, idx.folderDir[f.id], target);
      MovedSessionsOk(env, idx, out, idx.folderDir[f.id], target);
      MovedApart(env, idx, out, idx.folderDir[f.id], target);
    }
  }

  lemma UpdateInPlace(env: Env, idx: Index, f: Folder, out: Folder, target: Path)
    requires IndexOk(env, idx) && UpdateAt(env, idx, f, out, target) && idx.folderDir[f.id] == target
    ensures out.parentId == idx.folders[out.id].parentId
    ensures forall k :: k in idx.folders && k != out.id && idx.folders[k].parentId == out.parentId ==>
              !env.EqualFold(idx.folders[k].name, out.name)
  {
    hide FoldersOk, SessionsOk, Apart, FolderClash, Sanitized, TrimSpace, IsFolderDir;
    KeysAgree(env, idx);
    DirFree(env, idx, f.id, out.parentId, f.name, Sanitized(f.name));
    assert target[..|target| - 1] == idx.folderDir[out.parentId];
    SameParent(env, idx, f.id, out.parentId);
  }

  lemma NotAFile(m: map<Id, Path>, p: Path)
    requires p !in m.Values
    ensures forall s :: s in m ==> m[s] != p
  {
  }

  /** A folder found at a child path of `parent` has that parent. */
  lemma SameParent(env: Env, idx: Index, id: Id, parent: Id)
    requires FoldersOk(env, idx) && id in idx.folders && id != idx.rootId && id in idx.folderDir && parent in idx.folderDir
    requires ChildPath(idx.folderDir[id], idx.folderDir[parent])
    ensures idx.folders[id].parentId == parent
  {
    assert FolderOk(idx, id);
  }

  lemma PutFolderOk(env: Env, idx: Index, f: Folder)
    requires IndexOk(env, idx) && idx.rootId in idx.folders && PutFolder(env, idx, f).Ok?
    ensures IndexOk(env, PutFolder(env, idx, f).value)
  {
    hide FoldersOk, SessionsOk, Apart;
    if f.id == "" {
      AddFolderOk(env, idx, f);
    } else if f.id == idx.rootId {
      RootAlone(env, idx);
      InPlaceOk(env, idx, PutFolder(env, idx, f).value.folders[f.id]);
    } else {
      var out, target := UpdateIs(env, idx, f);
      UpdateOk(env, idx, f, out, target);
    }
  }

  /** Only the root has no parent. */
  lemma RootAlone(env: Env, idx: Index)
    requires FoldersOk(env, idx)
    ensures idx.rootId in idx.folders && idx.folders[idx.rootId].parentId == ""
    ensures forall k :: k in idx.folders && idx.folders[k].parentId == "" ==> k == idx.rootId
  {
    NoEmptyId(env, idx);
    assert FolderOk(idx, idx.rootId);
    forall k | k in idx.folders && idx.folders[k].parentId == "" ensures k == idx.rootId {
      assert FolderOk(idx, k);
    }
  }
}
