/** The directory tree on disk, and how it agrees with the index under every operation. */
module DiskTree {
  import opened Wrappers
  import opened StoreNames
  import opened StoreIndex
  import opened StoreMove

  /** The tree on disk: a folder record per directory, a session record per session file. */
  datatype Disk = Disk(dirs: map<Path, Folder>, files: map<Path, Session>)

  /** The folder part of the index is what loading the directories gives. */
  ghost predicate FoldersAgree(folders: map<Id, Folder>, folderDir: map<Id, Path>, dirs: map<Path, Folder>) {
    && (forall id :: id in folderDir ==>
          id in folders && folderDir[id] in dirs && dirs[folderDir[id]].id == id
          && LoadedFolder(dirs[folderDir[id]], folders[id].parentId) == folders[id])
    && (forall p :: p in dirs ==> dirs[p].id in folderDir && folderDir[dirs[p].id] == p)
  }

  ghost predicate SessionsAgree(sessions: map<Id, Session>, sessionFile: map<Id, Path>, files: map<Path, Session>) {
    && (forall id :: id in sessionFile ==>
          id in sessions && sessionFile[id] in files && files[sessionFile[id]].id == id
          && LoadedSession(files[sessionFile[id]], sessions[id].folderId) == sessions[id])
    && (forall p :: p in files ==> files[p].id in sessionFile && sessionFile[files[p].id] == p)
  }

  ghost predicate Agrees(idx: Index, disk: Disk) {
    FoldersAgree(idx.folders, idx.folderDir, disk.dirs) && SessionsAgree(idx.sessions, idx.sessionFile, disk.files)
  }

  /** Directory structure is authoritative for who the parent is. */
  function LoadedFolder(f: Folder, parentId: Id): Folder { f.(parentId := parentId) }

  function LoadedSession(s: Session, folderId: Id): Session { s.(folderId := folderId) }

  /** Loading is deterministic: two consistent indexes of the same tree are the same. */
  lemma ReloadUnique(env: Env, a: Index, b: Index, disk: Disk)
    requires IndexOk(env, a) && IndexOk(env, b) && Agrees(a, disk) && Agrees(b, disk)
    ensures a.folderDir == b.folderDir && a.sessionFile == b.sessionFile
    ensures a.rootId == b.rootId && a.folders == b.folders && a.sessions == b.sessions
  {
    hide FoldersOk, SessionsOk, Apart, FoldersAgree, SessionsAgree;
    SameDirs(a, b, disk);
    SameDirs(b, a, disk);
    assert a.folderDir == b.folderDir && a.sessionFile == b.sessionFile;
    SameFolders(env, a, b, disk);
    SameSessions(env, a, b, disk);
  }

  lemma SameDirs(a: Index, b: Index, disk: Disk)
    requires Agrees(a, disk) && Agrees(b, disk)
    ensures forall id :: id in a.folderDir ==> id in b.folderDir && b.folderDir[id] == a.folderDir[id]
    ensures forall id :: id in a.sessionFile ==> id in b.sessionFile && b.sessionFile[id] == a.sessionFile[id]
  {
    hide LoadedFolder, LoadedSession;
    forall id | id in a.folderDir ensures id in b.folderDir && b.folderDir[id] == a.folderDir[id] {
      assert disk.dirs[a.folderDir[id]].id == id;
    }
    forall id | id in a.sessionFile ensures id in b.sessionFile && b.sessionFile[id] == a.sessionFile[id] {
      assert disk.files[a.sessionFile[id]].id == id;
    }
  }

  lemma SameFolders(env: Env, a: Index, b: Index, disk: Disk)
    requires FoldersOk(env, a) && FoldersOk(env, b)
    requires FoldersAgree(a.folders, a.folderDir, disk.dirs) && FoldersAgree(b.folders, b.folderDir, disk.dirs)
    requires a.folderDir == b.folderDir
    ensures a.rootId == b.rootId && a.folders == b.folders
  {
    hide IsFolderDir, FolderNamesUnique;
    assert FolderOk(a, a.rootId) && FolderOk(b, b.rootId);
    forall id | id in a.folders ensures a.folders[id] == b.folders[id] {
      assert FolderOk(a, id) && FolderOk(b, id);
    }
  }

  lemma SameSessions(env: Env, a: Index, b: Index, disk: Disk)
    requires FoldersOk(env, a) && SessionsOk(env, a) && SessionsOk(env, b)
    requires SessionsAgree(a.sessions, a.sessionFile, disk.files) && SessionsAgree(b.sessions, b.sessionFile, disk.files)
    requires a.folderDir == b.folderDir && a.sessionFile == b.sessionFile
    ensures a.sessions == b.sessions
  {
    hide IsSessionFile, SessionNamesUnique, FoldersOk;
    InjectivePaths(env, a);
    forall id | id in a.sessions ensures a.sessions[id] == b.sessions[id] {
      assert SessionOk(a, id) && SessionOk(b, id);
    }
  }

  // ---------------------------------------------------------- the disk under each operation

  /** The record is written first; a file under the old name is removed afterwards. */
  function WriteSession(files: map<Path, Session>, out: Session, target: Path, before: Option<Path>): map<Path, Session> {
    var written := files[target := out];
    if before.Some? && before.value != target then written - {before.value} else written
  }

  function FileOf(m: map<Id, Path>, id: Id): Option<Path> {
    if id in m then Some(m[id]) else None
  }

  lemma PutAgrees(idx: Index, disk: Disk, out: Session, target: Path)
    requires Agrees(idx, disk) && Injective(idx.sessionFile)
    requires forall k :: k in idx.sessionFile && k != out.id ==> idx.sessionFile[k] != target
    ensures Agrees(WithSession(idx, out, target),
                   disk.(files := WriteSession(disk.files, out, target, FileOf(idx.sessionFile, out.id))))
  {
    hide FoldersAgree;
    var before := FileOf(idx.sessionFile, out.id);
    WriteForward(idx, disk.files, out, target);
    WriteBackward(idx, disk.files, out, target);
  }

  lemma WriteForward(idx: Index, files: map<Path, Session>, out: Session, target: Path)
    requires SessionsAgree(idx.sessions, idx.sessionFile, files) && Injective(idx.sessionFile)
    requires forall k :: k in idx.sessionFile && k != out.id ==> idx.sessionFile[k] != target
    ensures var after := WriteSession(files, out, target, FileOf(idx.sessionFile, out.id));
            var r := WithSession(idx, out, target);
            forall id :: id in r.sessionFile ==>
              id in r.sessions && r.sessionFile[id] in after && after[r.sessionFile[id]].id == id
              && LoadedSession(after[r.sessionFile[id]], r.sessions[id].folderId) == r.sessions[id]
  {
    hide LoadedSession, WriteSession, Injective;
    LoadedSame(out);
    Written(files, out, target, FileOf(idx.sessionFile, out.id));
    forall id | id in idx.sessionFile && id != out.id
      ensures WriteSession(files, out, target, FileOf(idx.sessionFile, out.id))[idx.sessionFile[id]] == files[idx.sessionFile[id]]
    {
      OtherFile(idx.sessionFile, id, out.id);
    }
  }

  lemma OtherFile(m: map<Id, Path>, a: Id, b: Id)
    requires Injective(m) && a in m && a != b
    ensures FileOf(m, b) != Some(m[a])
  {
  }

  lemma Written(files: map<Path, Session>, out: Session, target: Path, before: Option<Path>)
    ensures var after := WriteSession(files, out, target, before);
            && target in after && after[target] == out
            && forall p :: p in files && p != target && before != Some(p) ==> p in after && after[p] == files[p]
  {
  }

  lemma WriteBackward(idx: Index, files: map<Path, Session>, out: Session, target: Path)
    requires SessionsAgree(idx.sessions, idx.sessionFile, files)
    ensures var after := WriteSession(files, out, target, FileOf(idx.sessionFile, out.id));
            var r := WithSession(idx, out, target);
            forall p :: p in after ==> after[p].id in r.sessionFile && r.sessionFile[after[p].id] == p
  {
    hide LoadedSession;
    var after := WriteSession(files, out, target, FileOf(idx.sessionFile, out.id));
    forall p | p in after && p != target ensures p in files && after[p] == files[p] && files[p].id != out.id {
      assert idx.sessionFile[files[p].id] == p;
    }
  }

  lemma LoadedSame(s: Session)
    ensures LoadedSession(s, s.folderId) == s
  {
  }

  lemma WithoutAgrees(idx: Index, disk: Disk, id: Id)
    requires Agrees(idx, disk) && id in idx.sessionFile
    requires Injective(idx.sessionFile)
    ensures Agrees(idx.(sessions := idx.sessions - {id}, sessionFile := idx.sessionFile - {id}),
                   disk.(files := disk.files - {idx.sessionFile[id]}))
  {
    hide FoldersAgree;
  }

  lemma WithoutDirAgrees(idx: Index, disk: Disk, id: Id)
    requires Agrees(idx, disk) && id in idx.folderDir && Injective(idx.folderDir)
    ensures Agrees(idx.(folders := idx.folders - {id}, folderDir := idx.folderDir - {id}),
                   disk.(dirs := disk.dirs - {idx.folderDir[id]}))
  {
    hide SessionsAgree;
  }

  lemma AddAgrees(idx: Index, disk: Disk, out: Folder, target: Path)
    requires Agrees(idx, disk) && out.id !in idx.folderDir && forall k :: k in idx.folderDir ==> idx.folderDir[k] != target
    ensures Agrees(WithFolder(idx, out, target), disk.(dirs := disk.dirs[target := out]))
  {
    hide SessionsAgree;
  }

  /** os.Rename of a directory: every path below it changes. */
  function Renamed<V>(m: map<Path, V>, src: Path, target: Path): map<Path, V> {
    map p | p in (set q | q in m :: Relocated(q, src, target)) && Original(p, src, target) in m :: m[Original(p, src, target)]
  }

  function Original(p: Path, src: Path, target: Path): Path {
    if target <= p then src + p[|target|..] else p
  }

  lemma RenamedAt<V>(m: map<Path, V>, p: Path, src: Path, target: Path)
    requires p in m && forall q :: q in m ==> !(target <= q)
    ensures Original(Relocated(p, src, target), src, target) == p
    ensures Relocated(p, src, target) in Renamed(m, src, target) && Renamed(m, src, target)[Relocated(p, src, target)] == m[p]
  {
    if src <= p {
      assert (target + p[|src|..])[|target|..] == p[|src|..];
      assert p == src + p[|src|..];
    }
    assert Original(Relocated(p, src, target), src, target) == p;
  }

  lemma RenamedFrom<V>(m: map<Path, V>, r: Path, src: Path, target: Path) returns (p: Path)
    requires r in Renamed(m, src, target) && forall q :: q in m ==> !(target <= q)
    ensures p in m && r == Relocated(p, src, target) && Renamed(m, src, target)[r] == m[p]
  {
    p :| p in m && Relocated(p, src, target) == r;
    RenamedAt(m, p, src, target);
  }

  lemma RenameAgrees(idx: Index, disk: Disk, out: Folder, src: Path, target: Path)
    requires Agrees(idx, disk) && out.id in idx.folderDir && idx.folderDir[out.id] == src
    requires Injective(idx.folderDir)
    requires forall k :: k in idx.folderDir ==> !(target <= idx.folderDir[k])
    requires forall k :: k in idx.sessionFile ==> !(target <= idx.sessionFile[k])
    ensures Agrees(MovedFolder(idx, out, src, target),
                   Disk(Renamed(disk.dirs, src, target)[target := out], Renamed(disk.files, src, target)))
  {
    RenamedDirsAgree(idx, disk.dirs, out, src, target);
    RenamedFilesAgree(idx, disk.files, src, target);
  }

  lemma RenamedDirsAgree(idx: Index, dirs: map<Path, Folder>, out: Folder, src: Path, target: Path)
    requires FoldersAgree(idx.folders, idx.folderDir, dirs) && out.id in idx.folderDir && idx.folderDir[out.id] == src
    requires Injective(idx.folderDir)
    requires forall k :: k in idx.folderDir ==> !(target <= idx.folderDir[k])
    ensures FoldersAgree(idx.folders[out.id := out], RelocatedAll(idx.folderDir, src, target),
                         Renamed(dirs, src, target)[target := out])
  {
    hide Renamed, Relocated, Original;
    var m, after := RelocatedAll(idx.folderDir, src, target), Renamed(dirs, src, target)[target := out];
    forall p | p in dirs ensures !(target <= p) {
      assert idx.folderDir[dirs[p].id] == p;
    }
    assert Relocated(src, src, target) == target by { SourceIsTarget(src, target); }
    forall id | id in m
      ensures id in idx.folders[out.id := out] && m[id] in after && after[m[id]].id == id
      ensures LoadedFolder(after[m[id]], idx.folders[out.id := out][id].parentId) == idx.folders[out.id := out][id]
    {
      var p := idx.folderDir[id];
      RenamedAt(dirs, p, src, target);
      if id != out.id && m[id] == target {
        RelocateEqual(p, src, src, target);
      }
    }
    forall r | r in after ensures after[r].id in m && m[after[r].id] == r {
      if r != target {
        var p := RenamedFrom(dirs, r, src, target);
      }
    }
  }

  lemma SourceIsTarget(src: Path, target: Path)
    ensures Relocated(src, src, target) == target
  {
    assert src[|src|..] == [] && target + [] == target;
  }

  lemma RenamedFilesAgree(idx: Index, files: map<Path, Session>, src: Path, target: Path)
    requires SessionsAgree(idx.sessions, idx.sessionFile, files)
    requires forall k :: k in idx.sessionFile ==> !(target <= idx.sessionFile[k])
    ensures SessionsAgree(idx.sessions, RelocatedAll(idx.sessionFile, src, target), Renamed(files, src, target))
  {
    hide Renamed, Relocated, Original;
    var m, after := RelocatedAll(idx.sessionFile, src, target), Renamed(files, src, target);
    forall p | p in files ensures !(target <= p) {
      assert idx.sessionFile[files[p].id] == p;
    }
    forall id | id in m
      ensures id in idx.sessions && m[id] in after && after[m[id]].id == id
      ensures LoadedSession(after[m[id]], idx.sessions[id].folderId) == idx.sessions[id]
    {
      RenamedAt(files, idx.sessionFile[id], src, target);
    }
    forall r | r in after ensures after[r].id in m && m[after[r].id] == r {
      var p := RenamedFrom(files, r, src, target);
    }
  }

  lemma InPlaceAgrees(idx: Index, disk: Disk, out: Folder)
    requires Agrees(idx, disk) && out.id in idx.folderDir && Injective(idx.folderDir)
    ensures Agrees(idx.(folders := idx.folders[out.id := out], tick := idx.tick + 1),
                   disk.(dirs := disk.dirs[idx.folderDir[out.id] := out]))
  {
    hide SessionsAgree;
  }

  /** The root's record is rewritten in place. */
  lemma RootUpdate(env: Env, idx: Index, disk: Disk, f: Folder)
    requires IndexOk(env, idx) && Agrees(idx, disk) && idx.rootId in idx.folders && f.id == idx.rootId != ""
    ensures var want := StoreMove.PutFolder(env, idx, f).value;
            IndexOk(env, want) && Agrees(want, disk.(dirs := disk.dirs[[] := want.folders[f.id]]))
  {
    hide FoldersOk, SessionsOk, Apart, Agrees;
    PutFolderOk(env, idx, f);
    InjectivePaths(env, idx);
    RootDir(env, idx);
    InPlaceAgrees(idx, disk, StoreMove.PutFolder(env, idx, f).value.folders[f.id]);
  }

  lemma RootDir(env: Env, idx: Index)
    requires FoldersOk(env, idx)
    ensures idx.rootId in idx.folderDir && idx.folderDir[idx.rootId] == []
  {
    assert FolderOk(idx, idx.rootId);
  }

  lemma NewDir(env: Env, idx: Index, f: Folder, parent: Id, target: Path)
    requires IndexOk(env, idx) && parent in idx.folderDir && target == idx.folderDir[parent] + [Sanitized(f.name)]
    requires !FolderClash(env, idx, "", parent, f.name, target)
    ensures env.ulid(idx.tick) !in idx.folderDir && forall k :: k in idx.folderDir ==> idx.folderDir[k] != target
  {
    hide FoldersOk, SessionsOk, FolderClash;
    DirFree(env, idx, "", parent, f.name, Sanitized(f.name));
    KeysAgree(env, idx);
    NoEmptyId(env, idx);
  }

  /** The rename and the rewrite of folder.yaml give the tree of the moved index. */
  lemma UpdateAgrees(env: Env, idx: Index, disk: Disk, f: Folder, out: Folder, target: Path)
    requires IndexOk(env, idx) && Agrees(idx, disk) && UpdateAt(env, idx, f, out, target)
    ensures var src := idx.folderDir[f.id];
            var moved := if src == target then disk else Disk(Renamed(disk.dirs, src, target), Renamed(disk.files, src, target));
            Agrees(MovedFolder(idx, out, src, target), moved.(dirs := moved.dirs[target := out]))
  {
    hide FoldersOk, SessionsOk, Apart, Agrees, FolderClash, Renamed, RelocatedAll, Sanitized, TrimSpace, IsFolderDir;
    var src, d := idx.folderDir[f.id], Sanitized(f.name);
    InjectivePaths(env, idx);
    if src == target {
      RelocateNothing(idx.folderDir, target);
      RelocateNothing(idx.sessionFile, target);
      InPlaceAgrees(idx, disk, out);
    } else {
      DirFree(env, idx, f.id, out.parentId, f.name, d);
      FileNameLoads(f.name);
      assert target[..|target| - 1] == idx.folderDir[out.parentId] && target[|target| - 1] == d;
      NotAFile(idx.sessionFile, target);
      NothingBelow(env, idx, out, src, target);
      RenameAgrees(idx, disk, out, src, target);
    }
  }

  lemma InjectivePaths(env: Env, idx: Index)
    requires FoldersOk(env, idx) && SessionsOk(env, idx)
    ensures Injective(idx.folderDir) && Injective(idx.sessionFile)
  {
  }

  /** The file a Put writes belongs to nobody else; a new id has no file yet. */
  lemma PutTargetFree(env: Env, idx: Index, s: Session, folder: Id, out: Session, target: Path)
    requires IndexOk(env, idx) && Passable(env, idx, s.id)
    requires PutSession(env, idx, s) == Ok(WithSession(idx, out, target))
    requires out == Stored(env, idx, s, folder)
    ensures var id := out.id;
            && Injective(idx.sessionFile) && idx.sessionFile.Keys == idx.sessions.Keys
            && "" !in idx.sessions && (s.id == "" ==> env.ulid(idx.tick) !in idx.sessions)
            && (forall k :: k in idx.sessionFile && k != id ==> idx.sessionFile[k] != target)
  {
    hide FoldersOk, SessionsOk, SessionFileName, TrimSpace, SessionClash;
    var home, fn := PutSessionIs(env, idx, s);
    assert target == WithSession(idx, out, target).sessionFile[out.id];
    FileFree(env, idx, s.id, home, s.name, fn);
    KeysAgree(env, idx);
    InjectivePaths(env, idx);
    NoEmptySession(env, idx);
    PutIdOk(env, idx, s);
  }
}
