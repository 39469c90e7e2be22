/** The store over its directory tree: every operation keeps the index what a reload would build. */
module YamlStore {
  import opened Wrappers
  import opened StoreNames
  import opened StoreIndex
  import opened StoreMove
  import opened DiskTree
  import opened DiskLoad
  import opened StoreSources

  /** What an operation leaves behind, given what the index specification says. */
  ghost predicate Outcome(spec: Result<Index, StoreError>, before: Index, after: Index, err: Option<StoreError>) {
    match spec
    case Ok(idx) => err == None && after == idx
    case Err(e) => err == Some(e) && after == before
  }

  class Store {
    const env: Env
    var disk: Disk
    var rootId: Id
    var folders: map<Id, Folder>
    var sessions: map<Id, Session>
    var folderDir: map<Id, Path>
    var sessionFile: map<Id, Path>
    var tick: nat

    ghost function Idx(): Index
      reads this
    {
      Index(rootId, folders, sessions, folderDir, sessionFile, tick)
    }

    /** The index is consistent and is what a reload of the disk would build. */
    ghost predicate Valid()
      reads this
    {
      IndexOk(env, Idx()) && Agrees(Idx(), disk)
    }

    /** Opens a store: loads the tree on disk. */
    constructor (env: Env, disk: Disk, tick: nat, ghost want: Index)
      requires IndexOk(env, want) && Agrees(want, disk) && want.tick == tick
      ensures Valid() && Idx() == want && this.disk == disk && this.env == env
    {
      this.env, this.disk, this.tick := env, disk, tick;
      rootId, folders, sessions, folderDir, sessionFile := "", map[], map[], map[], map[];
      new;
      var ok := Reload(want);
    }

    /** Another session of the folder already has the name or the file. */
    method SessionTaken(id: Id, folder: Id, name: string, target: Path) returns (taken: bool)
      ensures taken == SessionClash(env, Idx(), id, folder, name, target)
    {
      var todo := sessions.Keys;
      taken := false;
      while todo != {}
        invariant todo <= sessions.Keys
        invariant forall k :: k in sessions.Keys - todo ==>
                    !(k != id && sessions[k].folderId == folder
                      && (env.EqualFold(sessions[k].name, name) || (k in sessionFile && sessionFile[k] == target)))
        decreases todo
      {
        var k :| k in todo;
        if k != id && sessions[k].folderId == folder {
          if env.EqualFold(sessions[k].name, name) || (k in sessionFile && sessionFile[k] == target) {
            return true;
          }
        }
        todo := todo - {k};
      }
    }

    /** Creates or updates a session: its file is written, a renamed one removed, the index follows. */
    method Put(s: Session) returns (err: Option<StoreError>)
      requires Valid() && Passable(env, Idx(), s.id)
      modifies this
      ensures Valid() && Outcome(PutSession(env, old(Idx()), s), old(Idx()), Idx(), err)
      ensures err.Some? ==> disk == old(disk)
    {
      hide IndexOk, Agrees, SessionClash, TrimSpace, SessionFileName, Stored;
      if TrimSpace(s.name) == "" {
        return Some(NameRequired);
      }
      var folder := if s.folderId == "" then rootId else s.folderId;
      if folder !in folderDir {
        return Some(NotFound);
      }
      var fn := SessionFileName(s.name);
      if fn.None? {
        return Some(BadName);
      }
      var target := folderDir[folder] + [fn.value];
      var taken := SessionTaken(s.id, folder, s.name, target);
      if taken {
        return Some(Duplicate);
      }
      if target in folderDir.Values {
        return Some(IOError);
      }
      StorePut(s, folder, target);
      err := None;
    }

    method StorePut(s: Session, folder: Id, target: Path)
      requires Valid() && Passable(env, Idx(), s.id)
      requires PutSession(env, Idx(), s) == Ok(WithSession(Idx(), Stored(env, Idx(), s, folder), target))
      modifies this
      ensures Valid() && Idx() == WithSession(old(Idx()), Stored(env, old(Idx()), s, folder), target)
    {
      hide PutSession, FoldersOk, SessionsOk, Apart, Agrees, Stored;
      ghost var idx := Idx();
      PutSessionOk(env, idx, s);
      PutTargetFree(env, idx, s, folder, Stored(env, idx, s, folder), target);
      var out, before := Filled(s, folder);
      PutAgrees(idx, disk, out, target);
      disk := disk.(files := WriteSession(disk.files, out, target, before));
      sessions := sessions[out.id := out];
      sessionFile := sessionFile[out.id := target];
      tick := tick + 1;
    }

    /** The record to write, and the file the session had before. */
    method Filled(s: Session, folder: Id) returns (out: Session, before: Option<Path>)
      requires sessionFile.Keys == sessions.Keys && "" !in sessions
      requires s.id == "" ==> env.ulid(tick) !in sessions
      ensures out == Stored(env, Idx(), s, folder) && before == FileOf(sessionFile, out.id)
    {
      before := None;
      out := s.(folderId := folder);
      if s.id == "" {
        out := out.(id := env.ulid(tick), revision := 1);
      } else if s.id in sessions {
        out := out.(revision := sessions[s.id].revision + 1);
        before := Some(sessionFile[s.id]);
      } else if s.revision == 0 {
        out := out.(revision := 1);
      }
      out := out.(updatedAt := env.clock(tick));
      if s.proto == "" {
        out := out.(proto := "ssh");
      }
    }

    method Delete(id: Id) returns (err: Option<StoreError>)
      requires Valid()
      modifies this
      ensures Valid() && Outcome(DeleteId(old(Idx()), id), old(Idx()), Idx(), err)
      ensures err.Some? ==> disk == old(disk)
    {
      hide FoldersOk, SessionsOk, Apart, Agrees;
      KeysAgree(env, Idx());
      InjectivePaths(env, Idx());
      if id in sessions {
        DeleteOk(env, Idx(), id);
        WithoutAgrees(Idx(), disk, id);
        disk := disk.(files := disk.files - {sessionFile[id]});
        sessions := sessions - {id};
        sessionFile := sessionFile - {id};
        return None;
      }
      if id !in folders {
        return Some(NotFound);
      }
      if id == rootId {
        return Some(RootFolder);
      }
      if (exists k :: k in folders && folders[k].parentId == id) || (exists k :: k in sessions && sessions[k].folderId == id) {
        return Some(NotEmpty);
      }
      DeleteOk(env, Idx(), id);
      WithoutDirAgrees(Idx(), disk, id);
      disk := disk.(dirs := disk.dirs - {folderDir[id]});
      folders := folders - {id};
      folderDir := folderDir - {id};
      err := None;
    }

    method FolderTaken(id: Id, parent: Id, name: string, target: Path) returns (taken: bool)
      ensures taken == FolderClash(env, Idx(), id, parent, name, target)
    {
      var todo := folders.Keys;
      taken := false;
      while todo != {}
        invariant todo <= folders.Keys
        invariant forall k :: k in folders.Keys - todo ==>
                    !(k != id && folders[k].parentId == parent
                      && (env.EqualFold(folders[k].name, name) || (k in folderDir && folderDir[k] == target)))
        decreases todo
      {
        var k :| k in todo;
        if k != id && folders[k].parentId == parent {
          if env.EqualFold(folders[k].name, name) || (k in folderDir && folderDir[k] == target) {
            return true;
          }
        }
        todo := todo - {k};
      }
    }

    ghost predicate Loading(want: Index)
      reads `folders, `sessions, `folderDir, `sessionFile
    {
      && folderDir.Keys == folders.Keys && sessionFile.Keys == sessions.Keys
      && Part(folders, want.folders) && Part(folderDir, want.folderDir)
      && Part(sessions, want.sessions) && Part(sessionFile, want.sessionFile)
    }

    /** Rebuilds all in-memory state from the disk. */
    method Reload(ghost want: Index) returns (ok: bool)
      requires IndexOk(env, want) && Agrees(want, disk) && want.tick == tick
      modifies `rootId, `folders, `sessions, `folderDir, `sessionFile
      ensures ok && Idx() == want
    {
      hide IndexOk, Agrees, DirsBelow, FilesBelow, Loading;
      AllBelowRoot(env, want);
      ok := LoadRoot(want);
      if !ok {
        return;
      }
      ok := LoadDir([], rootId, want, Longest(disk.dirs.Keys));
      Loaded(want);
    }

    lemma Loaded(want: Index)
      requires Loading(want) && folders.Keys == want.folders.Keys == want.folderDir.Keys
      requires sessions.Keys == want.sessions.Keys == want.sessionFile.Keys
      ensures folders == want.folders && folderDir == want.folderDir
      ensures sessions == want.sessions && sessionFile == want.sessionFile
    {
      hide Part;
      PartAll(folders, want.folders);
      PartAll(folderDir, want.folderDir);
      PartAll(sessions, want.sessions);
      PartAll(sessionFile, want.sessionFile);
    }

    /** Forgets everything and loads the root's record. */
    method LoadRoot(ghost want: Index) returns (ok: bool)
      requires IndexOk(env, want) && Agrees(want, disk)
      modifies `rootId, `folders, `sessions, `folderDir, `sessionFile
      ensures ok && Loading(want) && rootId == want.rootId && folders.Keys == {want.rootId} && sessions == map[]
      ensures rootId in want.folderDir && want.folderDir[rootId] == [] && rootId !in DirsBelow(want, [])
    {
      hide IndexOk, Agrees, DirsBelow, Part, LoadedFolder;
      RootOnDisk(env, want, disk);
      folders, sessions, folderDir, sessionFile := map[], map[], map[], map[];
      var root;
      root, ok := LoadFolder([], "");
      rootId := root;
      OnePart(want.folders, root, LoadedFolder(disk.dirs[[]], ""));
      OnePart(want.folderDir, root, []);
      NoPart(want.sessions);
      NoPart(want.sessionFile);
    }

    /** Loads one directory's record under its parent; a second folder of the same id is an error. */
    method LoadFolder(dir: Path, parentId: Id) returns (id: Id, ok: bool)
      requires dir in disk.dirs
      modifies `folders, `folderDir
      ensures id == disk.dirs[dir].id && ok == (id !in old(folders))
      ensures ok ==> folders == old(folders)[id := LoadedFolder(disk.dirs[dir], parentId)]
                     && folderDir == old(folderDir)[id := dir]
      ensures !ok ==> folders == old(folders) && folderDir == old(folderDir)
    {
      var f := disk.dirs[dir];
      id := f.id;
      f := f.(parentId := parentId);
      if id in folders {
        return id, false;
      }
      folders := folders[id := f];
      folderDir := folderDir[id := dir];
      ok := true;
    }

    method LoadSession(path: Path, folderId: Id) returns (ok: bool)
      requires path in disk.files
      modifies `sessions, `sessionFile
      ensures var id := disk.files[path].id;
              && ok == (id !in old(sessions))
              && (ok ==> sessions == old(sessions)[id := LoadedSession(disk.files[path], folderId)]
                         && sessionFile == old(sessionFile)[id := path])
    {
      var s := disk.files[path];
      s := s.(folderId := folderId);
      if s.id in sessions {
        return false;
      }
      sessions := sessions[s.id := s];
      sessionFile := sessionFile[s.id := path];
      ok := true;
    }

    /** Loads everything below a directory. */
    method LoadDir(dir: Path, folderId: Id, ghost want: Index, ghost limit: nat) returns (ok: bool)
      requires IndexOk(env, want) && Agrees(want, disk) && Loading(want)
      requires folderId in want.folderDir && want.folderDir[folderId] == dir
      requires forall p :: p in disk.dirs ==> |p| <= limit
      requires folders.Keys !! DirsBelow(want, dir) && sessions.Keys !! FilesBelow(want, dir)
      modifies `folders, `sessions, `folderDir, `sessionFile
      ensures ok && Loading(want)
      ensures folders.Keys == old(folders.Keys) + DirsBelow(want, dir)
      ensures sessions.Keys == old(sessions.Keys) + FilesBelow(want, dir)
      decreases limit - |dir|, 0
    {
      hide IndexOk, Agrees, DirsBelow, FilesBelow, DirsAt, FilesAt, FilesIn, Part;
      var all := set p | p in disk.dirs && ChildPath(p, dir);
      var subs := all;
      BelowParts(env, want, disk, dir);
      NoneReached(want);
      assert all - subs == {};
      while subs != {}
        modifies `folders, `sessions, `folderDir, `sessionFile
        invariant subs <= all && Loading(want)
        invariant folders.Keys == old(folders.Keys) + DirsAt(want, all - subs)
        invariant sessions.Keys == old(sessions.Keys) + FilesAt(want, all - subs)
        decreases subs
      {
        var sub :| sub in subs;
        OneMore(want, all - subs, sub);
        Siblings(want, dir, all - subs, sub);
        BelowChild(want, dir, sub);
        assert (all - subs) + {sub} == all - (subs - {sub});
        ok := LoadChild(sub, folderId, want, limit);
        if !ok {
          return;
        }
        subs := subs - {sub};
      }
      assert all - subs == all;
      ok := LoadFiles(dir, folderId, want);
    }

    /** Loads a child directory and everything below it. */
    method LoadChild(sub: Path, folderId: Id, ghost want: Index, ghost limit: nat) returns (ok: bool)
      requires IndexOk(env, want) && Agrees(want, disk) && Loading(want)
      requires folderId in want.folderDir && sub in disk.dirs && ChildPath(sub, want.folderDir[folderId])
      requires forall p :: p in disk.dirs ==> |p| <= limit
      requires folders.Keys !! DirsAt(want, {sub}) && sessions.Keys !! FilesAt(want, {sub})
      modifies `folders, `sessions, `folderDir, `sessionFile
      ensures ok && Loading(want)
      ensures folders.Keys == old(folders.Keys) + DirsAt(want, {sub})
      ensures sessions.Keys == old(sessions.Keys) + FilesAt(want, {sub})
      decreases limit - |sub|, 1
    {
      hide IndexOk, Agrees, DirsBelow, FilesBelow, DirsAt, FilesAt, Part, LoadedFolder;
      RecordOf(env, want, disk, folderId, sub);
      DirsAtOne(env, want, disk.dirs[sub].id, sub);
      var id;
      id, ok := LoadFolder(sub, folderId);
      if !ok {
        return;
      }
      PartMore(old(folders), want.folders, id, folders[id]);
      PartMore(old(folderDir), want.folderDir, id, sub);
      ok := LoadDir(sub, id, want, limit);
    }

    /** Loads the session files directly in a directory. */
    method LoadFiles(dir: Path, folderId: Id, ghost want: Index) returns (ok: bool)
      requires IndexOk(env, want) && Agrees(want, disk) && Loading(want)
      requires folderId in want.folderDir && want.folderDir[folderId] == dir
      requires sessions.Keys !! FilesIn(want, dir)
      modifies `sessions, `sessionFile
      ensures ok && Loading(want)
      ensures sessions.Keys == old(sessions.Keys) + FilesIn(want, dir)
    {
      hide IndexOk, Agrees, FilesIn, FilesNamed, LoadedSession, Part;
      var all := set p | p in disk.files && ChildPath(p, dir);
      var names := all;
      ok := true;
      FilesOnDisk(want, disk, dir);
      assert all - names == {};
      while names != {}
        modifies `sessions, `sessionFile
        invariant ok && names <= all && Loading(want)
        invariant sessions.Keys == old(sessions.Keys) + FilesNamed(want, all - names)
        decreases names
      {
        var p :| p in names;
        ghost var id := disk.files[p].id;
        FileLoads(env, want, disk, folderId, p);
        FilesOneMore(want, all - names, p, id);
        assert (all - names) + {p} == all - (names - {p});
        NamedIn(want, disk, dir, p, id);
        PartMore(sessions, want.sessions, id, want.sessions[id]);
        PartMore(sessionFile, want.sessionFile, id, p);
        ok := LoadSession(p, folderId);
        if !ok {
          return;
        }
        names := names - {p};
      }
      assert all - names == all;
    }

    /** Creates, updates or moves a folder on disk, then reloads everything. */
    method PutFolder(f: Folder) returns (err: Option<StoreError>)
      requires Valid()
      modifies this
      ensures Valid() && old(Idx()).rootId in old(Idx()).folders
      ensures Outcome(StoreMove.PutFolder(env, old(Idx()), f), old(Idx()), Idx(), err)
      ensures err.Some? ==> disk == old(disk)
    {
      hide FoldersOk, SessionsOk, Apart, Agrees, FolderClash, Sanitized, TrimSpace, MovedFolder;
      RootAlone(env, Idx());
      if f.id != "" && f.id == rootId {
        ghost var want := StoreMove.PutFolder(env, Idx(), f).value;
        var was := folders[f.id];
        var out := f.(parentId := "", name := was.name, revision := was.revision + 1, updatedAt := env.clock(tick));
        RootUpdate(env, Idx(), disk, f);
        disk := disk.(dirs := disk.dirs[[] := out]);
        tick := tick + 1;
        var ok := Reload(want);
        return None;
      }
      if TrimSpace(f.name) == "" {
        return Some(NameRequired);
      }
      var parent := if f.parentId == "" then rootId else f.parentId;
      if parent !in folderDir {
        return Some(NotFound);
      }
      var dirName := Sanitized(f.name);
      if dirName == "" {
        return Some(BadName);
      }
      var target := folderDir[parent] + [dirName];
      var taken := FolderTaken(f.id, parent, f.name, target);
      if taken {
        return Some(Duplicate);
      }
      if f.id == "" {
        err := CreateFolder(f, parent, dirName, target);
      } else {
        err := ChangeFolder(f, parent, dirName, target);
      }
    }

    method CreateFolder(f: Folder, parent: Id, dirName: string, target: Path) returns (err: Option<StoreError>)
      requires Valid() && f.id == "" && TrimSpace(f.name) != "" && dirName == Sanitized(f.name) != ""
      requires parent == (if f.parentId == "" then rootId else f.parentId) && parent in folderDir
      requires target == folderDir[parent] + [dirName] && !FolderClash(env, Idx(), "", parent, f.name, target)
      modifies this
      ensures Valid() && Outcome(AddFolder(env, old(Idx()), f), old(Idx()), Idx(), err)
      ensures err.Some? ==> disk == old(disk)
    {
      hide FoldersOk, SessionsOk, Apart, Agrees, FolderClash, Sanitized, TrimSpace;
      if target in sessionFile.Values || dirName == FOLDER_FILE {
        return Some(IOError);
      }
      ghost var want := AddFolder(env, Idx(), f).value;
      var out := f.(id := env.ulid(tick), parentId := parent, revision := 1, updatedAt := env.clock(tick));
      AddFolderOk(env, Idx(), f);
      NewDir(env, Idx(), f, parent, target);
      AddAgrees(Idx(), disk, out, target);
      disk := disk.(dirs := disk.dirs[target := out]);
      tick := tick + 1;
      var ok := Reload(want);
      err := None;
    }

    method ChangeFolder(f: Folder, parent: Id, dirName: string, target: Path) returns (err: Option<StoreError>)
      requires Valid() && f.id != "" && f.id != rootId && TrimSpace(f.name) != "" && dirName == Sanitized(f.name) != ""
      requires parent == (if f.parentId == "" then rootId else f.parentId) && parent in folderDir && rootId in folders
      requires target == folderDir[parent] + [dirName] && !FolderClash(env, Idx(), f.id, parent, f.name, target)
      modifies this
      ensures Valid() && Outcome(StoreMove.PutFolder(env, old(Idx()), f), old(Idx()), Idx(), err)
      ensures err.Some? ==> disk == old(disk)
    {
      hide FoldersOk, SessionsOk, Apart, Agrees, FolderClash, MovedFolder, Renamed, RelocatedAll, Sanitized, TrimSpace, AddFolder;
      KeysAgree(env, Idx());
      if f.id !in folders {
        return Some(NotFound);
      }
      var src := folderDir[f.id];
      if src != target {
        if src <= target {
          return Some(IntoSubtree);
        }
        if target in sessionFile.Values || dirName == FOLDER_FILE {
          return Some(IOError);
        }
      }
      var out := f.(parentId := parent, revision := folders[f.id].revision + 1, updatedAt := env.clock(tick));
      ghost var want := MovedFolder(Idx(), out, src, target);
      MovedTick(Idx(), out, src, target);
      UpdateOk(env, Idx(), f, out, target);
      UpdateAgrees(env, Idx(), disk, f, out, target);
      if src != target {
        disk := Disk(Renamed(disk.dirs, src, target), Renamed(disk.files, src, target));
      }
      disk := disk.(dirs := disk.dirs[target := out]);
      tick := tick + 1;
      var ok := Reload(want);
      err := None;
    }

    /** Whether id sits below ancestorId: the walk up the parents finds it, and ends. */
    method IsDescendant(id: Id, ancestorId: Id) returns (below: bool)
      requires IndexOk(env, Idx()) && ancestorId in folders
      ensures below == Above(Idx(), ancestorId, id)
    {
      hide SessionsOk, Apart, FoldersOk, Above;
      if id !in folders {
        NotAbove(env, Idx(), ancestorId, id);
        return false;
      }
      AboveStep(env, Idx(), id);
      var pid := folders[id].parentId;
      while pid != ""
        invariant pid != "" ==> pid in folders && pid in folderDir
        invariant Above(Idx(), ancestorId, id) <==> pid != "" && (ancestorId == pid || Above(Idx(), ancestorId, pid))
        decreases if pid != "" && pid in folderDir then |folderDir[pid]| + 1 else 0
      {
        if pid == ancestorId {
          return true;
        }
        AboveStep(env, Idx(), pid);
        pid := folders[pid].parentId;
      }
      below := false;
    }

    /** Whether a folder above id carries a source. */
    method SourceAbove(id: Id) returns (found: bool)
      requires IndexOk(env, Idx()) && id in folders
      ensures found == exists k :: Sourced(Idx(), k) && Above(Idx(), k, id)
    {
      hide SessionsOk, Apart, FoldersOk, Above;
      KeysAgree(env, Idx());
      AboveStep(env, Idx(), id);
      var pid := folders[id].parentId;
      while pid != ""
        invariant pid != "" ==> pid in folders && pid in folderDir
        invariant forall k :: Sourced(Idx(), k) && Above(Idx(), k, id) ==> pid != "" && (k == pid || Above(Idx(), k, pid))
        invariant pid != "" ==> Above(Idx(), pid, id) && forall k :: Above(Idx(), k, pid) ==> Above(Idx(), k, id)
        decreases if pid != "" && pid in folderDir then |folderDir[pid]| + 1 else 0
      {
        var p := folders[pid];
        if p.source.Some? {
          assert Sourced(Idx(), pid);
          return true;
        }
        AboveStep(env, Idx(), pid);
        pid := p.parentId;
      }
      found := false;
    }

    /** Whether a folder below id carries a source. */
    method SourceUnder(id: Id) returns (found: bool)
      requires IndexOk(env, Idx()) && id in folders
      ensures found == exists k :: k != id && Sourced(Idx(), k) && Above(Idx(), id, k)
    {
      hide IndexOk, Above;
      var todo := folders.Keys;
      while todo != {}
        invariant todo <= folders.Keys
        invariant forall k :: k in folders.Keys - todo ==> !(k != id && Sourced(Idx(), k) && Above(Idx(), id, k))
        decreases todo
      {
        var k :| k in todo;
        if k != id && folders[k].source.Some? {
          var below := IsDescendant(k, id);
          if below {
            assert Sourced(Idx(), k) by { Known(env, Idx(), k); }
            return true;
          }
        }
        todo := todo - {k};
      }
      found := false;
    }

    /** Attaches an import source, unless one exists above or below. */
    method SetFolderSource(id: Id, src: Source) returns (err: Option<StoreError>)
      requires Valid()
      modifies this
      ensures Valid() && Outcome(SetSource(env, old(Idx()), id, src), old(Idx()), Idx(), err)
      ensures err.Some? ==> disk == old(disk)
    {
      hide IndexOk, Agrees, Above, Sourced, WithSource;
      if id == rootId {
        return Some(RootFolder);
      }
      if id !in folders {
        return Some(NotFound);
      }
      var above := SourceAbove(id);
      NotAboveSelf(Idx(), id);
      if above {
        return Some(SourceConflict);
      }
      var under := SourceUnder(id);
      if under {
        return Some(SourceConflict);
      }
      Rewrite(id, Some(src.(updatedAt := env.clock(tick))));
      err := None;
    }

    /** Removes a folder's import source, if it has one. */
    method ClearFolderSource(id: Id) returns (err: Option<StoreError>)
      requires Valid()
      modifies this
      ensures Valid() && Outcome(ClearSource(env, old(Idx()), id), old(Idx()), Idx(), err)
    {
      hide IndexOk, Agrees, WithSource;
      if id !in folders {
        return Some(NotFound);
      }
      if folders[id].source.None? {
        return None;
      }
      Rewrite(id, None);
      err := None;
    }

    /** Rewrites a folder's record with another source and reloads. */
    method Rewrite(id: Id, src: Option<Source>)
      requires Valid() && id in folders
      modifies this
      ensures Valid() && Idx() == WithSource(env, old(Idx()), id, src)
    {
      hide FoldersOk, SessionsOk, Apart, Agrees;
      ghost var want := WithSource(env, Idx(), id, src);
      WithSourceOk(env, Idx(), id, src);
      KeysAgree(env, Idx());
      InjectivePaths(env, Idx());
      OthersNamedApart(env, Idx(), id);
      var f := folders[id];
      var out := f.(source := src, revision := f.revision + 1, updatedAt := env.clock(tick));
      InPlaceAgrees(Idx(), disk, out);
      disk := disk.(dirs := disk.dirs[folderDir[id] := out]);
      tick := tick + 1;
      var ok := Reload(want);
    }

    /** Loading everything again changes nothing. */
    method LoadAll() returns (ok: bool)
      requires Valid()
      modifies this
      ensures ok && Valid() && Idx() == old(Idx()) && disk == old(disk)
    {
      ok := Reload(Idx());
    }
  }
}
