/** The store's in-memory index as a value: the four maps, the operations on them, their invariant. */
module StoreIndex {
  import opened Wrappers
  import opened StoreNames

  type Id = string
  type Path = seq<string>  // directory components below the store root

  datatype StoreError = NameRequired | NotFound | BadName | Duplicate | IntoSubtree | IOError | RootFolder | NotEmpty
                      | BadPath | SourceConflict

  datatype Source = Source(config: string, updatedAt: int)

  datatype Folder = Folder(id: Id, name: string, parentId: Id, options: string, revision: nat, updatedAt: int,
                           source: Option<Source>, sourceOwner: Id)

  datatype Session = Session(id: Id, name: string, folderId: Id, host: string, port: int, user: string, proto: string,
                             tags: seq<string>, options: string, source: Id, externalId: string,
                             revision: nat, updatedAt: int)

  /** Case folding, the ULID supply and the clock: the n-th id minted, the n-th time read. */
  datatype Env = Env(fold: string -> string, ulid: nat -> Id, clock: nat -> int) {
    ghost predicate Valid() {
      && (forall n :: ulid(n) != "")
      && (forall m, n :: ulid(m) == ulid(n) ==> m == n)
    }

    predicate EqualFold(a: string, b: string) { fold(a) == fold(b) }
  }

  /** `tick` counts the ids and times used so far. */
  datatype Index = Index(rootId: Id, folders: map<Id, Folder>, sessions: map<Id, Session>,
                         folderDir: map<Id, Path>, sessionFile: map<Id, Path>, tick: nat)

  // ------------------------------------------------------------------ invariant

  predicate ChildPath(p: Path, dir: Path) {
    p != [] && p[..|p| - 1] == dir
  }

  /** The folder's directory is its parent's directory plus one loadable name. */
  ghost predicate FolderOk(idx: Index, id: Id)
    requires id in idx.folders
  {
    var f := idx.folders[id];
    && f.id == id != "" && id in idx.folderDir
    && if id == idx.rootId then f.parentId == "" && idx.folderDir[id] == []
       else && f.parentId in idx.folders && f.parentId in idx.folderDir
            && ChildPath(idx.folderDir[id], idx.folderDir[f.parentId])
            && IsFolderDir(idx.folderDir[id][|idx.folderDir[id]| - 1])
  }

  ghost predicate SessionOk(idx: Index, id: Id)
    requires id in idx.sessions
  {
    var s := idx.sessions[id];
    && s.id == id != "" && s.name != "" && id in idx.sessionFile
    && s.folderId in idx.folders && s.folderId in idx.folderDir
    && ChildPath(idx.sessionFile[id], idx.folderDir[s.folderId])
    && IsSessionFile(idx.sessionFile[id][|idx.sessionFile[id]| - 1])
  }

  ghost predicate Injective(m: map<Id, Path>) {
    forall a, b :: a in m && b in m && m[a] == m[b] ==> a == b
  }

  ghost predicate FoldersOk(env: Env, idx: Index) {
    && idx.rootId in idx.folders && idx.folderDir.Keys == idx.folders.Keys
    && (forall id {:trigger FolderOk(idx, id)} :: id in idx.folders ==> FolderOk(idx, id))
    && Injective(idx.folderDir)
    && FolderNamesUnique(env, idx.folders)
  }

  predicate SameFolderName(env: Env, f: Folder, g: Folder) {
    f.parentId == g.parentId && env.EqualFold(f.name, g.name)
  }

  predicate SameSessionName(env: Env, s: Session, t: Session) {
    s.folderId == t.folderId && env.EqualFold(s.name, t.name)
  }

  /** Names are unique per folder, ignoring case. */
  ghost predicate FolderNamesUnique(env: Env, folders: map<Id, Folder>) {
    forall a, b {:trigger SameFolderName(env, folders[a], folders[b])} ::
      a in folders && b in folders && SameFolderName(env, folders[a], folders[b]) ==> a == b
  }

  ghost predicate SessionNamesUnique(env: Env, sessions: map<Id, Session>) {
    forall a, b {:trigger SameSessionName(env, sessions[a], sessions[b])} ::
      a in sessions && b in sessions && SameSessionName(env, sessions[a], sessions[b]) ==> a == b
  }

  ghost predicate SessionsOk(env: Env, idx: Index) {
    && idx.sessionFile.Keys == idx.sessions.Keys
    && (forall id {:trigger SessionOk(idx, id)} :: id in idx.sessions ==> SessionOk(idx, id))
    && Injective(idx.sessionFile)
    && SessionNamesUnique(env, idx.sessions)
  }

  /** No file is in the way of a directory, no id names both a folder and a session, minted ids are new. */
  ghost predicate Apart(env: Env, idx: Index) {
    && (forall f, s :: f in idx.folderDir && s in idx.sessionFile ==> idx.folderDir[f] != idx.sessionFile[s])
    && (forall id :: id in idx.folders ==> id !in idx.sessions)
    && (forall n :: n >= idx.tick ==> env.ulid(n) !in idx.folders && env.ulid(n) !in idx.sessions)
  }

  ghost predicate IndexOk(env: Env, idx: Index) {
    env.Valid() && FoldersOk(env, idx) && SessionsOk(env, idx) && Apart(env, idx)
  }

  // ------------------------------------------------------------------- sessions

  /** Another session of the folder has the same name, or the file of this name. */
  predicate SessionClash(env: Env, idx: Index, id: Id, folder: Id, name: string, target: Path) {
    exists k :: k in idx.sessions && k != id && idx.sessions[k].folderId == folder
      && (env.EqualFold(idx.sessions[k].name, name) || (k in idx.sessionFile && idx.sessionFile[k] == target))
  }

  /** The record stored: id minted if empty, revision bumped, clock read, protocol defaulted. */
  function Stored(env: Env, idx: Index, s: Session, folder: Id): Session {
    s.(id := if s.id == "" then env.ulid(idx.tick) else s.id,
       folderId := folder,
       revision := if s.id == "" then 1 else if s.id in idx.sessions then idx.sessions[s.id].revision + 1
                   else if s.revision == 0 then 1 else s.revision,
       updatedAt := env.clock(idx.tick),
       proto := if s.proto == "" then "ssh" else s.proto)
  }

  function WithSession(idx: Index, out: Session, target: Path): Index {
    idx.(sessions := idx.sessions[out.id := out], sessionFile := idx.sessionFile[out.id := target], tick := idx.tick + 1)
  }

  function PutSession(env: Env, idx: Index, s: Session): Result<Index, StoreError> {
    var folder := if s.folderId == "" then idx.rootId else s.folderId;
    if TrimSpace(s.name) == "" then Err(NameRequired)
    else if folder !in idx.folderDir then Err(NotFound)
    else if SessionFileName(s.name).None? then Err(BadName)
    else
      var target := idx.folderDir[folder] + [SessionFileName(s.name).value];
      if SessionClash(env, idx, s.id, folder, s.name, target) then Err(Duplicate)
      else if target in idx.folderDir.Values then Err(IOError)
      else
        var out := Stored(env, idx, s, folder);
        Ok(WithSession(idx, out, target))
  }

  /** An id a caller may pass to Put: none, a stored session's, or one that is nobody's and never minted. */
  ghost predicate Passable(env: Env, idx: Index, id: Id) {
    id == "" || id in idx.sessions || (id !in idx.folders && forall n :: n >= idx.tick ==> env.ulid(n) != id)
  }

  /** A file name without a clash in its folder is nobody else's file. */
  lemma FileFree(env: Env, idx: Index, id: Id, folder: Id, name: string, fn: string)
    requires FoldersOk(env, idx) && SessionsOk(env, idx) && folder in idx.folderDir
    requires !SessionClash(env, idx, id, folder, name, idx.folderDir[folder] + [fn])
    ensures forall k :: k in idx.sessionFile && k != id ==> idx.sessionFile[k] != idx.folderDir[folder] + [fn]
    ensures forall k :: k in idx.sessions && k != id && idx.sessions[k].folderId == folder ==>
              !env.EqualFold(idx.sessions[k].name, name)
  {
    hide FolderOk;
    var target := idx.folderDir[folder] + [fn];
    assert target[..|target| - 1] == idx.folderDir[folder];
    forall k | k in idx.sessionFile && k != id ensures idx.sessionFile[k] != target {
      assert SessionOk(idx, k);
      var home := idx.sessions[k].folderId;
      if home != folder {
        assert idx.folderDir[home] != idx.folderDir[folder];
      }
    }
  }

  lemma InjectiveUpdate(m: map<Id, Path>, id: Id, p: Path)
    requires Injective(m) && forall k :: k in m && k != id ==> m[k] != p
    ensures Injective(m[id := p])
  {
  }

  lemma SessionNameUpdate(env: Env, sessions: map<Id, Session>, out: Session)
    requires SessionNamesUnique(env, sessions)
    requires forall k :: k in sessions && k != out.id && sessions[k].folderId == out.folderId ==>
               !env.EqualFold(sessions[k].name, out.name)
    ensures SessionNamesUnique(env, sessions[out.id := out])
  {
    var r := sessions[out.id := out];
    forall a, b | a in r && b in r && SameSessionName(env, r[a], r[b]) ensures a == b {
      assert a != out.id && b != out.id ==> SameSessionName(env, sessions[a], sessions[b]);
    }
  }

  lemma FolderNameUpdate(env: Env, folders: map<Id, Folder>, out: Folder)
    requires FolderNamesUnique(env, folders)
    requires forall k :: k in folders && k != out.id && folders[k].parentId == out.parentId ==>
               !env.EqualFold(folders[k].name, out.name)
    ensures FolderNamesUnique(env, folders[out.id := out])
  {
    var r := folders[out.id := out];
    forall a, b | a in r && b in r && SameFolderName(env, r[a], r[b]) ensures a == b {
      assert a != out.id && b != out.id ==> SameFolderName(env, folders[a], folders[b]);
    }
  }

  /** Adding or replacing one session record keeps the sessions consistent. */
  lemma StoreSessionOk(env: Env, idx: Index, out: Session, target: Path)
    requires SessionsOk(env, idx) && out.id != "" && out.name != "" && target != []
    requires out.folderId in idx.folders && out.folderId in idx.folderDir
    requires ChildPath(target, idx.folderDir[out.folderId]) && IsSessionFile(target[|target| - 1])
    requires forall k :: k in idx.sessionFile && k != out.id ==> idx.sessionFile[k] != target
    requires forall k :: k in idx.sessions && k != out.id && idx.sessions[k].folderId == out.folderId ==>
               !env.EqualFold(idx.sessions[k].name, out.name)
    ensures SessionsOk(env, WithSession(idx, out, target))
  {
    hide Injective, SessionNamesUnique, IsSessionFile;
    var r := WithSession(idx, out, target);
    InjectiveUpdate(idx.sessionFile, out.id, target);
    SessionNameUpdate(env, idx.sessions, out);
    forall k | k in r.sessions ensures SessionOk(r, k) {
      assert k != out.id ==> SessionOk(idx, k);
    }
  }

  lemma FoldersFrame(env: Env, idx: Index, r: Index)
    requires FoldersOk(env, idx) && r.rootId == idx.rootId && r.folders == idx.folders && r.folderDir == idx.folderDir
    ensures FoldersOk(env, r)
  {
    forall k | k in r.folders ensures FolderOk(r, k) {
      assert FolderOk(idx, k);
    }
  }

  /** What a successful Put stores, and where. */
  ghost predicate PutAt(env: Env, idx: Index, s: Session, folder: Id, fn: string) {
    && folder == (if s.folderId == "" then idx.rootId else s.folderId)
    && TrimSpace(s.name) != "" && folder in idx.folderDir && SessionFileName(s.name) == Some(fn)
    && !SessionClash(env, idx, s.id, folder, s.name, idx.folderDir[folder] + [fn])
    && idx.folderDir[folder] + [fn] !in idx.folderDir.Values
  }

  lemma PutSessionIs(env: Env, idx: Index, s: Session) returns (folder: Id, fn: string)
    requires PutSession(env, idx, s).Ok?
    ensures PutAt(env, idx, s, folder, fn)
    ensures PutSession(env, idx, s).value == WithSession(idx, Stored(env, idx, s, folder), idx.folderDir[folder] + [fn])
  {
    folder := if s.folderId == "" then idx.rootId else s.folderId;
    fn := SessionFileName(s.name).value;
  }

  lemma PutSessionOk(env: Env, idx: Index, s: Session)
    requires IndexOk(env, idx) && Passable(env, idx, s.id) && PutSession(env, idx, s).Ok?
    ensures IndexOk(env, PutSession(env, idx, s).value)
  {
    hide FoldersOk, SessionsOk, Apart, PutSession, SessionFileName, TrimSpace, SessionClash, IsSessionFile;
    var folder, fn := PutSessionIs(env, idx, s);
    var out, target := Stored(env, idx, s, folder), idx.folderDir[folder] + [fn];
    FileNameLoads(s.name);
    FileFree(env, idx, s.id, folder, s.name, fn);
    KeysAgree(env, idx);
    NamedOk(s.name);
    PutIdOk(env, idx, s);
    NoEmptySession(env, idx);
    assert target[..|target| - 1] == idx.folderDir[folder] && target[|target| - 1] == fn;
    StoreSessionOk(env, idx, out, target);
    FoldersFrame(env, idx, WithSession(idx, out, target));
    PutApart(env, idx, out, target);
  }

  lemma NamedOk(name: string)
    requires TrimSpace(name) != ""
    ensures name != ""
  {
  }

  /** The id stored under is new exactly when none was passed, and stays clear of everything else. */
  lemma PutIdOk(env: Env, idx: Index, s: Session)
    requires IndexOk(env, idx) && Passable(env, idx, s.id)
    ensures var id := Stored(env, idx, s, s.folderId).id;
            && id != "" && id !in idx.folders && (id != s.id ==> id !in idx.sessions && s.id == "")
            && (forall n :: n > idx.tick ==> env.ulid(n) != id)
  {
    hide FoldersOk, SessionsOk;
  }

  lemma PutApart(env: Env, idx: Index, out: Session, target: Path)
    requires Apart(env, idx) && target !in idx.folderDir.Values
    requires out.id !in idx.folders && forall n :: n > idx.tick ==> env.ulid(n) != out.id
    ensures Apart(env, WithSession(idx, out, target))
  {
    forall f | f in idx.folderDir ensures idx.folderDir[f] != target {
      assert idx.folderDir[f] in idx.folderDir.Values;
    }
  }

  lemma KeysAgree(env: Env, idx: Index)
    requires FoldersOk(env, idx) && SessionsOk(env, idx)
    ensures idx.folderDir.Keys == idx.folders.Keys && idx.sessionFile.Keys == idx.sessions.Keys
  {
  }

  // -------------------------------------------------------------------- folders

  predicate FolderClash(env: Env, idx: Index, id: Id, parent: Id, name: string, target: Path) {
    exists k :: k in idx.folders && k != id && idx.folders[k].parentId == parent
      && (env.EqualFold(idx.folders[k].name, name) || (k in idx.folderDir && idx.folderDir[k] == target))
  }

  /** A new folder: the empty-id branch of PutFolder. */
  function WithFolder(idx: Index, out: Folder, target: Path): Index {
    idx.(folders := idx.folders[out.id := out], folderDir := idx.folderDir[out.id := target], tick := idx.tick + 1)
  }

  function AddFolder(env: Env, idx: Index, f: Folder): Result<Index, StoreError> {
    var parent := if f.parentId == "" then idx.rootId else f.parentId;
    if TrimSpace(f.name) == "" then Err(NameRequired)
    else if parent !in idx.folderDir then Err(NotFound)
    else if Sanitized(f.name) == "" then Err(BadName)
    else
      var target := idx.folderDir[parent] + [Sanitized(f.name)];
      if FolderClash(env, idx, "", parent, f.name, target) then Err(Duplicate)
      else if target in idx.sessionFile.Values || Sanitized(f.name) == FOLDER_FILE then Err(IOError)
      else
        Ok(WithFolder(idx, f.(id := env.ulid(idx.tick), parentId := parent, revision := 1, updatedAt := env.clock(idx.tick)),
                      target))
  }

  /** A directory name without a clash under its parent is nobody else's directory. */
  lemma DirFree(env: Env, idx: Index, id: Id, parent: Id, name: string, d: string)
    requires FoldersOk(env, idx) && parent in idx.folderDir
    requires !FolderClash(env, idx, id, parent, name, idx.folderDir[parent] + [d])
    ensures forall k :: k in idx.folderDir && k != id ==> idx.folderDir[k] != idx.folderDir[parent] + [d]
    ensures forall k :: k in idx.folders && k != id && idx.folders[k].parentId == parent ==>
              !env.EqualFold(idx.folders[k].name, name)
  {
    var target := idx.folderDir[parent] + [d];
    assert target[..|target| - 1] == idx.folderDir[parent];
    forall k | k in idx.folderDir && k != id ensures idx.folderDir[k] != target {
      assert FolderOk(idx, k);
      if k != idx.rootId && idx.folders[k].parentId != parent {
        assert idx.folderDir[idx.folders[k].parentId] != idx.folderDir[parent];
      }
    }
  }

  /** Adding one folder record keeps the folders consistent. */
  lemma StoreFolderOk(env: Env, idx: Index, out: Folder, target: Path)
    requires FoldersOk(env, idx) && out.id != "" && out.id !in idx.folders && target != []
    requires out.parentId in idx.folders && ChildPath(target, idx.folderDir[out.parentId]) && IsFolderDir(target[|target| - 1])
    requires forall k :: k in idx.folderDir ==> idx.folderDir[k] != target
    requires forall k :: k in idx.folders && idx.folders[k].parentId == out.parentId ==>
               !env.EqualFold(idx.folders[k].name, out.name)
    ensures FoldersOk(env, WithFolder(idx, out, target))
  {
    hide Injective, FolderNamesUnique, IsFolderDir;
    var r := WithFolder(idx, out, target);
    InjectiveUpdate(idx.folderDir, out.id, target);
    FolderNameUpdate(env, idx.folders, out);
    forall k | k in r.folders ensures FolderOk(r, k) {
      assert k != out.id ==> FolderOk(idx, k);
    }
  }

  /** Sessions stay consistent while folders only grow. */
  lemma SessionsFrame(env: Env, idx: Index, r: Index)
    requires SessionsOk(env, idx) && r.sessions == idx.sessions && r.sessionFile == idx.sessionFile
    requires forall k :: k in idx.folders ==> k in r.folders
    requires forall k :: k in idx.folderDir ==> k in r.folderDir && r.folderDir[k] == idx.folderDir[k]
    ensures SessionsOk(env, r)
  {
    forall k | k in r.sessions ensures SessionOk(r, k) {
      assert SessionOk(idx, k);
    }
  }

  lemma AddFolderIs(env: Env, idx: Index, f: Folder) returns (out: Folder, d: string)
    requires AddFolder(env, idx, f).Ok?
    ensures out == f.(id := env.ulid(idx.tick), parentId := if f.parentId == "" then idx.rootId else f.parentId,
                      revision := 1, updatedAt := env.clock(idx.tick))
    ensures out.parentId in idx.folderDir && d == Sanitized(f.name) != "" && d != FOLDER_FILE
    ensures !FolderClash(env, idx, "", out.parentId, f.name, idx.folderDir[out.parentId] + [d])
    ensures idx.folderDir[out.parentId] + [d] !in idx.sessionFile.Values
    ensures AddFolder(env, idx, f).value == WithFolder(idx, out, idx.folderDir[out.parentId] + [d])
  {
    d := Sanitized(f.name);
    out := f.(id := env.ulid(idx.tick), parentId := if f.parentId == "" then idx.rootId else f.parentId,
              revision := 1, updatedAt := env.clock(idx.tick));
  }

  lemma AddFolderOk(env: Env, idx: Index, f: Folder)
    requires IndexOk(env, idx) && AddFolder(env, idx, f).Ok?
    ensures IndexOk(env, AddFolder(env, idx, f).value)
  {
    hide FoldersOk, SessionsOk, AddFolder, Sanitized, FolderClash, IsFolderDir;
    var out, d := AddFolderIs(env, idx, f);
    var target := idx.folderDir[out.parentId] + [d];
    KeysAgree(env, idx);
    FileNameLoads(f.name);
    NoEmptyId(env, idx);
    DirFree(env, idx, "", out.parentId, f.name, d);
    assert target[..|target| - 1] == idx.folderDir[out.parentId] && target[|target| - 1] == d;
    StoreFolderOk(env, idx, out, target);
    SessionsFrame(env, idx, WithFolder(idx, out, target));
    AddApart(env, idx, out, target);
  }

  lemma AddApart(env: Env, idx: Index, out: Folder, target: Path)
    requires env.Valid() && Apart(env, idx) && target !in idx.sessionFile.Values && out.id == env.ulid(idx.tick)
    ensures Apart(env, WithFolder(idx, out, target))
  {
    forall s | s in idx.sessionFile ensures idx.sessionFile[s] != target {
      assert idx.sessionFile[s] in idx.sessionFile.Values;
    }
  }

  lemma NoEmptySession(env: Env, idx: Index)
    requires SessionsOk(env, idx)
    ensures "" !in idx.sessions
  {
    assert "" in idx.sessions ==> SessionOk(idx, "");
  }

  lemma NoEmptyId(env: Env, idx: Index)
    requires FoldersOk(env, idx)
    ensures "" !in idx.folders
  {
    assert "" in idx.folders ==> FolderOk(idx, "");
  }
}
