/** What each operation of the store changes, field by field, what it leaves alone, and what it refuses. */
module StoreExact {
  import opened Wrappers
  import opened StoreNames
  import opened StoreIndex
  import opened StoreMove
  import opened StoreSources

  /** Nothing but white space. */
  predicate Blank(s: string) {
    forall i :: 0 <= i < |s| ==> IsSpace(s[i])
  }

  lemma BlankIff(s: string)
    ensures TrimSpace(s) == "" <==> Blank(s)
  {
    hide IsSpace, TrimLeft, TrimRight;
    var l := TrimLeft(s, IsSpace);
    var r := TrimRight(l, IsSpace);
    if r == "" {
      forall i | 0 <= i < |s| ensures IsSpace(s[i]) {
        assert i >= |s| - |l| ==> s[i] == l[i - (|s| - |l|)];
      }
    } else {
      assert l[0] == s[|s| - |l|];
    }
  }

  /** No letter, digit or other safe character but separators: nothing would be left for a file name. */
  predicate Unusable(name: string) {
    forall i :: 0 <= i < |name| ==> IsSeparator(name[i]) || !IsSafe(name[i])
  }

  lemma UnusableIff(name: string)
    ensures Sanitized(name) == "" <==> Unusable(name)
    ensures SessionFileName(name).None? <==> Unusable(name)
  {
    hide IsSafe, IsSeparator, Sanitized;
    var skip := SanitizedChars(name);
    if Sanitized(name) != "" {
      SanitizedIsClean(name);
      SafeButNot(name, skip);
    }
  }

  lemma SafeButNot(name: string, skip: nat)
    requires skip < |name| && Sanitized(name) != "" && CleanName(Sanitized(name))
    requires Sanitized(name)[0] == if IsSafe(name[skip]) then name[skip] else if name[skip] == ' ' then '_' else '-'
    ensures !Unusable(name)
  {
    hide Sanitized;
    assert !IsSeparator(Sanitized(name)[0]);
    assert IsSafe(name[skip]) && !IsSeparator(name[skip]);
  }

  // ------------------------------------------------------------------- sessions

  function Home(idx: Index, s: Session): Id {
    if s.folderId == "" then idx.rootId else s.folderId
  }

  /** Apart from session id, everything is as it was. */
  ghost predicate OnlySession(idx: Index, r: Index, id: Id) {
    && r.rootId == idx.rootId && r.folders == idx.folders && r.folderDir == idx.folderDir
    && (forall k :: k != id ==> (k in r.sessions <==> k in idx.sessions) && (k in r.sessionFile <==> k in idx.sessionFile))
    && (forall k :: k != id && k in idx.sessions ==> r.sessions[k] == idx.sessions[k])
    && (forall k :: k != id && k in idx.sessionFile ==> r.sessionFile[k] == idx.sessionFile[k])
  }

  /** A stored session has every field it was given; the protocol defaults to ssh, and the revision goes up. */
  ghost predicate StoredAs(env: Env, idx: Index, s: Session, out: Session) {
    && out.name == s.name && out.host == s.host && out.port == s.port && out.user == s.user && out.tags == s.tags
    && out.options == s.options && out.source == s.source && out.externalId == s.externalId
    && out.folderId == Home(idx, s)
    && (s.proto != "" ==> out.proto == s.proto) && (s.proto == "" ==> out.proto == "ssh")
    && out.updatedAt == env.clock(idx.tick)
    && (out.id in idx.sessions ==> out.revision == idx.sessions[out.id].revision + 1)
    && (out.id !in idx.sessions && (s.id == "" || s.revision == 0) ==> out.revision == 1)
    && (out.id !in idx.sessions && s.id != "" && s.revision != 0 ==> out.revision == s.revision)
  }

  /** A put stores one session, under its id or a new one, in the file of its name in its folder, and nothing else. */
  lemma PutExact(env: Env, idx: Index, s: Session) returns (id: Id)
    requires IndexOk(env, idx) && Passable(env, idx, s.id) && PutSession(env, idx, s).Ok?
    ensures var r := PutSession(env, idx, s).value;
            && (if s.id == "" then id !in idx.sessions && id !in idx.folders && id != "" else id == s.id)
            && OnlySession(idx, r, id) && r.tick == idx.tick + 1
            && id in r.sessions && r.sessions[id].id == id && StoredAs(env, idx, s, r.sessions[id])
            && SessionFileName(s.name).Some? && Home(idx, s) in idx.folderDir
            && id in r.sessionFile && r.sessionFile[id] == idx.folderDir[Home(idx, s)] + [SessionFileName(s.name).value]
  {
    hide IndexOk, SessionClash, SessionFileName, TrimSpace;
    id := Stored(env, idx, s, Home(idx, s)).id;
    PutIdOk(env, idx, s);
  }

  /** Another session of the folder goes by that name, ignoring case, or has the file of that name. */
  ghost predicate NameTaken(env: Env, idx: Index, s: Session)
    requires SessionFileName(s.name).Some?
  {
    exists k :: k in idx.sessions && k in idx.sessionFile && k != s.id && idx.sessions[k].folderId == Home(idx, s)
      && (env.EqualFold(idx.sessions[k].name, s.name)
          || (Home(idx, s) in idx.folderDir
              && idx.sessionFile[k] == idx.folderDir[Home(idx, s)] + [SessionFileName(s.name).value]))
  }

  /** The directory of that name exists. */
  ghost predicate DirectoryThere(idx: Index, s: Session)
    requires SessionFileName(s.name).Some?
  {
    exists f :: f in idx.folderDir && Home(idx, s) in idx.folderDir
      && idx.folderDir[f] == idx.folderDir[Home(idx, s)] + [SessionFileName(s.name).value]
  }

  /** A put is refused for exactly these reasons, the first that applies. */
  lemma PutRefused(env: Env, idx: Index, s: Session)
    requires IndexOk(env, idx)
    ensures var r := PutSession(env, idx, s);
            if Blank(s.name) then r == Err(NameRequired)
            else if Home(idx, s) !in idx.folders then r == Err(NotFound)
            else if Unusable(s.name) then r == Err(BadName)
            else SessionFileName(s.name).Some?
                 && if NameTaken(env, idx, s) then r == Err(Duplicate)
                    else if DirectoryThere(idx, s) then r == Err(IOError)
                    else r.Ok?
  {
    hide FoldersOk, SessionsOk, Apart, Blank, Unusable, SessionFileName, TrimSpace, Env.EqualFold, WithSession, Stored;
    BlankIff(s.name);
    UnusableIff(s.name);
    KeysAgree(env, idx);
    if Home(idx, s) in idx.folders && SessionFileName(s.name).Some? {
      ClashIff(env, idx, s);
    }
  }

  lemma ClashIff(env: Env, idx: Index, s: Session)
    requires idx.folderDir.Keys == idx.folders.Keys && idx.sessionFile.Keys == idx.sessions.Keys
    requires Home(idx, s) in idx.folders && SessionFileName(s.name).Some?
    ensures var target := idx.folderDir[Home(idx, s)] + [SessionFileName(s.name).value];
            && (SessionClash(env, idx, s.id, Home(idx, s), s.name, target) <==> NameTaken(env, idx, s))
            && (target in idx.folderDir.Values <==> DirectoryThere(idx, s))
  {
    hide SessionFileName, Env.EqualFold;
  }

  // -------------------------------------------------------------------- deleting

  /** Only a session, or a folder below the root that holds nothing, is deleted, and nothing else changes. */
  lemma DeleteExact(env: Env, idx: Index, id: Id)
    requires IndexOk(env, idx)
    ensures var r := DeleteId(idx, id);
            var busy := (exists k :: k in idx.folders && idx.folders[k].parentId == id)
                        || (exists k :: k in idx.sessions && idx.sessions[k].folderId == id);
            && (r.Ok? <==> id in idx.sessions || (id in idx.folders && id != idx.rootId && !busy))
            && (r == Err(NotFound) <==> id !in idx.sessions && id !in idx.folders)
            && (r == Err(RootFolder) <==> id == idx.rootId)
            && (r == Err(NotEmpty) <==> id in idx.folders && id != idx.rootId && busy)
    ensures DeleteId(idx, id).Ok? ==>
              var r := DeleteId(idx, id).value;
              && r.rootId == idx.rootId && r.tick == idx.tick
              && r.sessions == idx.sessions - {id} && r.sessionFile == idx.sessionFile - {id}
              && r.folders == idx.folders - {id} && r.folderDir == idx.folderDir - {id}
  {
    hide SessionOk, FolderOk, FolderNamesUnique, SessionNamesUnique, Injective;
    assert id in idx.sessions ==> id !in idx.folders && id !in idx.folderDir;
    assert id in idx.folders ==> id !in idx.sessions && id !in idx.sessionFile;
    if id in idx.sessions {
      Without(idx.folders, id);
      WithoutPath(idx.folderDir, id);
    } else if id in idx.folders {
      WithoutSession(idx.sessions, id);
      WithoutPath(idx.sessionFile, id);
    }
  }

  lemma Without(m: map<Id, Folder>, id: Id)
    requires id !in m
    ensures m - {id} == m
  {
  }

  lemma WithoutSession(m: map<Id, Session>, id: Id)
    requires id !in m
    ensures m - {id} == m
  {
  }

  lemma WithoutPath(m: map<Id, Path>, id: Id)
    requires id !in m
    ensures m - {id} == m
  {
  }

  // --------------------------------------------------------------------- folders

  function Parent(idx: Index, f: Folder): Id {
    if f.parentId == "" then idx.rootId else f.parentId
  }

  /** Apart from folder id's record, every record is as it was. */
  ghost predicate OnlyFolder(idx: Index, r: Index, id: Id) {
    && r.rootId == idx.rootId && r.sessions == idx.sessions
    && (forall k :: k != id ==> (k in r.folders <==> k in idx.folders))
    && (forall k :: k != id && k in idx.folders ==> r.folders[k] == idx.folders[k])
  }

  /** No path but folder id's is touched, and that only when it is new. */
  ghost predicate PathsStay(idx: Index, r: Index, id: Id) {
    && r.sessionFile == idx.sessionFile
    && (forall k :: k in idx.folderDir ==> k in r.folderDir && r.folderDir[k] == idx.folderDir[k])
    && (forall k :: k in r.folderDir ==> k in idx.folderDir || k == id)
  }

  /** What lay below one directory lies below another; the rest stays. */
  ghost predicate PathsMoved(m: map<Id, Path>, r: map<Id, Path>, src: Path, target: Path) {
    && r.Keys == m.Keys
    && forall k :: k in m ==>
         if |src| <= |m[k]| && m[k][..|src|] == src
         then |r[k]| >= |target| && r[k][..|target|] == target && r[k][|target|..] == m[k][|src|..]
         else r[k] == m[k]
  }

  lemma RelocatedMoves(m: map<Id, Path>, src: Path, target: Path)
    ensures PathsMoved(m, RelocatedAll(m, src, target), src, target)
  {
    forall k | k in m ensures src <= m[k] <==> |src| <= |m[k]| && m[k][..|src|] == src {
    }
  }

  /** The fields given; the root keeps its name and stays without a parent. */
  ghost predicate FolderStoredAs(env: Env, idx: Index, f: Folder, out: Folder)
    requires idx.rootId in idx.folders
  {
    && out.options == f.options && out.source == f.source && out.sourceOwner == f.sourceOwner
    && out.updatedAt == env.clock(idx.tick)
    && (out.id in idx.folders ==> out.revision == idx.folders[out.id].revision + 1)
    && (out.id !in idx.folders ==> out.revision == 1)
    && if out.id == idx.rootId then out.name == idx.folders[idx.rootId].name && out.parentId == ""
       else out.name == f.name && out.parentId == Parent(idx, f)
  }

  /** What a put did to folder id: its record, and the paths at and below it when it moved. */
  ghost predicate FolderPut(env: Env, idx: Index, f: Folder, r: Index, id: Id)
    requires idx.rootId in idx.folders
  {
    && OnlyFolder(idx, r, id) && r.tick == idx.tick + 1
    && id in r.folders && r.folders[id].id == id && FolderStoredAs(env, idx, f, r.folders[id])
    && if id == idx.rootId then r.folderDir == idx.folderDir && r.sessionFile == idx.sessionFile
       else
         && Parent(idx, f) in idx.folderDir && id in r.folderDir
         && var target := idx.folderDir[Parent(idx, f)] + [Sanitized(f.name)];
            && r.folderDir[id] == target
            && if f.id == "" then PathsStay(idx, r, id)
               else id in idx.folderDir && PathsMoved(idx.folderDir, r.folderDir, idx.folderDir[id], target)
                    && PathsMoved(idx.sessionFile, r.sessionFile, idx.folderDir[id], target)
  }

  lemma AddExact(env: Env, idx: Index, f: Folder)
    requires IndexOk(env, idx) && idx.rootId in idx.folders && f.id == "" && PutFolder(env, idx, f).Ok?
    ensures FolderPut(env, idx, f, PutFolder(env, idx, f).value, env.ulid(idx.tick))
  {
    hide IndexOk, FolderClash, Sanitized, TrimSpace, PathsMoved, AddFolder;
    NewFolderId(env, idx);
    var out, d := AddFolderIs(env, idx, f);
    assert PutFolder(env, idx, f) == AddFolder(env, idx, f);
  }

  lemma UpdateExact(env: Env, idx: Index, f: Folder)
    requires IndexOk(env, idx) && idx.rootId in idx.folders && f.id != "" && f.id != idx.rootId && PutFolder(env, idx, f).Ok?
    ensures f.id in idx.folders && FolderPut(env, idx, f, PutFolder(env, idx, f).value, f.id)
  {
    hide IndexOk, FolderClash, Sanitized, TrimSpace, PathsMoved, PutFolder, RelocatedAll;
    var id := f.id;
    var out, target := UpdateIs(env, idx, f);
    RelocatedMoves(idx.folderDir, idx.folderDir[id], target);
    RelocatedMoves(idx.sessionFile, idx.folderDir[id], target);
    MovedHead(idx.folderDir, id, target);
  }

  /** Creating, updating or moving a folder changes its record as given and, when it moves, the paths at and below it. */
  lemma PutFolderExact(env: Env, idx: Index, f: Folder) returns (id: Id)
    requires IndexOk(env, idx) && idx.rootId in idx.folders && PutFolder(env, idx, f).Ok?
    ensures if f.id == "" then id !in idx.folders && id !in idx.sessions && id != "" else id == f.id && id in idx.folders
    ensures FolderPut(env, idx, f, PutFolder(env, idx, f).value, id)
  {
    NewFolderId(env, idx);
    if f.id == "" {
      hide FolderPut, IndexOk, PutFolder;
      id := env.ulid(idx.tick);
      AddExact(env, idx, f);
    } else {
      id := f.id;
      if f.id != idx.rootId {
        hide FolderPut, IndexOk, PutFolder;
        UpdateExact(env, idx, f);
      } else {
        hide IndexOk;
      }
    }
  }

  lemma NewFolderId(env: Env, idx: Index)
    requires IndexOk(env, idx)
    ensures var id := env.ulid(idx.tick); id != "" && id !in idx.folders && id !in idx.sessions && id !in idx.folderDir && id != idx.rootId
    ensures forall k :: k in idx.folders ==> k in idx.folderDir
    ensures idx.rootId != ""
  {
    assert FolderOk(idx, idx.rootId);
  }

  lemma MovedHead(m: map<Id, Path>, id: Id, target: Path)
    requires id in m
    ensures id in RelocatedAll(m, m[id], target) && RelocatedAll(m, m[id], target)[id] == target
  {
    assert target + m[id][|m[id]|..] == target;
  }

  /** Another folder under that parent goes by that name, ignoring case, or has the directory of that name. */
  ghost predicate FolderTaken(env: Env, idx: Index, f: Folder) {
    exists k :: k in idx.folders && k != f.id && idx.folders[k].parentId == Parent(idx, f)
      && (env.EqualFold(idx.folders[k].name, f.name)
          || (k in idx.folderDir && Parent(idx, f) in idx.folderDir
              && idx.folderDir[k] == idx.folderDir[Parent(idx, f)] + [Sanitized(f.name)]))
  }

  /** A session's file, or the parent's own record, has the path the folder would get. */
  ghost predicate FileThere(idx: Index, f: Folder) {
    || Sanitized(f.name) == FOLDER_FILE
    || exists s :: s in idx.sessionFile && Parent(idx, f) in idx.folderDir
         && idx.sessionFile[s] == idx.folderDir[Parent(idx, f)] + [Sanitized(f.name)]
  }

  /** A folder put is refused for exactly these reasons, the first that applies; the root is never refused. */
  lemma PutFolderRefused(env: Env, idx: Index, f: Folder)
    requires IndexOk(env, idx) && idx.rootId in idx.folders
    ensures var r := PutFolder(env, idx, f);
            if f.id == idx.rootId then r.Ok?
            else if Blank(f.name) then r == Err(NameRequired)
            else if Parent(idx, f) !in idx.folders then r == Err(NotFound)
            else if Unusable(f.name) then r == Err(BadName)
            else if FolderTaken(env, idx, f) then r == Err(Duplicate)
            else if f.id != "" && f.id !in idx.folders then r == Err(NotFound)
            else
              && Parent(idx, f) in idx.folderDir
              && var target := idx.folderDir[Parent(idx, f)] + [Sanitized(f.name)];
                 if f.id == "" then (if FileThere(idx, f) then r == Err(IOError) else r.Ok?)
                 else
                   && f.id in idx.folderDir
                   && if idx.folderDir[f.id] == target then r.Ok?
                      else if idx.folderDir[f.id] <= target then r == Err(IntoSubtree)
                      else if FileThere(idx, f) then r == Err(IOError)
                      else r.Ok?
  {
    hide FoldersOk, SessionsOk, Apart, Blank, Unusable, Sanitized, TrimSpace, Env.EqualFold, WithFolder, MovedFolder;
    BlankIff(f.name);
    UnusableIff(f.name);
    KeysAgree(env, idx);
    NewFolderId(env, idx);
    if Parent(idx, f) in idx.folders {
      FolderClashIff(env, idx, f);
    }
  }

  lemma FolderClashIff(env: Env, idx: Index, f: Folder)
    requires Parent(idx, f) in idx.folderDir
    ensures var target := idx.folderDir[Parent(idx, f)] + [Sanitized(f.name)];
            && (FolderClash(env, idx, f.id, Parent(idx, f), f.name, target) <==> FolderTaken(env, idx, f))
            && (target in idx.sessionFile.Values || Sanitized(f.name) == FOLDER_FILE <==> FileThere(idx, f))
  {
    hide Sanitized, Env.EqualFold;
  }

  // --------------------------------------------------------------------- sources

  /** Of the folder's record only source, revision and time change, of the index nothing else. */
  ghost predicate Resourced(env: Env, idx: Index, r: Index, id: Id)
    requires id in idx.folders
  {
    && OnlyFolder(idx, r, id) && id in r.folders && r.folderDir == idx.folderDir && r.sessionFile == idx.sessionFile
    && var (was, out) := (idx.folders[id], r.folders[id]);
       && out.id == was.id && out.name == was.name && out.parentId == was.parentId && out.options == was.options
       && out.sourceOwner == was.sourceOwner
       && out.revision == was.revision + 1 && out.updatedAt == env.clock(idx.tick)
  }

  /** Setting a source stores its configuration with the time, refused for the root, unknown folders and conflicts alone. */
  lemma SetSourceStores(env: Env, idx: Index, id: Id, src: Source)
    ensures var r := SetSource(env, idx, id, src);
            if id == idx.rootId then r == Err(RootFolder)
            else if id !in idx.folders then r == Err(NotFound)
            else if SourceInTheWay(idx, id) then r == Err(SourceConflict)
            else r.Ok? && Resourced(env, idx, r.value, id)
                 && r.value.folders[id].source == Some(Source(src.config, env.clock(idx.tick)))
  {
    hide SourceInTheWay;
  }

  /** Clearing leaves the folder without a source; without one there is nothing to do. */
  lemma ClearSourceExact(env: Env, idx: Index, id: Id)
    ensures var r := ClearSource(env, idx, id);
            && (r.Err? <==> id !in idx.folders) && (r.Err? ==> r == Err(NotFound))
            && (r.Ok? ==>
                  && id in r.value.folders && r.value.folders[id].source == None
                  && (if idx.folders[id].source == None then r.value == idx else Resourced(env, idx, r.value, id)))
  {
  }
}
