/** What lies below a directory: the facts a reload relies on. */
module DiskLoad {
  import opened Wrappers
  import opened StoreNames
  import opened StoreIndex
  import opened StoreMove
  import opened DiskTree

  /** Folders strictly below a directory; at or below one of several directories. */
  ghost function DirsBelow(idx: Index, dir: Path): set<Id> {
    set id | id in idx.folderDir && dir < idx.folderDir[id]
  }

  ghost function DirsAt(idx: Index, cs: set<Path>): set<Id> {
    set id | id in idx.folderDir && exists c :: c in cs && c <= idx.folderDir[id]
  }

  ghost function FilesBelow(idx: Index, dir: Path): set<Id> {
    set id | id in idx.sessionFile && dir < idx.sessionFile[id]
  }

  ghost function FilesAt(idx: Index, cs: set<Path>): set<Id> {
    set id | id in idx.sessionFile && exists c :: c in cs && c <= idx.sessionFile[id]
  }

  ghost function FilesIn(idx: Index, dir: Path): set<Id> {
    set id | id in idx.sessionFile && ChildPath(idx.sessionFile[id], dir)
  }

  ghost function Longest(ps: set<Path>): (n: nat)
    ensures forall p :: p in ps ==> |p| <= n
  {
    if ps == {} then 0
    else
      var p :| p in ps;
      var n := Longest(ps - {p});
      assert ps == (ps - {p}) + {p};
      if |p| > n then |p| else n
  }

  /** Sessions stored in one of the given files. */
  ghost function FilesNamed(idx: Index, ps: set<Path>): set<Id> {
    set id | id in idx.sessionFile && idx.sessionFile[id] in ps
  }

  /** What has been loaded so far is part of what is wanted. */
  ghost predicate Part<V>(m: map<Id, V>, want: map<Id, V>) {
    forall id :: id in m ==> id in want && m[id] == want[id]
  }

  lemma PartMore<V>(m: map<Id, V>, want: map<Id, V>, id: Id, v: V)
    requires Part(m, want) && id in want && want[id] == v
    ensures Part(m[id := v], want)
  {
  }

  lemma NoPart<V>(want: map<Id, V>)
    ensures Part(map[], want)
  {
  }

  lemma OnePart<V>(want: map<Id, V>, id: Id, v: V)
    requires id in want && want[id] == v
    ensures Part(map[id := v], want)
  {
  }

  lemma PartAll<V>(m: map<Id, V>, want: map<Id, V>)
    requires Part(m, want) && m.Keys == want.Keys
    ensures m == want
  {
  }

  lemma NoneReached(idx: Index)
    ensures DirsAt(idx, {}) == {} && FilesAt(idx, {}) == {}
  {
  }

  lemma RootOnDisk(env: Env, want: Index, disk: Disk)
    requires IndexOk(env, want) && Agrees(want, disk)
    ensures [] in disk.dirs && disk.dirs[[]].id == want.rootId
    ensures want.rootId in want.folders && want.rootId in want.folderDir && want.folderDir[want.rootId] == []
    ensures LoadedFolder(disk.dirs[[]], "") == want.folders[want.rootId]
    ensures want.rootId !in DirsBelow(want, [])
  {
    hide SessionsOk, Apart, SessionsAgree;
    assert FolderOk(want, want.rootId);
  }

  lemma AllBelowRoot(env: Env, want: Index)
    requires IndexOk(env, want)
    ensures want.folders.Keys == want.folderDir.Keys == {want.rootId} + DirsBelow(want, [])
    ensures want.sessions.Keys == want.sessionFile.Keys == FilesBelow(want, [])
  {
    KeysAgree(env, want);
    assert FolderOk(want, want.rootId);
    forall id | id in want.folderDir ensures id == want.rootId || [] < want.folderDir[id] {
      assert FolderOk(want, id);
    }
    forall id | id in want.sessionFile ensures [] < want.sessionFile[id] {
      assert SessionOk(want, id);
    }
  }

  /** What lies below a directory lies at its child directories or directly in it. */
  lemma BelowParts(env: Env, want: Index, disk: Disk, dir: Path)
    requires IndexOk(env, want) && Agrees(want, disk)
    ensures var all := set p | p in disk.dirs && ChildPath(p, dir);
            && DirsBelow(want, dir) == DirsAt(want, all)
            && FilesBelow(want, dir) == FilesAt(want, all) + FilesIn(want, dir)
            && FilesAt(want, all) !! FilesIn(want, dir)
  {
    hide IndexOk, Agrees;
    var all := set p | p in disk.dirs && ChildPath(p, dir);
    forall id | id in want.folderDir && dir < want.folderDir[id] ensures id in DirsAt(want, all) {
      ChildOnDisk(env, want, disk, id, dir);
      assert want.folderDir[id][..|dir| + 1] in all;
    }
    forall id | id in want.sessionFile && dir < want.sessionFile[id]
      ensures id in FilesAt(want, all) || id in FilesIn(want, dir)
    {
      FileHome(env, want, id);
      var file, home := want.sessionFile[id], want.folderDir[want.sessions[id].folderId];
      PrefixOfChild(file, dir);
      if home != dir {
        ChildOnDisk(env, want, disk, want.sessions[id].folderId, dir);
        var c := home[..|dir| + 1];
        assert c in all && c <= file;
      }
    }
    forall id, c | id in want.sessionFile && c in all && c <= want.sessionFile[id] ensures !ChildPath(want.sessionFile[id], dir) {
      FileNotDir(env, want, disk, id, c);
    }
  }

  /** The directory below `dir` on the way to folder id is on disk. */
  lemma ChildOnDisk(env: Env, want: Index, disk: Disk, id: Id, dir: Path)
    requires IndexOk(env, want) && Agrees(want, disk) && id in want.folderDir && dir < want.folderDir[id]
    ensures var c := want.folderDir[id][..|dir| + 1];
            c in disk.dirs && ChildPath(c, dir) && c <= want.folderDir[id]
  {
    hide SessionsOk, Apart, SessionsAgree;
    var c := want.folderDir[id][..|dir| + 1];
    var k := PrefixIsFolder(env, want, id, c);
  }

  lemma FileHome(env: Env, want: Index, id: Id)
    requires IndexOk(env, want) && id in want.sessionFile
    ensures id in want.sessions && want.sessions[id].folderId in want.folderDir
    ensures ChildPath(want.sessionFile[id], want.folderDir[want.sessions[id].folderId])
  {
    hide FoldersOk, Apart;
    assert SessionOk(want, id);
  }

  lemma FileNotDir(env: Env, want: Index, disk: Disk, id: Id, c: Path)
    requires IndexOk(env, want) && Agrees(want, disk) && id in want.sessionFile && c in disk.dirs
    ensures want.sessionFile[id] != c
  {
    hide FoldersOk, SessionsOk, SessionsAgree;
    assert want.folderDir[disk.dirs[c].id] == c;
  }

  lemma RecordOf(env: Env, want: Index, disk: Disk, folderId: Id, sub: Path)
    requires IndexOk(env, want) && Agrees(want, disk) && folderId in want.folderDir
    requires sub in disk.dirs && ChildPath(sub, want.folderDir[folderId])
    ensures var id := disk.dirs[sub].id;
            && id in want.folders && id in want.folderDir && want.folderDir[id] == sub
            && LoadedFolder(disk.dirs[sub], folderId) == want.folders[id]
  {
    hide SessionsOk, Apart, SessionsAgree;
    var id := disk.dirs[sub].id;
    assert FolderOk(want, id) && FolderOk(want, want.rootId);
    SameParent(env, want, id, folderId);
  }

  /** At or below one directory: the folder there and what is strictly below. */
  lemma DirsAtOne(env: Env, want: Index, id: Id, sub: Path)
    requires IndexOk(env, want) && id in want.folderDir && want.folderDir[id] == sub
    ensures DirsAt(want, {sub}) == {id} + DirsBelow(want, sub) && id !in DirsBelow(want, sub)
    ensures FilesAt(want, {sub}) == FilesBelow(want, sub)
  {
    hide SessionsOk, FolderOk, FolderNamesUnique;
    forall k | k in want.sessionFile ensures want.sessionFile[k] != sub {
      assert want.folderDir[id] == sub;
    }
  }

  lemma OneMore(want: Index, cs: set<Path>, sub: Path)
    ensures DirsAt(want, cs + {sub}) == DirsAt(want, cs) + DirsAt(want, {sub})
    ensures FilesAt(want, cs + {sub}) == FilesAt(want, cs) + FilesAt(want, {sub})
  {
  }

  lemma Siblings(want: Index, dir: Path, cs: set<Path>, sub: Path)
    requires ChildPath(sub, dir) && sub !in cs && forall c :: c in cs ==> ChildPath(c, dir)
    ensures DirsAt(want, cs) !! DirsAt(want, {sub}) && FilesAt(want, cs) !! FilesAt(want, {sub})
  {
    forall id | id in DirsAt(want, cs) ensures id !in DirsAt(want, {sub}) {
      var c :| c in cs && c <= want.folderDir[id];
      Cousins(c, sub, want.folderDir[id]);
    }
    forall id | id in FilesAt(want, cs) ensures id !in FilesAt(want, {sub}) {
      var c :| c in cs && c <= want.sessionFile[id];
      Cousins(c, sub, want.sessionFile[id]);
    }
  }

  lemma Cousins(c: Path, sub: Path, p: Path)
    requires |c| == |sub| && c <= p && c != sub
    ensures !(sub <= p)
  {
    assert c == p[..|c|];
  }

  lemma BelowChild(want: Index, dir: Path, sub: Path)
    requires ChildPath(sub, dir)
    ensures DirsAt(want, {sub}) <= DirsBelow(want, dir) && FilesAt(want, {sub}) <= FilesBelow(want, dir)
  {
  }

  /** The record of a session file is the wanted one. */
  lemma FileLoads(env: Env, want: Index, disk: Disk, folderId: Id, p: Path)
    requires IndexOk(env, want) && Agrees(want, disk) && folderId in want.folderDir
    requires p in disk.files && ChildPath(p, want.folderDir[folderId])
    ensures var id := disk.files[p].id;
            && id in want.sessions && id in want.sessionFile && want.sessionFile[id] == p
            && LoadedSession(disk.files[p], folderId) == want.sessions[id]
    ensures forall k :: k in want.sessionFile && want.sessionFile[k] == p ==> k == disk.files[p].id
  {
    hide FoldersAgree, Apart;
    var id := disk.files[p].id;
    assert SessionOk(want, id);
  }

  /** The session files directly in a directory are those on disk there. */
  lemma FilesOnDisk(want: Index, disk: Disk, dir: Path)
    requires Agrees(want, disk)
    ensures FilesNamed(want, set p | p in disk.files && ChildPath(p, dir)) == FilesIn(want, dir)
    ensures FilesNamed(want, {}) == {}
  {
    hide FoldersAgree;
  }

  lemma NamedIn(want: Index, disk: Disk, dir: Path, p: Path, id: Id)
    requires ChildPath(p, dir) && id in want.sessionFile && want.sessionFile[id] == p
    ensures id in FilesIn(want, dir)
  {
  }

  lemma FilesOneMore(want: Index, ps: set<Path>, p: Path, id: Id)
    requires p !in ps && id in want.sessionFile && want.sessionFile[id] == p
    requires forall k :: k in want.sessionFile && want.sessionFile[k] == p ==> k == id
    ensures FilesNamed(want, ps + {p}) == FilesNamed(want, ps) + {id} && id !in FilesNamed(want, ps)
  {
  }
}
