/** One imported record, said outright: its key, its fields, and exactly when it is stored, skipped or refused. */
module ReconcileExact {
  import opened Wrappers
  import opened StoreNames
  import opened StoreIndex
  import opened StoreExact
  import opened StoreMove
  import opened Prune
  import opened Reconcile
  import opened Converge

  /** Two keys are the same exactly when the attribute the mode goes by is. */
  lemma KeyEqualIff(mode: By, externalId: string, host: string, otherId: string, otherHost: string)
    ensures Key(mode, externalId, host) == Key(mode, otherId, otherHost)
       <==> if mode == ByExternalId then externalId == otherId else host == otherHost
  {
    assert ("e:" + externalId)[2..] == externalId && ("e:" + otherId)[2..] == otherId;
    assert ("h:" + host)[2..] == host && ("h:" + otherHost)[2..] == otherHost;
  }

  /** The session has the record's fields: a missing port is 22 and a missing protocol ssh, given ones are kept. */
  predicate HasFields(s: Session, r: Record, src: Id) {
    && s.name == r.name && s.host == r.host && s.user == r.user && s.tags == r.tags && s.externalId == r.externalId
    && s.source == src
    && (if r.port != 0 then s.port == r.port else s.port == 22)
    && (if r.proto != "" then s.proto == r.proto else s.proto == "ssh")
  }

  /** A session is landed exactly when it has the record's fields and lies, with its file, where the record's path leads. */
  lemma LandsIff(env: Env, idx: Index, src: Id, r: Record, id: Id)
    ensures Lands(env, idx, src, r, id) <==>
              && id in idx.sessions && id in idx.sessionFile && HasFields(idx.sessions[id], r, src)
              && var leaf := idx.sessions[id].folderId;
                 && FolderParts(r).Some? && Resolves(env, idx, src, FolderParts(r).value, leaf)
                 && leaf in idx.folderDir && !Blank(r.name) && SessionFileName(r.name).Some?
                 && idx.sessionFile[id] == idx.folderDir[leaf] + [SessionFileName(r.name).value]
  {
    hide TrimSpace, SessionFileName, FolderParts, Resolves, Blank;
    BlankIff(r.name);
  }

  // ---------------------------------------------------------------- folder paths

  /** Slashes around a folder path make no difference. */
  lemma FolderPartsIs(r: Record)
    ensures FolderParts(r) == PathParts(r.folder)
  {
    hide SplitSlash, NonEmpty;
    LeadingSlashes(r.folder);
    TrailingSlashes(TrimLeft(r.folder, Slash));
  }

  lemma {:induction false} LeadingSlashes(s: string)
    ensures NonEmpty(SplitSlash(TrimLeft(s, Slash))) == NonEmpty(SplitSlash(s))
  {
    hide SplitSlash, NonEmpty, TrimSpace;
    if s != "" && Slash(s[0]) {
      var parts := SplitSlash(s[1..]);
      LeadingSlashes(s[1..]);
      SplitSlashExact(s[1..]);
      SlashFirst(parts);
      assert s == "/" + s[1..];
      assert NoSlash([""] + parts);
      JoinedSplits([""] + parts);
      NonEmptyConcat([""], parts);
      NonEmptyConcat([], [""]);
      BlankIff("");
    }
  }

  lemma {:induction false} SlashFirst(parts: seq<string>)
    requires parts != []
    ensures Joined([""] + parts) == "/" + Joined(parts)
  {
    var all := [""] + parts;
    if |parts| == 1 {
      assert all[..1] == [""] && all[1] == parts[0];
      assert "" + "/" + parts[0] == "/" + parts[0];
    } else {
      SlashFirst(parts[..|parts| - 1]);
      assert all[..|all| - 1] == [""] + parts[..|parts| - 1];
    }
  }

  lemma {:induction false} TrailingSlashes(s: string)
    ensures NonEmpty(SplitSlash(TrimRight(s, Slash))) == NonEmpty(SplitSlash(s))
  {
    hide TrimSpace;
    if s != "" && Slash(s[|s| - 1]) {
      TrailingSlashes(s[..|s| - 1]);
      NonEmptyConcat(SplitSlash(s[..|s| - 1]), [""]);
      BlankIff("");
    }
  }

  /** A chain of folders from `parent` to `leaf`, each the child of the one before, named as the parts say, ignoring case. */
  predicate Chain(env: Env, idx: Index, parent: Id, parts: seq<string>, leaf: Id, ids: seq<Id>) {
    && |ids| == |parts| + 1 && ids[0] == parent && ids[|parts|] == leaf
    && forall i :: 0 <= i < |parts| ==> Link(env, idx, parts, ids, i)
  }

  predicate Link(env: Env, idx: Index, parts: seq<string>, ids: seq<Id>, i: nat)
    requires i < |parts| && |ids| == |parts| + 1
  {
    && ids[i + 1] in idx.folders && idx.folders[ids[i + 1]].parentId == ids[i]
    && env.fold(idx.folders[ids[i + 1]].name) == env.fold(parts[i])
  }

  /** Where a path leads: to the end of the chain of folders of these names. */
  lemma ResolvesIff(env: Env, idx: Index, parent: Id, parts: seq<string>, leaf: Id)
    ensures Resolves(env, idx, parent, parts, leaf) <==> exists ids :: Chain(env, idx, parent, parts, leaf, ids)
  {
    hide Chain, Resolves;
    if Resolves(env, idx, parent, parts, leaf) {
      var ids := ChainTo(env, idx, parent, parts, leaf);
    }
    if ids :| Chain(env, idx, parent, parts, leaf, ids) {
      ChainResolves(env, idx, parent, parts, leaf, ids);
    }
  }

  lemma {:induction false} ChainTo(env: Env, idx: Index, parent: Id, parts: seq<string>, leaf: Id) returns (ids: seq<Id>)
    requires Resolves(env, idx, parent, parts, leaf)
    ensures Chain(env, idx, parent, parts, leaf, ids)
    decreases |parts|
  {
    if parts == [] {
      ids := [parent];
    } else {
      var k :| IsChildNamed(env, idx, parent, parts[0], k) && Resolves(env, idx, k, parts[1..], leaf);
      var rest := ChainTo(env, idx, k, parts[1..], leaf);
      ids := [parent] + rest;
      forall i: nat | i < |parts| ensures Link(env, idx, parts, ids, i) {
        if i > 0 {
          assert Link(env, idx, parts[1..], rest, i - 1);
        }
      }
    }
  }

  lemma {:induction false} ChainResolves(env: Env, idx: Index, parent: Id, parts: seq<string>, leaf: Id, ids: seq<Id>)
    requires Chain(env, idx, parent, parts, leaf, ids)
    ensures Resolves(env, idx, parent, parts, leaf)
    decreases |parts|
  {
    if parts != [] {
      assert Link(env, idx, parts, ids, 0);
      forall i: nat | i < |parts| - 1 ensures Link(env, idx, parts[1..], ids[1..], i) {
        assert Link(env, idx, parts, ids, i + 1);
      }
      ChainResolves(env, idx, ids[1], parts[1..], leaf, ids[1..]);
      assert IsChildNamed(env, idx, parent, parts[0], ids[1]);
    }
  }

  // -------------------------------------------------------------------- pruning

  /** Folder d, at or below id, is not this source's own or holds a session. */
  ghost predicate KeepsAlive(idx: Index, src: Id, id: Id, d: Id) {
    && id in idx.folderDir && d in idx.folderDir && idx.folderDir[id] <= idx.folderDir[d] && d in idx.folders
    && (idx.folders[d].sourceOwner != src || exists s :: s in idx.sessions && idx.sessions[s].folderId == d)
  }

  /**
   * After n passes a folder is gone exactly when it and all below it were created for this source and hold no session,
   * and nothing lies n or more levels below it; what is left is untouched.
   */
  lemma PrunedSays(env: Env, idx: Index, src: Id, n: nat, id: Id)
    requires IndexOk(env, idx) && Pruned(idx, src, n).Ok? && id in idx.folders
    ensures var r := Pruned(idx, src, n).value;
            && id in idx.folderDir
            && (id !in r.folders <==>
                  && (forall d :: !KeepsAlive(idx, src, id, d))
                  && (forall d :: d in idx.folderDir && idx.folderDir[id] <= idx.folderDir[d] ==>
                        |idx.folderDir[d]| < |idx.folderDir[id]| + n))
            && (id in r.folders ==> r.folders[id] == idx.folders[id])
            && r.sessions == idx.sessions && r.sessionFile == idx.sessionFile
  {
    hide IndexOk, Pruned, KeepsAlive;
    NewFolderId(env, idx);
    PrunedExact(env, idx, src, n, id);
    PrunedKeeps(env, idx, src, n);
    AliveIff(idx, src, id);
    DeepIff(idx, id, n);
  }

  lemma AliveIff(idx: Index, src: Id, id: Id)
    ensures Supported(idx, src, id) <==> exists d :: KeepsAlive(idx, src, id, d)
  {
    if d :| AtOrBelow(idx, id, d) && Worth(idx, src, d) {
      assert KeepsAlive(idx, src, id, d);
    }
    if d :| KeepsAlive(idx, src, id, d) {
      assert AtOrBelow(idx, id, d) && Worth(idx, src, d);
    }
  }

  lemma DeepIff(idx: Index, id: Id, n: nat)
    requires id in idx.folderDir
    ensures Deep(idx, id, n) <==>
              exists d :: d in idx.folderDir && idx.folderDir[id] <= idx.folderDir[d]
                && |idx.folderDir[d]| >= |idx.folderDir[id]| + n
  {
    if d :| d in idx.folderDir && idx.folderDir[id] <= idx.folderDir[d] && |idx.folderDir[d]| >= |idx.folderDir[id]| + n {
      assert AtOrBelow(idx, id, d);
    }
  }

  // ------------------------------------------------------------------ one record

  /** A session other than the one of the record's key goes by the record's name in the leaf folder, or has its file. */
  ghost predicate LeafTaken(env: Env, mid: Index, own: Id, leaf: Id, name: string) {
    exists k :: k in mid.sessions && k in mid.sessionFile && k != own && mid.sessions[k].folderId == leaf
      && (env.EqualFold(mid.sessions[k].name, name)
          || (leaf in mid.folderDir && SessionFileName(name).Some?
              && mid.sessionFile[k] == mid.folderDir[leaf] + [SessionFileName(name).value]))
  }

  ghost predicate DirectoryInLeaf(mid: Index, leaf: Id, name: string) {
    exists f :: f in mid.folderDir && leaf in mid.folderDir && SessionFileName(name).Some?
      && mid.folderDir[f] == mid.folderDir[leaf] + [SessionFileName(name).value]
  }

  /** Some generated session had the record's key: then that one is updated. */
  ghost predicate Known(existing: map<string, Session>, mode: By, r: Record) {
    RecordKey(mode, r) in existing
  }

  ghost function OwnId(existing: map<string, Session>, mode: By, r: Record): Id {
    if Known(existing, mode, r) then existing[RecordKey(mode, r)].id else ""
  }

  /** The session a record was stored as: an update keeps the options, a new one has none and begins at revision one. */
  ghost predicate StoredFrom(env: Env, mid: Index, done: Index, existing: map<string, Session>, src: Id, mode: By,
                             r: Record, leaf: Id, id: Id) {
    && OnlySession(mid, done, id) && id in done.sessions
    && var out := done.sessions[id];
       && out.id == id && HasFields(out, r, src) && out.folderId == leaf && out.updatedAt == env.clock(mid.tick)
       && if Known(existing, mode, r) then
            && id == OwnId(existing, mode, r) && id in mid.sessions
            && out.options == existing[RecordKey(mode, r)].options && out.revision == mid.sessions[id].revision + 1
          else id !in mid.sessions && out.options == "" && out.revision == 1
  }

  /**
   * What becomes of a record once its folders are there: skipped exactly when its name is taken in the leaf folder,
   * refused for a bad name or a directory in the way, and otherwise stored, as an update exactly when its key was known.
   */
  lemma PlaceExact(env: Env, idx: Index, existing: map<string, Session>, src: Id, mode: By, r: Record)
    requires IndexOk(env, idx) && src in idx.folders && src != "" && StillThere(existing, idx)
    requires EnsurePath(env, idx, src, r).Ok?
    ensures var (mid, leaf) := EnsurePath(env, idx, src, r).value;
            var result := Place(env, idx, existing, src, mode, r);
            if Blank(r.name) then result == Err(NameRequired)
            else if Unusable(r.name) then result == Err(BadName)
            else if LeafTaken(env, mid, OwnId(existing, mode, r), leaf, r.name) then result == Ok((mid, Skipped))
            else if DirectoryInLeaf(mid, leaf, r.name) then result == Err(IOError)
            else
              && result.Ok? && !result.value.1.Skipped?
              && (result.value.1.Updated? <==> Known(existing, mode, r))
              && StoredFrom(env, mid, result.value.0, existing, src, mode, r, leaf, IdOf(result.value.1))
  {
    hide IndexOk, PutSession, FolderParts, EnsurePath, Blank, Unusable, NameTaken, DirectoryThere, LeafTaken, DirectoryInLeaf,
         OnlySession, StoredAs, Passable, SessionFileName;
    var (mid, leaf) := EnsurePath(env, idx, src, r).value;
    LeafThere(env, idx, src, r);
    var k := RecordKey(mode, r);
    var s := Patched(if k in existing then existing[k] else BLANK, r, leaf, src);
    PutRefused(env, mid, s);
    SameTaken(env, mid, s, leaf);
    IdPassable(env, mid, s);
    if PutSession(env, mid, s).Ok? {
      var id := PutExact(env, mid, s);
      NewId(env, mid, s, id);
      StoredFields(env, mid, s, PutSession(env, mid, s).value.sessions[id], r, leaf, src);
    }
  }

  lemma LeafThere(env: Env, idx: Index, src: Id, r: Record)
    requires IndexOk(env, idx) && src in idx.folders && EnsurePath(env, idx, src, r).Ok?
    ensures var (mid, leaf) := EnsurePath(env, idx, src, r).value;
            && IndexOk(env, mid) && leaf in mid.folders && leaf in mid.folderDir && leaf != "" && mid.sessions == idx.sessions
  {
    hide IndexOk, Descend, FolderParts, Grown, Resolves;
    DescendOk(env, idx, src, src, FolderParts(r).value);
    var (mid, leaf) := EnsurePath(env, idx, src, r).value;
    NoEmptyLeaf(env, mid, leaf);
    NewFolderId(env, mid);
  }

  lemma SameTaken(env: Env, mid: Index, s: Session, leaf: Id)
    requires s.folderId == leaf != "" && leaf in mid.folderDir
    ensures SessionFileName(s.name).Some? ==>
              && (NameTaken(env, mid, s) <==> LeafTaken(env, mid, s.id, leaf, s.name))
              && (DirectoryThere(mid, s) <==> DirectoryInLeaf(mid, leaf, s.name))
  {
    hide SessionFileName, Env.EqualFold;
  }

  lemma IdPassable(env: Env, mid: Index, s: Session)
    requires s.id == "" || s.id in mid.sessions
    ensures Passable(env, mid, s.id)
  {
  }

  /** The fate names the id the session was stored under. */
  lemma NewId(env: Env, mid: Index, s: Session, id: Id)
    requires PutSession(env, mid, s).Ok? && id in PutSession(env, mid, s).value.sessions
    requires OnlySession(mid, PutSession(env, mid, s).value, id) && (s.id == "" ==> id !in mid.sessions) && (s.id != "" ==> id == s.id)
    ensures s.id == "" ==> id == env.ulid(mid.tick)
  {
    hide SessionClash, SessionFileName, TrimSpace;
  }

  lemma StoredFields(env: Env, mid: Index, s: Session, out: Session, r: Record, leaf: Id, src: Id)
    requires StoredAs(env, mid, s, out) && s == Patched(s, r, leaf, src) && leaf != ""
    ensures HasFields(out, r, src) && out.folderId == leaf && out.options == s.options && out.updatedAt == env.clock(mid.tick)
    ensures out.id in mid.sessions ==> out.revision == mid.sessions[out.id].revision + 1
    ensures out.id !in mid.sessions && s.id == "" ==> out.revision == 1
  {
  }

  /** The records with a fate of this kind. */
  ghost function Among(fates: seq<Fate>, kind: Fate -> bool): set<nat> {
    set i: nat | i < |fates| && kind(fates[i])
  }

  lemma AmongSnoc(fates: seq<Fate>, kind: Fate -> bool)
    requires fates != []
    ensures |Among(fates, kind)| == |Among(fates[..|fates| - 1], kind)| + if kind(fates[|fates| - 1]) then 1 else 0
  {
    var n := |fates| - 1;
    var before := Among(fates[..n], kind);
    if kind(fates[n]) {
      assert Among(fates, kind) == before + {n};
    } else {
      assert Among(fates, kind) == before;
    }
  }

  /** The report counts the records of each fate. */
  lemma {:induction false} CountsExact(fates: seq<Fate>)
    ensures CountAdded(fates) == |Among(fates, (f: Fate) => f.Added?)|
    ensures CountUpdated(fates) == |Among(fates, (f: Fate) => f.Updated?)|
    ensures CountSkipped(fates) == |Among(fates, (f: Fate) => f.Skipped?)|
  {
    hide Among;
    if fates == [] {
      NoneAmong((f: Fate) => f.Added?);
      NoneAmong((f: Fate) => f.Updated?);
      NoneAmong((f: Fate) => f.Skipped?);
    } else {
      CountsExact(fates[..|fates| - 1]);
      AmongSnoc(fates, (f: Fate) => f.Added?);
      AmongSnoc(fates, (f: Fate) => f.Updated?);
      AmongSnoc(fates, (f: Fate) => f.Skipped?);
    }
  }

  lemma NoneAmong(kind: Fate -> bool)
    ensures Among([], kind) == {}
  {
  }
}
