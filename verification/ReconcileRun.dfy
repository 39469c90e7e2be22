/** The reconcile as the program runs it, on the store, against its specification. */
module ReconcileRun {
  import opened Wrappers
  import opened StoreNames
  import opened StoreIndex
  import opened StoreMove
  import opened YamlStore
  import opened Prune
  import opened Reconcile
  import opened Converge

  // --------------------------------------------------------------- folder paths

  /** The child of `parent` with this name, ignoring case. */
  method FolderByName(s: Store, parent: Id, name: string) returns (found: Option<Id>)
    requires s.Valid()
    ensures found == ChildNamed(s.env, s.Idx(), parent, name)
    ensures found.Some? ==> found.value in s.folders && IsChildNamed(s.env, s.Idx(), parent, name, found.value)
  {
    hide SessionsOk, Apart, FoldersOk, DiskTree.Agrees;
    var todo := s.folders.Keys;
    while todo != {}
      invariant todo <= s.folders.Keys
      invariant forall k :: k in s.folders.Keys - todo ==> !IsChildNamed(s.env, s.Idx(), parent, name, k)
      decreases todo
    {
      var k :| k in todo;
      if s.folders[k].parentId == parent && s.env.EqualFold(s.folders[k].name, name) {
        assert IsChildNamed(s.env, s.Idx(), parent, name, k);
        OneChild(s.env, s.Idx(), parent, name, k, ChildNamed(s.env, s.Idx(), parent, name).value);
        return Some(k);
      }
      todo := todo - {k};
    }
    found := None;
  }

  lemma NonEmptyPrefix(parts: seq<string>, n: nat)
    requires n <= |parts|
    ensures NonEmpty(parts[..n]) <= NonEmpty(parts)
    decreases |parts|
  {
    hide TrimSpace;
    if n < |parts| {
      NonEmptyPrefix(parts[..|parts| - 1], n);
      assert parts[..|parts| - 1][..n] == parts[..n];
    } else {
      assert parts[..n] == parts;
    }
  }

  /** The names a path stands for; refused when one is a dot name or there are too many. */
  method SplitPath(path: string) returns (parts: Option<seq<string>>)
    ensures parts == PathParts(path)
  {
    hide TrimSpace;
    var split := SplitSlash(path);
    var names := [];
    for i := 0 to |split|
      invariant names == NonEmpty(split[..i])
      invariant forall j :: 0 <= j < |names| ==> names[j] != "." && names[j] != ".."
    {
      var p := TrimSpace(split[i]);
      assert split[..i + 1][..i] == split[..i];
      if p != "" {
        if p == "." || p == ".." {
          NonEmptyPrefix(split, i + 1);
          assert NonEmpty(split[..i + 1])[|names|] == p;
          return None;
        }
        names := names + [p];
      }
    }
    assert split[..|split|] == split;
    if |names| > MAX_FOLDER_DEPTH {
      return None;
    }
    parts := Some(names);
  }

  /** Creates or reuses the nested folders of a path below the source. */
  method EnsureFolderPath(s: Store, src: Id, path: string) returns (leaf: Id, err: Option<StoreError>)
    requires s.Valid() && src in s.folders
    modifies s
    ensures s.Valid()
    ensures var spec := if PathParts(path).None? then Err(BadPath)
                        else Descend(s.env, old(s.Idx()), src, src, PathParts(path).value);
            if spec.Err? then err == Some(spec.error) else err == None && spec.value == (s.Idx(), leaf)
  {
    hide IndexOk, DiskTree.Agrees, PathParts, ChildNamed, StoreMove.PutFolder;
    leaf := src;
    var split := SplitPath(path);
    if split.None? {
      return leaf, Some(BadPath);
    }
    var parts := split.value;
    ghost var spec := Descend(s.env, s.Idx(), src, src, parts);
    for i := 0 to |parts|
      invariant s.Valid() && leaf in s.folders
      invariant spec == Descend(s.env, s.Idx(), src, leaf, parts[i..])
    {
      assert parts[i..][1..] == parts[i + 1..];
      var found := FolderByName(s, leaf, parts[i]);
      if found.Some? {
        leaf := found.value;
      } else {
        var f := AutoFolder(parts[i], leaf, src);
        NewFolder(s.env, s.Idx(), f);
        err := s.PutFolder(f);
        if err.Some? {
          return;
        }
        found := FolderByName(s, leaf, parts[i]);
        if found.None? {
          return leaf, Some(NotFound);
        }
        leaf := found.value;
      }
    }
    err := None;
  }

  lemma NewFolder(env: Env, idx: Index, f: Folder)
    requires IndexOk(env, idx) && f.id == ""
    ensures idx.rootId in idx.folders && StoreMove.PutFolder(env, idx, f) == AddFolder(env, idx, f)
  {
  }

  // --------------------------------------------------------------------- pruning

  /** The folders with a child, and the folders with a session. */
  method Occupied(s: Store) returns (hasChild: set<Id>, hasSess: set<Id>)
    ensures forall id :: id in hasChild <==> HasChild(s.Idx(), id)
    ensures forall id :: id in hasSess <==> HasSession(s.Idx(), id)
  {
    hasChild := set k | k in s.folders :: s.folders[k].parentId;
    hasSess := set k | k in s.sessions :: s.sessions[k].folderId;
  }

  /** One pass: deletes the folders that were empty and owned when it began. */
  method PrunePass(s: Store, src: Id) returns (deleted: bool, err: Option<StoreError>)
    requires s.Valid()
    modifies s
    ensures s.Valid()
    ensures deleted == (Eligible(old(s.Idx()), src) != {}) || err.Some?
    ensures if old(s.Idx()).rootId in Eligible(old(s.Idx()), src) then err == Some(RootFolder)
            else err == None && s.Idx() == Without(old(s.Idx()), Eligible(old(s.Idx()), src))
  {
    hide IndexOk, DiskTree.Agrees, HasChild, HasSession, Eligible, Without, DeleteId;
    var hasChild, hasSess := Occupied(s);
    ghost var idx, gone := s.Idx(), {};
    var all, owner := s.folders.Keys, map k | k in s.folders :: s.folders[k].sourceOwner;
    var todo := all;
    deleted := false;
    WithoutNone(idx);
    OnlyFolders(idx, src);
    assert Eligible(idx, src) - all == {};
    while todo != {}
      invariant s.Valid() && todo <= all
      invariant s.Idx() == Without(idx, gone) && gone == Eligible(idx, src) - todo
      invariant deleted == (gone != {})
      invariant idx.rootId !in gone
      decreases todo
    {
      var id :| id in todo;
      EligibleIff(idx, src, id);
      if owner[id] == src && id !in hasChild && id !in hasSess {
        PassStep(s.env, idx, src, gone, id);
        err := s.Delete(id);
        if err.Some? {
          return;
        }
        deleted := true;
        gone := gone + {id};
      }
      todo := todo - {id};
    }
    assert gone == Eligible(idx, src);
    err := None;
  }

  lemma EligibleIff(idx: Index, src: Id, id: Id)
    requires id in idx.folders
    ensures id in Eligible(idx, src) <==> idx.folders[id].sourceOwner == src && !HasChild(idx, id) && !HasSession(idx, id)
  {
  }

  lemma OnlyFolders(idx: Index, src: Id)
    ensures Eligible(idx, src) <= idx.folders.Keys
  {
  }

  /** A folder empty when the pass began still is when its turn comes. */
  lemma PassStep(env: Env, idx: Index, src: Id, gone: set<Id>, id: Id)
    requires IndexOk(env, Without(idx, gone)) && id in Eligible(idx, src) && id !in gone
    ensures DeleteId(Without(idx, gone), id)
         == if id == idx.rootId then Err(RootFolder) else Ok(Without(idx, gone + {id}))
  {
    hide FoldersOk, SessionsOk;
    var r := Without(idx, gone);
    assert id in r.folders && !HasChild(r, id) && !HasSession(r, id);
    assert r.folders - {id} == idx.folders - (gone + {id}) && r.folderDir - {id} == idx.folderDir - (gone + {id});
  }

  lemma WithoutNone(idx: Index)
    ensures Without(idx, {}) == idx
  {
  }

  /** Repeats passes until one deletes nothing, at most one more than the deepest path. */
  method PruneGeneratedFolders(s: Store, src: Id) returns (err: Option<StoreError>)
    requires s.Valid()
    modifies s
    ensures s.Valid()
    ensures var spec := Pruned(old(s.Idx()), src, MAX_FOLDER_DEPTH + 1);
            if spec.Err? then err == Some(spec.error) else err == None && s.Idx() == spec.value
  {
    hide IndexOk, DiskTree.Agrees, Eligible;
    ghost var spec := Pruned(s.Idx(), src, MAX_FOLDER_DEPTH + 1);
    var pass := 0;
    while pass <= MAX_FOLDER_DEPTH
      invariant s.Valid() && pass <= MAX_FOLDER_DEPTH + 1
      invariant spec == Pruned(s.Idx(), src, MAX_FOLDER_DEPTH + 1 - pass)
    {
      var deleted;
      label before:
      deleted, err := PrunePass(s, src);
      if err.Some? {
        return;
      }
      if !deleted {
        NoPass(old@before(s.Idx()), src);
        return None;
      }
      pass := pass + 1;
    }
    err := None;
  }

  lemma NoPass(idx: Index, src: Id)
    requires Eligible(idx, src) == {}
    ensures Without(idx, Eligible(idx, src)) == idx
  {
  }

  // ----------------------------------------------------------------- the records

  /** Every cached leaf is where its path leads. */
  ghost predicate CacheOk(env: Env, idx: Index, src: Id, cache: map<string, Id>) {
    forall path :: path in cache ==> PathParts(path).Some? && Resolves(env, idx, src, PathParts(path).value, cache[path])
  }

  lemma CacheStart(env: Env, idx: Index, src: Id)
    ensures CacheOk(env, idx, src, map["" := src])
  {
    assert SplitSlash("") == [""] && NonEmpty([""]) == [];
  }

  lemma CacheGrown(env: Env, idx: Index, r: Index, src: Id, cache: map<string, Id>)
    requires CacheOk(env, idx, src, cache) && Grown(idx, r, src)
    ensures CacheOk(env, r, src, cache)
  {
    hide PathParts, Grown;
    forall path | path in cache
      ensures PathParts(path).Some? && Resolves(env, r, src, PathParts(path).value, cache[path])
    {
      ResolvesGrown(env, idx, r, src, src, PathParts(path).value, cache[path]);
    }
  }

  /** A cached leaf is what the descent would find, creating nothing. */
  lemma CacheHit(env: Env, idx: Index, src: Id, cache: map<string, Id>, path: string)
    requires IndexOk(env, idx) && CacheOk(env, idx, src, cache) && path in cache
    ensures PathParts(path).Some? && Descend(env, idx, src, src, PathParts(path).value) == Ok((idx, cache[path]))
  {
    hide PathParts, FoldersOk;
    DescendExisting(env, idx, src, src, PathParts(path).value, cache[path]);
  }

  lemma CacheMore(env: Env, idx: Index, src: Id, cache: map<string, Id>, path: string, leaf: Id)
    requires CacheOk(env, idx, src, cache) && PathParts(path).Some? && Resolves(env, idx, src, PathParts(path).value, leaf)
    ensures CacheOk(env, idx, src, cache[path := leaf])
  {
    hide PathParts, Resolves;
  }

  /** The leaf folder of a record: from the cache, or created. The cache never changes the answer. */
  method LeafFor(s: Store, src: Id, cache: map<string, Id>, r: Record)
    returns (leaf: Id, cache': map<string, Id>, err: Option<StoreError>)
    requires s.Valid() && src in s.folders && CacheOk(s.env, s.Idx(), src, cache)
    modifies s
    ensures s.Valid()
    ensures var spec := EnsurePath(s.env, old(s.Idx()), src, r);
            if spec.Err? then err == Some(spec.error) else err == None && spec.value == (s.Idx(), leaf)
    ensures err.None? ==> CacheOk(s.env, s.Idx(), src, cache')
  {
    hide IndexOk, DiskTree.Agrees, PathParts, Descend, Resolves, Grown, CacheOk;
    cache' := cache;
    ghost var idx := s.Idx();
    var path := Trim(r.folder, Slash);
    if path in cache {
      CacheHit(s.env, idx, src, cache, path);
      return cache[path], cache, None;
    }
    leaf, err := EnsureFolderPath(s, src, path);
    if err.Some? {
      return;
    }
    DescendOk(s.env, idx, src, src, PathParts(path).value);
    CacheGrown(s.env, idx, s.Idx(), src, cache);
    CacheMore(s.env, s.Idx(), src, cache, path, leaf);
    cache' := cache[path := leaf];
  }

  /** Places one record: updates the session of its key, or adds one. */
  method PlaceRecord(s: Store, existing: map<string, Session>, src: Id, mode: By, leaf: Id, r: Record, ghost was: Index)
    returns (skipped: bool, err: Option<StoreError>, ghost fate: Fate)
    requires s.Valid() && StillThere(existing, s.Idx()) && EnsurePath(s.env, was, src, r) == Ok((s.Idx(), leaf))
    modifies s
    ensures s.Valid()
    ensures var spec := Place(s.env, was, existing, src, mode, r);
            if spec.Err? then err == Some(spec.error) else err == None && spec.value == (s.Idx(), fate)
    ensures err.None? ==> skipped == fate.Skipped? && (!skipped ==> (fate.Updated? <==> RecordKey(mode, r) in existing))
  {
    hide IndexOk, DiskTree.Agrees, EnsurePath, PutSession;
    var port := if r.port == 0 then 22 else r.port;
    var proto := if r.proto == "" then "ssh" else r.proto;
    var k := RecordKey(mode, r);
    skipped, fate := false, Skipped;
    if k in existing {
      var cur := existing[k];
      cur := cur.(name := r.name, folderId := leaf, host := r.host, port := port, user := r.user, proto := proto,
                  tags := r.tags, externalId := r.externalId, source := src);
      fate := Updated(cur.id);
      err := s.Put(cur);
    } else {
      var ns := Session("", r.name, leaf, r.host, port, r.user, proto, r.tags, "", src, r.externalId, 0, 0);
      fate := Added(s.env.ulid(s.tick));
      err := s.Put(ns);
    }
    if err == Some(Duplicate) {
      skipped, err, fate := true, None, Skipped;
    }
  }

  /** The generated sessions of the source by key; where two share a key, one of them. */
  method IndexGenerated(s: Store, src: Id, mode: By) returns (existing: map<string, Session>)
    requires s.Valid()
    ensures Indexes(existing, s.Idx(), src, mode)
  {
    hide FoldersOk, Apart, DiskTree.Agrees;
    existing := map[];
    var todo := s.sessions.Keys;
    while todo != {}
      invariant todo <= s.sessions.Keys
      invariant forall k :: k in existing ==>
                  existing[k].id in s.sessions && s.sessions[existing[k].id] == existing[k]
                  && existing[k].source == src && SessionKey(mode, existing[k]) == k
      invariant forall id :: id in s.sessions.Keys - todo && s.sessions[id].source == src ==>
                  SessionKey(mode, s.sessions[id]) in existing
      decreases todo
    {
      var id :| id in todo;
      var sess := s.sessions[id];
      if sess.source == src {
        OwnRecord(s.env, s.Idx(), id);
        existing := existing[SessionKey(mode, sess) := sess];
      }
      todo := todo - {id};
    }
  }

  lemma OwnRecord(env: Env, idx: Index, id: Id)
    requires SessionsOk(env, idx) && id in idx.sessions
    ensures idx.sessions[id].id == id
  {
    assert SessionOk(idx, id);
  }

  lemma {:induction false} PlaceAllErr(env: Env, idx: Index, existing: map<string, Session>, src: Id, mode: By,
                                       rs: seq<Record>, n: nat)
    requires n <= |rs| && PlaceAll(env, idx, existing, src, mode, rs[..n]).Err?
    ensures PlaceAll(env, idx, existing, src, mode, rs) == Err(PlaceAll(env, idx, existing, src, mode, rs[..n]).error)
    decreases |rs|
  {
    hide Place;
    if n == |rs| {
      assert rs[..n] == rs;
    } else {
      assert rs[..|rs| - 1][..n] == rs[..n];
      PlaceAllErr(env, idx, existing, src, mode, rs[..|rs| - 1], n);
    }
  }

  lemma PlaceNext(env: Env, idx0: Index, existing: map<string, Session>, src: Id, mode: By, rs: seq<Record>, i: nat,
                  mid: Index, fates: seq<Fate>)
    requires i < |rs| && PlaceAll(env, idx0, existing, src, mode, rs[..i]) == Ok((mid, fates))
    ensures var p := Place(env, mid, existing, src, mode, rs[i]);
            PlaceAll(env, idx0, existing, src, mode, rs[..i + 1])
            == if p.Err? then Err(p.error) else Ok((p.value.0, fates + [p.value.1]))
  {
    hide Place;
    assert rs[..i + 1][..i] == rs[..i];
  }

  lemma StillPlaced(env: Env, idx0: Index, existing: map<string, Session>, src: Id, mode: By, rs: seq<Record>)
    requires IndexOk(env, idx0) && src in idx0.folders && Indexes(existing, idx0, src, mode)
    requires PlaceAll(env, idx0, existing, src, mode, rs).Ok?
    ensures var (idx, fates) := PlaceAll(env, idx0, existing, src, mode, rs).value;
            src in idx.folders && StillThere(existing, idx) && IndexOk(env, idx) && |fates| == |rs|
  {
    hide FoldersOk, SessionsOk, Apart, Place, Placed, Indexes;
    NoEmptyId(env, idx0);
    PlaceAllOk(env, idx0, existing, src, mode, rs);
    var (idx, fates) := PlaceAll(env, idx0, existing, src, mode, rs).value;
    PlacedFacts(env, idx0, idx, existing, src, mode, rs, fates);
    PlacedLength(env, idx0, idx, existing, src, mode, rs, fates);
  }

  lemma PlacedLength(env: Env, idx0: Index, idx: Index, existing: map<string, Session>, src: Id, mode: By,
                     rs: seq<Record>, fates: seq<Fate>)
    requires Placed(env, idx0, idx, existing, src, mode, rs, fates)
    ensures |fates| == |rs|
  {
    hide IndexOk, Grown, OnlyFates, FateOk, Lands;
  }

  /** One record placed keeps the cache right. */
  lemma PlaceGrows(env: Env, was: Index, mid: Index, existing: map<string, Session>, src: Id, mode: By, leaf: Id,
                   r: Record, cache: map<string, Id>)
    requires IndexOk(env, mid) && EnsurePath(env, was, src, r) == Ok((mid, leaf)) && CacheOk(env, mid, src, cache)
    requires Place(env, was, existing, src, mode, r).Ok?
    ensures CacheOk(env, Place(env, was, existing, src, mode, r).value.0, src, cache)
  {
    hide IndexOk, EnsurePath, PutSession, CacheOk;
    var k := RecordKey(mode, r);
    var s := Patched(if k in existing then existing[k] else BLANK, r, leaf, src);
    if PutSession(env, mid, s).Ok? {
      PutGrows(env, mid, s, src);
      CacheGrown(env, mid, PutSession(env, mid, s).value, src, cache);
    }
  }

  lemma PutGrows(env: Env, idx: Index, s: Session, src: Id)
    requires PutSession(env, idx, s).Ok?
    ensures Grown(idx, PutSession(env, idx, s).value, src)
  {
    hide PutSession, SessionClash, SessionFileName, TrimSpace;
    var folder, fn := PutSessionIs(env, idx, s);
  }

  /** Places the records in order, counting; stops at the first error that is not a name clash. */
  method PlaceRecords(s: Store, existing: map<string, Session>, src: Id, mode: By, records: seq<Record>)
    returns (res: Report, seen: set<string>, err: Option<StoreError>, ghost fates: seq<Fate>)
    requires s.Valid() && src in s.folders && Indexes(existing, s.Idx(), src, mode)
    modifies s
    ensures s.Valid()
    ensures var spec := PlaceAll(s.env, old(s.Idx()), existing, src, mode, records);
            if spec.Err? then err == Some(spec.error) else err == None && spec.value == (s.Idx(), fates)
    ensures err.None? ==> res == Report(CountAdded(fates), CountUpdated(fates), 0, CountSkipped(fates))
    ensures err.None? ==> seen == KeysOf(mode, records)
  {
    hide IndexOk, DiskTree.Agrees, Place, PlaceAll, Indexes, CacheOk, StillThere, KeysOf;
    ghost var idx := s.Idx();
    var cache := map["" := src];
    CacheStart(s.env, idx, src);
    res, seen, fates, err := Report(0, 0, 0, 0), {}, [], None;
    NoRecords(s.env, idx, existing, src, mode, records);
    for i := 0 to |records|
      invariant s.Valid() && err.None?
      invariant PlaceAll(s.env, idx, existing, src, mode, records[..i]) == Ok((s.Idx(), fates))
      invariant CacheOk(s.env, s.Idx(), src, cache)
      invariant res == Report(CountAdded(fates), CountUpdated(fates), 0, CountSkipped(fates))
      invariant seen == KeysOf(mode, records[..i])
    {
      ghost var was := s.Idx();
      var r := records[i];
      var skipped;
      ghost var fate;
      StillPlaced(s.env, idx, existing, src, mode, records[..i]);
      PlaceNext(s.env, idx, existing, src, mode, records, i, was, fates);
      skipped, cache, err, fate := PlaceOne(s, existing, src, mode, cache, r);
      if err.Some? {
        PlaceAllErr(s.env, idx, existing, src, mode, records, i + 1);
        return;
      }
      MoreKeys(mode, records, i);
      seen := seen + {RecordKey(mode, r)};
      assert (fates + [fate])[..|fates|] == fates;
      if skipped {
        res := res.(skipped := res.skipped + 1);
      } else if RecordKey(mode, r) in existing {
        res := res.(updated := res.updated + 1);
      } else {
        res := res.(added := res.added + 1);
      }
      fates := fates + [fate];
    }
    assert records[..|records|] == records;
  }

  function KeysOf(mode: By, rs: seq<Record>): set<string> {
    set i | 0 <= i < |rs| :: RecordKey(mode, rs[i])
  }

  lemma MoreKeys(mode: By, rs: seq<Record>, i: nat)
    requires i < |rs|
    ensures KeysOf(mode, rs[..i + 1]) == KeysOf(mode, rs[..i]) + {RecordKey(mode, rs[i])}
  {
    assert rs[..i + 1] == rs[..i] + [rs[i]];
  }

  lemma NoRecords(env: Env, idx: Index, existing: map<string, Session>, src: Id, mode: By, rs: seq<Record>)
    ensures PlaceAll(env, idx, existing, src, mode, rs[..0]) == Ok((idx, [])) && KeysOf(mode, rs[..0]) == {}
  {
  }

  /** Finds a record's leaf folder and places the record there. */
  method PlaceOne(s: Store, existing: map<string, Session>, src: Id, mode: By, cache: map<string, Id>, r: Record)
    returns (skipped: bool, cache': map<string, Id>, err: Option<StoreError>, ghost fate: Fate)
    requires s.Valid() && src in s.folders && StillThere(existing, s.Idx()) && CacheOk(s.env, s.Idx(), src, cache)
    modifies s
    ensures s.Valid()
    ensures var spec := Place(s.env, old(s.Idx()), existing, src, mode, r);
            if spec.Err? then err == Some(spec.error) else err == None && spec.value == (s.Idx(), fate)
    ensures err.None? ==> skipped == fate.Skipped? && (!skipped ==> (fate.Updated? <==> RecordKey(mode, r) in existing))
    ensures err.None? ==> (skipped || fate.Updated? || fate.Added?) && CacheOk(s.env, s.Idx(), src, cache')
  {
    hide IndexOk, DiskTree.Agrees, Place, CacheOk, EnsurePath, StillThere;
    ghost var was := s.Idx();
    var leaf;
    skipped, fate := false, Skipped;
    leaf, cache', err := LeafFor(s, src, cache, r);
    if err.Some? {
      LeafErr(s.env, was, existing, src, mode, r);
      return;
    }
    ghost var mid := s.Idx();
    StillAfter(s.env, was, mid, existing, src, leaf, r);
    skipped, err, fate := PlaceRecord(s, existing, src, mode, leaf, r, was);
    if err.None? {
      PlaceGrows(s.env, was, mid, existing, src, mode, leaf, r, cache');
    }
  }

  lemma LeafErr(env: Env, was: Index, existing: map<string, Session>, src: Id, mode: By, r: Record)
    requires EnsurePath(env, was, src, r).Err?
    ensures Place(env, was, existing, src, mode, r) == Err(EnsurePath(env, was, src, r).error)
  {
    hide EnsurePath;
  }

  lemma StillAfter(env: Env, was: Index, mid: Index, existing: map<string, Session>, src: Id, leaf: Id, r: Record)
    requires IndexOk(env, was) && src in was.folders && StillThere(existing, was)
    requires EnsurePath(env, was, src, r) == Ok((mid, leaf))
    ensures StillThere(existing, mid)
  {
    hide IndexOk, FolderParts, Descend, Grown;
    DescendOk(env, was, src, src, FolderParts(r).value);
  }

  /** Every indexed session is there, each under one key. */
  ghost predicate Known(existing: map<string, Session>, idx: Index) {
    && (forall k :: k in existing ==> existing[k].id in idx.sessions)
    && (forall a, b :: a in existing && b in existing && existing[a].id == existing[b].id ==> a == b)
  }

  /** Deletes the sessions whose key no record had. */
  method RemoveStale(s: Store, existing: map<string, Session>, seen: set<string>) returns (removed: nat, err: Option<StoreError>)
    requires s.Valid()
    requires Known(existing, s.Idx())
    modifies s
    ensures s.Valid() && err == None && removed == |existing.Keys - seen|
    ensures s.Idx() == Dropped(old(s.Idx()), IdsOf(existing, existing.Keys - seen))
  {
    hide IndexOk, DiskTree.Agrees, Dropped, DeleteId, IdsOf, Known;
    ghost var idx := s.Idx();
    var todo := existing.Keys;
    removed := 0;
    ghost var gone: set<string> := {};
    DropNone(idx, existing);
    while todo != {}
      invariant s.Valid() && todo <= existing.Keys && gone == existing.Keys - seen - todo
      invariant s.Idx() == Dropped(idx, IdsOf(existing, gone)) && removed == |gone|
      decreases todo
    {
      var k :| k in todo;
      if k !in seen {
        DropOne(idx, existing, gone, k);
        err := s.Delete(existing[k].id);
        removed := removed + 1;
        gone := gone + {k};
      }
      todo := todo - {k};
    }
    assert gone == existing.Keys - seen;
    err := None;
  }

  lemma DropNone(idx: Index, existing: map<string, Session>)
    ensures Dropped(idx, IdsOf(existing, {})) == idx
  {
  }

  lemma DropOne(idx: Index, existing: map<string, Session>, gone: set<string>, k: string)
    requires gone <= existing.Keys && k in existing && k !in gone && Known(existing, idx)
    ensures DeleteId(Dropped(idx, IdsOf(existing, gone)), existing[k].id) == Ok(Dropped(idx, IdsOf(existing, gone + {k})))
  {
    var r := Dropped(idx, IdsOf(existing, gone));
    assert IdsOf(existing, gone + {k}) == IdsOf(existing, gone) + {existing[k].id};
    assert r.sessions - {existing[k].id} == idx.sessions - IdsOf(existing, gone + {k});
    assert r.sessionFile - {existing[k].id} == idx.sessionFile - IdsOf(existing, gone + {k});
  }

  /** Makes the source's generated sessions match the records: exactly as specified, on the store and its disk. */
  method ReconcileFolderSessions(s: Store, src: Id, records: seq<Record>, mode: By)
    returns (res: Report, err: Option<StoreError>, ghost existing: map<string, Session>)
    requires s.Valid()
    modifies s
    ensures s.Valid()
    ensures src in old(s.folders) ==> Indexes(existing, old(s.Idx()), src, mode)
    ensures var spec := Reconciled(s.env, old(s.Idx()), existing, src, mode, records);
            if spec.Err? then err == Some(spec.error) else err == None && spec.value == (s.Idx(), res)
  {
    hide IndexOk, DiskTree.Agrees, PlaceAll, Pruned, Indexes, Dropped, StillThere, IdsOf, StaleKeys, KeysOf, Known;
    res, existing := Report(0, 0, 0, 0), map[];
    if src !in s.folders {
      return res, Some(NotFound), existing;
    }
    ghost var idx := s.Idx();
    var found := IndexGenerated(s, src, mode);
    existing := found;
    var seen;
    ghost var fates;
    res, seen, err, fates := PlaceRecords(s, found, src, mode, records);
    if err.Some? {
      return;
    }
    StillPlaced(s.env, idx, found, src, mode, records);
    FoundStill(found, idx, s.Idx(), src, mode);
    var removed;
    removed, err := RemoveStale(s, found, seen);
    UnseenAreStale(found, mode, records);
    res := res.(removed := removed);
    err := PruneGeneratedFolders(s, src);
  }

  lemma UnseenAreStale(existing: map<string, Session>, mode: By, rs: seq<Record>)
    ensures existing.Keys - KeysOf(mode, rs) == StaleKeys(existing, mode, rs)
  {
  }

  lemma FoundStill(existing: map<string, Session>, idx: Index, mid: Index, src: Id, mode: By)
    requires Indexes(existing, idx, src, mode) && StillThere(existing, mid)
    ensures Known(existing, mid)
  {
  }
}
