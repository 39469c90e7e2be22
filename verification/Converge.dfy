/** Reconcile as a whole: it converges to the records, and a second run with the same records changes nothing. */
module Converge {
  import opened Wrappers
  import opened StoreNames
  import opened StoreIndex
  import opened StoreMove
  import opened Prune
  import opened Reconcile

  predicate IsRecordKey(mode: By, rs: seq<Record>, k: string) {
    exists i :: 0 <= i < |rs| && RecordKey(mode, rs[i]) == k
  }

  /** The keys whose session no record names. */
  function StaleKeys(existing: map<string, Session>, mode: By, rs: seq<Record>): set<string> {
    set k | k in existing && !IsRecordKey(mode, rs, k)
  }

  function IdsOf(existing: map<string, Session>, keys: set<string>): set<Id>
    requires keys <= existing.Keys
  {
    set k | k in keys :: existing[k].id
  }

  function Dropped(idx: Index, ids: set<Id>): Index {
    idx.(sessions := idx.sessions - ids, sessionFile := idx.sessionFile - ids)
  }

  function CountAdded(fates: seq<Fate>): nat {
    if fates == [] then 0 else CountAdded(fates[..|fates| - 1]) + if fates[|fates| - 1].Added? then 1 else 0
  }

  function CountUpdated(fates: seq<Fate>): nat {
    if fates == [] then 0 else CountUpdated(fates[..|fates| - 1]) + if fates[|fates| - 1].Updated? then 1 else 0
  }

  function CountSkipped(fates: seq<Fate>): nat {
    if fates == [] then 0 else CountSkipped(fates[..|fates| - 1]) + if fates[|fates| - 1].Skipped? then 1 else 0
  }

  /** The whole reconcile: place every record, drop the stale sessions, prune. */
  ghost function Reconciled(env: Env, idx: Index, existing: map<string, Session>, src: Id, mode: By, rs: seq<Record>)
    : Result<(Index, Report), StoreError>
  {
    if src !in idx.folders then Err(NotFound)
    else
      match PlaceAll(env, idx, existing, src, mode, rs)
      case Err(e) => Err(e)
      case Ok((mid, fates)) =>
        var stale := StaleKeys(existing, mode, rs);
        match Pruned(Dropped(mid, IdsOf(existing, stale)), src, MAX_FOLDER_DEPTH + 1)
        case Err(e) => Err(e)
        case Ok(done) => Ok((done, Report(CountAdded(fates), CountUpdated(fates), |stale|, CountSkipped(fates))))
  }

  ghost predicate Generated(idx: Index, src: Id, mode: By, k: string, id: Id) {
    id in idx.sessions && idx.sessions[id].source == src && SessionKey(mode, idx.sessions[id]) == k
  }

  /** The generated sessions have pairwise distinct keys. */
  ghost predicate DistinctGenerated(idx: Index, src: Id, mode: By) {
    forall k, a, b :: Generated(idx, src, mode, k, a) && Generated(idx, src, mode, k, b) ==> a == b
  }

  /** Exactly one generated session has the record's key, and it is where and what the record says. */
  ghost predicate Matched(env: Env, idx: Index, src: Id, mode: By, r: Record, id: Id) {
    && Lands(env, idx, src, r, id)
    && forall b :: Generated(idx, src, mode, RecordKey(mode, r), b) <==> b == id
  }

  lemma LandedKey(env: Env, idx: Index, src: Id, mode: By, r: Record, id: Id)
    requires Lands(env, idx, src, r, id)
    ensures Generated(idx, src, mode, RecordKey(mode, r), id)
  {
    hide Resolves, FolderParts, SessionFileName;
  }

  // ---------------------------------------------------------- after the records

  /** A generated session after placing: an old one of its key that no record updated, or a record's. */
  lemma WhoseSession(env: Env, idx0: Index, mid: Index, existing: map<string, Session>, src: Id, mode: By,
                     rs: seq<Record>, fates: seq<Fate>, id: Id) returns (i: int)
    requires Placed(env, idx0, mid, existing, src, mode, rs, fates) && Agreeing(env, existing, mode, rs) && id in mid.sessions
    ensures -1 <= i < |rs|
    ensures i == -1 ==> SameSession(idx0, mid, id) && Updated(id) !in fates
    ensures i >= 0 ==> !fates[i].Skipped? && IdOf(fates[i]) == id && Lands(env, mid, src, rs[i], id)
  {
    hide IndexOk, Grown, Lands, FateOk;
    if Updated(id) in fates {
      i :| 0 <= i < |fates| && fates[i] == Updated(id);
    } else if id in idx0.sessions {
      i := -1;
    } else {
      i :| 0 <= i < |fates| && fates[i] == Added(id);
    }
  }

  /** The one generated session of a placed record's key. */
  lemma OnlyMatch(env: Env, idx0: Index, mid: Index, existing: map<string, Session>, src: Id, mode: By,
                  rs: seq<Record>, fates: seq<Fate>, i: nat, id: Id)
    requires Placed(env, idx0, mid, existing, src, mode, rs, fates) && Agreeing(env, existing, mode, rs)
    requires Indexes(existing, idx0, src, mode) && DistinctGenerated(idx0, src, mode)
    requires i < |rs| && !fates[i].Skipped? && Generated(mid, src, mode, RecordKey(mode, rs[i]), id)
    ensures id == IdOf(fates[i])
  {
    hide IndexOk, Grown, Lands, OnlyFates;
    var j := WhoseSession(env, idx0, mid, existing, src, mode, rs, fates, id);
    if j >= 0 {
      LandedKey(env, mid, src, mode, rs[j], id);
    } else {
      assert Generated(idx0, src, mode, RecordKey(mode, rs[i]), id);
      ByKey(idx0, existing, src, mode, RecordKey(mode, rs[i]), id);
      assert FateOk(idx0, mid, existing, mode, rs[i], fates[i]);
    }
  }

  /** With distinct keys the reconcile found every generated session. */
  lemma ByKey(idx: Index, existing: map<string, Session>, src: Id, mode: By, k: string, id: Id)
    requires Indexes(existing, idx, src, mode) && DistinctGenerated(idx, src, mode) && Generated(idx, src, mode, k, id)
    ensures k in existing && existing[k].id == id
  {
    assert Generated(idx, src, mode, k, existing[k].id);
  }

  /** The stale sessions are old generated ones, and no placed record's. */
  lemma StaleApart(env: Env, idx0: Index, mid: Index, existing: map<string, Session>, src: Id, mode: By,
                   rs: seq<Record>, fates: seq<Fate>)
    requires Placed(env, idx0, mid, existing, src, mode, rs, fates) && Indexes(existing, idx0, src, mode)
    ensures forall i :: 0 <= i < |rs| && !fates[i].Skipped? ==>
              IdOf(fates[i]) !in IdsOf(existing, StaleKeys(existing, mode, rs))
    ensures forall id :: id in IdsOf(existing, StaleKeys(existing, mode, rs)) ==>
              id in idx0.sessions && idx0.sessions[id].source == src
  {
    hide IndexOk, Grown, Lands, OnlyFates;
    forall i | 0 <= i < |rs| && !fates[i].Skipped?
      ensures IdOf(fates[i]) !in IdsOf(existing, StaleKeys(existing, mode, rs))
    {
      assert FateOk(idx0, mid, existing, mode, rs[i], fates[i]);
      assert IsRecordKey(mode, rs, RecordKey(mode, rs[i]));
    }
  }

  // --------------------------------------------------------------- after pruning

  /** Where the path leads lies below where it starts. */
  lemma {:induction false} ResolvesBelow(env: Env, idx: Index, parent: Id, parts: seq<string>, leaf: Id)
    requires FoldersOk(env, idx) && parent in idx.folders && Resolves(env, idx, parent, parts, leaf)
    ensures AtOrBelow(idx, parent, leaf) && leaf in idx.folders
    decreases |parts|
  {
    KnownDir(env, idx, parent);
    if parts != [] {
      var k :| IsChildNamed(env, idx, parent, parts[0], k) && Resolves(env, idx, k, parts[1..], leaf);
      ResolvesBelow(env, idx, k, parts[1..], leaf);
      ChildBelow(env, idx, parent, k);
      Below(idx, parent, k, leaf);
    }
  }

  lemma ChildBelow(env: Env, idx: Index, parent: Id, k: Id)
    requires FoldersOk(env, idx) && parent in idx.folders && k in idx.folders && idx.folders[k].parentId == parent
    ensures AtOrBelow(idx, parent, k) && |idx.folderDir[k]| == |idx.folderDir[parent]| + 1
  {
    NoEmptyId(env, idx);
    assert FolderOk(idx, k);
  }

  /** A path to a folder with sessions survives pruning. */
  lemma {:induction false} ResolvesPruned(env: Env, idx: Index, src: Id, n: nat, parent: Id, parts: seq<string>, leaf: Id)
    requires IndexOk(env, idx) && Pruned(idx, src, n).Ok? && parent in idx.folders
    requires Resolves(env, idx, parent, parts, leaf) && HasSession(idx, leaf)
    ensures Resolves(env, Pruned(idx, src, n).value, parent, parts, leaf)
    ensures parent in Pruned(idx, src, n).value.folders && leaf in Pruned(idx, src, n).value.folders
    decreases |parts|
  {
    hide FoldersOk, SessionsOk, Apart, Pruned, HasSession, Supported, AtOrBelow;
    PrunedKeeps(env, idx, src, n);
    ResolvesBelow(env, idx, parent, parts, leaf);
    Supports(idx, src, parent, leaf);
    PrunedExact(env, idx, src, n, parent);
    if parts != [] {
      var k :| IsChildNamed(env, idx, parent, parts[0], k) && Resolves(env, idx, k, parts[1..], leaf);
      ResolvesPruned(env, idx, src, n, k, parts[1..], leaf);
      assert IsChildNamed(env, Pruned(idx, src, n).value, parent, parts[0], k);
    }
  }

  lemma Supports(idx: Index, src: Id, id: Id, leaf: Id)
    requires AtOrBelow(idx, id, leaf) && leaf in idx.folders && HasSession(idx, leaf)
    ensures Supported(idx, src, id)
  {
    assert Worth(idx, src, leaf);
  }

  lemma LandsPruned(env: Env, idx: Index, src: Id, n: nat, r: Record, id: Id)
    requires IndexOk(env, idx) && Pruned(idx, src, n).Ok? && src in idx.folders && Lands(env, idx, src, r, id)
    ensures Lands(env, Pruned(idx, src, n).value, src, r, id)
  {
    hide FoldersOk, SessionsOk, Apart, Pruned, FolderParts, SessionFileName, TrimSpace, Resolves;
    var leaf := idx.sessions[id].folderId;
    PrunedKeeps(env, idx, src, n);
    ResolvesPruned(env, idx, src, n, src, FolderParts(r).value, leaf);
    KnownDir(env, Pruned(idx, src, n).value, leaf);
  }

  lemma LandsDropped(env: Env, idx: Index, ids: set<Id>, src: Id, r: Record, id: Id)
    requires Lands(env, idx, src, r, id) && id !in ids
    ensures Lands(env, Dropped(idx, ids), src, r, id)
  {
    hide FolderParts, SessionFileName, TrimSpace;
    ResolvesGrown(env, idx, Dropped(idx, ids), src, src, FolderParts(r).value, idx.sessions[id].folderId);
  }

  // ---------------------------------------------------------------- convergence

  /** Hand-made sessions and those of other sources are the same ones, untouched. */
  ghost predicate OthersSame(a: Index, b: Index, src: Id) {
    forall id :: (id in a.sessions && a.sessions[id].source != src) || (id in b.sessions && b.sessions[id].source != src)
      ==> SameSession(a, b, id)
  }

  /** The stages of a successful reconcile: the records are placed, the stale sessions dropped, the folders pruned. */
  ghost predicate Stages(env: Env, idx0: Index, mid: Index, done: Index, existing: map<string, Session>, src: Id, mode: By,
                         rs: seq<Record>, fates: seq<Fate>) {
    && Placed(env, idx0, mid, existing, src, mode, rs, fates)
    && Pruned(Dropped(mid, IdsOf(existing, StaleKeys(existing, mode, rs))), src, MAX_FOLDER_DEPTH + 1) == Ok(done)
  }

  lemma StagesOf(env: Env, idx0: Index, existing: map<string, Session>, src: Id, mode: By, rs: seq<Record>)
    returns (mid: Index, fates: seq<Fate>)
    requires IndexOk(env, idx0) && Indexes(existing, idx0, src, mode)
    requires Reconciled(env, idx0, existing, src, mode, rs).Ok?
    ensures PlaceAll(env, idx0, existing, src, mode, rs) == Ok((mid, fates)) && src in idx0.folders
    ensures Stages(env, idx0, mid, Reconciled(env, idx0, existing, src, mode, rs).value.0, existing, src, mode, rs, fates)
    ensures Reconciled(env, idx0, existing, src, mode, rs).value.1
         == Report(CountAdded(fates), CountUpdated(fates), |StaleKeys(existing, mode, rs)|, CountSkipped(fates))
  {
    hide FoldersOk, SessionsOk, Apart, PlaceAll, Pruned, Placed, Indexes;
    NoEmptyId(env, idx0);
    var placed := PlaceAll(env, idx0, existing, src, mode, rs).value;
    mid, fates := placed.0, placed.1;
    PlaceAllOk(env, idx0, existing, src, mode, rs);
  }

  /** What dropping and pruning leave of the sessions and of the source folder. */
  lemma Finished(env: Env, idx0: Index, mid: Index, done: Index, existing: map<string, Session>, src: Id, mode: By,
                 rs: seq<Record>, fates: seq<Fate>)
    requires Stages(env, idx0, mid, done, existing, src, mode, rs, fates) && src in idx0.folders
    ensures var ids := IdsOf(existing, StaleKeys(existing, mode, rs));
            && IndexOk(env, mid) && IndexOk(env, Dropped(mid, ids)) && IndexOk(env, done) && src in mid.folders
            && done.sessions == mid.sessions - ids && done.sessionFile == mid.sessionFile - ids
            && done.rootId == mid.rootId && done.tick == mid.tick
  {
    hide IndexOk, Pruned, OnlyFates, FateOk, Lands;
    var ids := IdsOf(existing, StaleKeys(existing, mode, rs));
    WithoutSessions(env, mid, ids);
    PrunedKeeps(env, Dropped(mid, ids), src, MAX_FOLDER_DEPTH + 1);
  }

  lemma Matches(env: Env, idx0: Index, mid: Index, done: Index, existing: map<string, Session>, src: Id, mode: By,
                rs: seq<Record>, fates: seq<Fate>, i: nat)
    requires Stages(env, idx0, mid, done, existing, src, mode, rs, fates) && src in idx0.folders
    requires Indexes(existing, idx0, src, mode) && Agreeing(env, existing, mode, rs) && DistinctGenerated(idx0, src, mode)
    requires i < |rs| && |fates| == |rs| && !fates[i].Skipped?
    ensures Matched(env, done, src, mode, rs[i], IdOf(fates[i]))
  {
    hide IndexOk, Grown, Lands, OnlyFates, FateOk, Indexes, DistinctGenerated, Agreeing, Placed, Pruned;
    var ids := IdsOf(existing, StaleKeys(existing, mode, rs));
    var id := IdOf(fates[i]);
    Finished(env, idx0, mid, done, existing, src, mode, rs, fates);
    StaleApart(env, idx0, mid, existing, src, mode, rs, fates);
    LandsAt(env, idx0, mid, existing, src, mode, rs, fates, i);
    LandsDropped(env, mid, ids, src, rs[i], id);
    LandsPruned(env, Dropped(mid, ids), src, MAX_FOLDER_DEPTH + 1, rs[i], id);
    LandedKey(env, done, src, mode, rs[i], id);
    forall b | Generated(done, src, mode, RecordKey(mode, rs[i]), b) ensures b == id {
      OnlyMatch(env, idx0, mid, existing, src, mode, rs, fates, i, b);
    }
  }

  lemma LandsAt(env: Env, idx0: Index, mid: Index, existing: map<string, Session>, src: Id, mode: By,
                rs: seq<Record>, fates: seq<Fate>, i: nat)
    requires Placed(env, idx0, mid, existing, src, mode, rs, fates) && Agreeing(env, existing, mode, rs)
    requires i < |rs| && !fates[i].Skipped?
    ensures Lands(env, mid, src, rs[i], IdOf(fates[i]))
  {
    hide Lands, IndexOk, Grown, OnlyFates, FateOk;
  }

  /** A generated session that is left has a record of its key. */
  lemma NoStale(env: Env, idx0: Index, mid: Index, done: Index, existing: map<string, Session>, src: Id, mode: By,
                rs: seq<Record>, fates: seq<Fate>, id: Id)
    requires Stages(env, idx0, mid, done, existing, src, mode, rs, fates) && src in idx0.folders
    requires Indexes(existing, idx0, src, mode) && Agreeing(env, existing, mode, rs) && DistinctGenerated(idx0, src, mode)
    requires id in done.sessions && done.sessions[id].source == src
    ensures IsRecordKey(mode, rs, SessionKey(mode, done.sessions[id]))
  {
    hide IndexOk, Grown, Lands, OnlyFates, FateOk, Indexes, DistinctGenerated, Agreeing, Placed, Pruned;
    Finished(env, idx0, mid, done, existing, src, mode, rs, fates);
    var i := WhoseSession(env, idx0, mid, existing, src, mode, rs, fates, id);
    var k := SessionKey(mode, done.sessions[id]);
    if i >= 0 {
      LandedKey(env, mid, src, mode, rs[i], id);
    } else {
      ByKey(idx0, existing, src, mode, k, id);
      assert k !in StaleKeys(existing, mode, rs);
    }
  }

  lemma OthersStay(env: Env, idx0: Index, mid: Index, done: Index, existing: map<string, Session>, src: Id, mode: By,
                   rs: seq<Record>, fates: seq<Fate>, id: Id)
    requires Stages(env, idx0, mid, done, existing, src, mode, rs, fates) && src in idx0.folders
    requires Indexes(existing, idx0, src, mode) && Agreeing(env, existing, mode, rs) && IndexOk(env, idx0)
    requires (id in idx0.sessions && idx0.sessions[id].source != src) || (id in done.sessions && done.sessions[id].source != src)
    ensures SameSession(idx0, done, id)
  {
    hide IndexOk, Grown, Lands, FateOk, Agreeing, Placed, Pruned;
    Finished(env, idx0, mid, done, existing, src, mode, rs, fates);
    StaleApart(env, idx0, mid, existing, src, mode, rs, fates);
    KeptIds(env, idx0, mid, existing, src, mode, rs, fates);
    var i := WhoseSession(env, idx0, mid, existing, src, mode, rs, fates, id);
    if i >= 0 {
      LandedKey(env, mid, src, mode, rs[i], id);
      FateSource(env, idx0, mid, existing, src, mode, rs, fates, i);
    }
  }

  lemma KeptIds(env: Env, idx0: Index, mid: Index, existing: map<string, Session>, src: Id, mode: By,
                rs: seq<Record>, fates: seq<Fate>)
    requires Placed(env, idx0, mid, existing, src, mode, rs, fates)
    ensures forall id :: id in idx0.sessions ==> id in mid.sessions
  {
    hide IndexOk, Grown, Lands, FateOk;
  }

  /** A placed record's session, if old, was a generated one. */
  lemma FateSource(env: Env, idx0: Index, mid: Index, existing: map<string, Session>, src: Id, mode: By,
                   rs: seq<Record>, fates: seq<Fate>, i: nat)
    requires Placed(env, idx0, mid, existing, src, mode, rs, fates) && Indexes(existing, idx0, src, mode)
    requires i < |rs| && !fates[i].Skipped? && IdOf(fates[i]) in idx0.sessions
    ensures idx0.sessions[IdOf(fates[i])].source == src
  {
    hide IndexOk, Grown, Lands, OnlyFates;
    assert FateOk(idx0, mid, existing, mode, rs[i], fates[i]);
  }

  // ------------------------------------------------------------------- counting

  function AddedIds(fates: seq<Fate>): set<Id> {
    set i | 0 <= i < |fates| && fates[i].Added? :: fates[i].id
  }

  lemma {:induction false} CountsSum(fates: seq<Fate>)
    ensures CountAdded(fates) + CountUpdated(fates) + CountSkipped(fates) == |fates|
  {
    if fates != [] {
      CountsSum(fates[..|fates| - 1]);
    }
  }

  /** No record skipped. */
  lemma {:induction false} NoneSkipped(fates: seq<Fate>)
    requires CountSkipped(fates) == 0
    ensures forall i :: 0 <= i < |fates| ==> !fates[i].Skipped?
  {
    if fates != [] {
      NoneSkipped(fates[..|fates| - 1]);
      assert forall i :: 0 <= i < |fates| - 1 ==> fates[i] == fates[..|fates| - 1][i];
    }
  }

  lemma {:induction false} AddedCount(fates: seq<Fate>)
    requires forall i, j :: 0 <= i < j < |fates| && fates[i].Added? ==> fates[i] != fates[j]
    ensures |AddedIds(fates)| == CountAdded(fates)
  {
    if fates != [] {
      var init, f := fates[..|fates| - 1], fates[|fates| - 1];
      AddedCount(init);
      if f.Added? {
        assert AddedIds(fates) == AddedIds(init) + {f.id} && f.id !in AddedIds(init);
      } else {
        assert AddedIds(fates) == AddedIds(init);
      }
    }
  }

  lemma {:induction false} IdsCount(existing: map<string, Session>, keys: set<string>)
    requires keys <= existing.Keys && forall a, b :: a in keys && b in keys && existing[a].id == existing[b].id ==> a == b
    ensures |IdsOf(existing, keys)| == |keys|
    decreases keys
  {
    if keys != {} {
      var k :| k in keys;
      IdsCount(existing, keys - {k});
      assert IdsOf(existing, keys) == IdsOf(existing, keys - {k}) + {existing[k].id};
    }
  }

  lemma SizeOfKeys<T>(m: map<Id, T>)
    ensures |m| == |m.Keys|
  {
    var items := m;
    assert |items.Keys| == |items|;
  }

  lemma MinusSize(a: set<Id>, b: set<Id>)
    requires b <= a
    ensures |a - b| == |a| - |b|
  {
    assert a == (a - b) + b;
  }

  /** Conservation: what was there, plus the added, minus the removed. */
  lemma SessionCount(env: Env, idx0: Index, mid: Index, done: Index, existing: map<string, Session>, src: Id, mode: By,
                     rs: seq<Record>, fates: seq<Fate>)
    requires Stages(env, idx0, mid, done, existing, src, mode, rs, fates) && src in idx0.folders
    requires Indexes(existing, idx0, src, mode)
    ensures |done.sessions| == |idx0.sessions| + CountAdded(fates) - |StaleKeys(existing, mode, rs)|
  {
    hide IndexOk, Grown, Lands, Pruned, Placed, Indexes;
    var stale := StaleKeys(existing, mode, rs);
    var ids := IdsOf(existing, stale);
    Finished(env, idx0, mid, done, existing, src, mode, rs, fates);
    StaleApart(env, idx0, mid, existing, src, mode, rs, fates);
    MidKeys(env, idx0, mid, existing, src, mode, rs, fates);
    KeysDistinct(existing, idx0, src, mode);
    AddedCount(fates);
    IdsCount(existing, stale);
    MinusSize(mid.sessions.Keys, AddedIds(fates));
    assert mid.sessions.Keys - AddedIds(fates) == idx0.sessions.Keys;
    MinusSize(mid.sessions.Keys, ids);
    assert done.sessions.Keys == mid.sessions.Keys - ids;
    SizeOfKeys(done.sessions);
    SizeOfKeys(idx0.sessions);
  }

  lemma KeysDistinct(existing: map<string, Session>, idx: Index, src: Id, mode: By)
    requires Indexes(existing, idx, src, mode)
    ensures forall a, b :: a in existing && b in existing && existing[a].id == existing[b].id ==> a == b
  {
  }

  lemma MidKeys(env: Env, idx0: Index, mid: Index, existing: map<string, Session>, src: Id, mode: By,
                rs: seq<Record>, fates: seq<Fate>)
    requires Placed(env, idx0, mid, existing, src, mode, rs, fates)
    ensures mid.sessions.Keys == idx0.sessions.Keys + AddedIds(fates) && idx0.sessions.Keys !! AddedIds(fates)
    ensures forall i, j :: 0 <= i < j < |fates| && fates[i].Added? ==> fates[i] != fates[j]
  {
    hide IndexOk, Grown, Lands;
    forall id | id in AddedIds(fates) ensures id in mid.sessions && id !in idx0.sessions {
      var i :| 0 <= i < |fates| && fates[i].Added? && fates[i].id == id;
      assert FateOk(idx0, mid, existing, mode, rs[i], fates[i]);
    }
    forall id | id in mid.sessions && id !in idx0.sessions ensures id in AddedIds(fates) {
      var i :| 0 <= i < |fates| && fates[i] == Added(id);
    }
  }

  // ---------------------------------------------------------------- the theorems

  /**
   * A successful reconcile with pairwise distinct keys: each record not skipped has exactly one
   * generated session, normalized and in its leaf folder; no generated session is without a
   * record; all other sessions are untouched; the numbers add up.
   */
  lemma Converges(env: Env, idx0: Index, existing: map<string, Session>, src: Id, mode: By, rs: seq<Record>)
    returns (fates: seq<Fate>)
    requires IndexOk(env, idx0) && Indexes(existing, idx0, src, mode)
    requires Agreeing(env, existing, mode, rs) && DistinctGenerated(idx0, src, mode)
    requires Reconciled(env, idx0, existing, src, mode, rs).Ok?
    ensures var (done, report) := Reconciled(env, idx0, existing, src, mode, rs).value;
            && IndexOk(env, done) && |fates| == |rs|
            && PlaceAll(env, idx0, existing, src, mode, rs).Ok? && PlaceAll(env, idx0, existing, src, mode, rs).value.1 == fates
            && (forall i :: 0 <= i < |rs| && !fates[i].Skipped? ==> Matched(env, done, src, mode, rs[i], IdOf(fates[i])))
            && (forall id :: id in done.sessions && done.sessions[id].source == src ==>
                  IsRecordKey(mode, rs, SessionKey(mode, done.sessions[id])))
            && OthersSame(idx0, done, src)
            && report.skipped == CountSkipped(fates)
            && report.added + report.updated + report.skipped == |rs|
            && |done.sessions| == |idx0.sessions| + report.added - report.removed
  {
    hide IndexOk, Indexes, Agreeing, DistinctGenerated, Matched, Stages, Reconciled, PlaceAll, IsRecordKey, SameSession,
         Placed;
    var (done, report) := Reconciled(env, idx0, existing, src, mode, rs).value;
    var mid;
    mid, fates := StagesOf(env, idx0, existing, src, mode, rs);
    Finished(env, idx0, mid, done, existing, src, mode, rs, fates);
    CountsSum(fates);
    SessionCount(env, idx0, mid, done, existing, src, mode, rs, fates);
    FatesLength(env, idx0, mid, done, existing, src, mode, rs, fates);
    forall i | 0 <= i < |rs| && !fates[i].Skipped? ensures Matched(env, done, src, mode, rs[i], IdOf(fates[i])) {
      Matches(env, idx0, mid, done, existing, src, mode, rs, fates, i);
    }
    forall id | id in done.sessions && done.sessions[id].source == src
      ensures IsRecordKey(mode, rs, SessionKey(mode, done.sessions[id]))
    {
      NoStale(env, idx0, mid, done, existing, src, mode, rs, fates, id);
    }
    forall id | (id in idx0.sessions && idx0.sessions[id].source != src)
                || (id in done.sessions && done.sessions[id].source != src)
      ensures SameSession(idx0, done, id)
    {
      OthersStay(env, idx0, mid, done, existing, src, mode, rs, fates, id);
    }
  }

  lemma FatesLength(env: Env, idx0: Index, mid: Index, done: Index, existing: map<string, Session>, src: Id, mode: By,
                    rs: seq<Record>, fates: seq<Fate>)
    requires Stages(env, idx0, mid, done, existing, src, mode, rs, fates)
    ensures |fates| == |rs|
  {
    hide IndexOk, Grown, Lands, OnlyFates, FateOk, Pruned;
  }
}
