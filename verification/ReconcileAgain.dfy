/** A second reconcile with the same records changes nothing but revisions and timestamps. */
module ReconcileAgain {
  import opened Wrappers
  import opened StoreNames
  import opened StoreIndex
  import opened StoreMove
  import opened Prune
  import opened Reconcile
  import opened Converge

  predicate SameButStampAt(s: Session, t: Session) {
    t == s.(revision := t.revision, updatedAt := t.updatedAt)
  }

  /** The same folders, paths and sessions, save for revisions and timestamps. */
  ghost predicate SameButStamp(a: Index, b: Index) {
    && b == a.(sessions := b.sessions, tick := b.tick) && b.tick >= a.tick
    && b.sessions.Keys == a.sessions.Keys
    && forall id :: id in a.sessions ==> SameButStampAt(a.sessions[id], b.sessions[id])
  }

  lemma StampTrans(a: Index, b: Index, c: Index)
    requires SameButStamp(a, b) && SameButStamp(b, c)
    ensures SameButStamp(a, c)
  {
    forall id | id in a.sessions ensures SameButStampAt(a.sessions[id], c.sessions[id]) {
      assert SameButStampAt(a.sessions[id], b.sessions[id]) && SameButStampAt(b.sessions[id], c.sessions[id]);
    }
  }

  // ----------------------------------------------------------------- one record

  /** A stored session does not clash with itself. */
  lemma NoClash(env: Env, idx: Index, id: Id, name: string)
    requires IndexOk(env, idx) && id in idx.sessions && name == idx.sessions[id].name
    ensures id in idx.sessionFile && !SessionClash(env, idx, id, idx.sessions[id].folderId, name, idx.sessionFile[id])
    ensures idx.sessionFile[id] !in idx.folderDir.Values
  {
    hide FoldersOk;
    forall k | k in idx.sessions && k != id && idx.sessions[k].folderId == idx.sessions[id].folderId
      ensures !env.EqualFold(idx.sessions[k].name, name)
    {
      assert !SameSessionName(env, idx.sessions[k], idx.sessions[id]);
    }
  }

  /** Storing a session's own record again under its own name bumps revision and timestamp only. */
  lemma PutAgain(env: Env, idx: Index, s: Session, id: Id)
    requires IndexOk(env, idx) && id in idx.sessions && SameButStampAt(s, idx.sessions[id]) && s.proto != ""
    requires TrimSpace(s.name) != "" && SessionFileName(s.name).Some? && s.folderId in idx.folderDir
    requires id in idx.sessionFile && idx.sessionFile[id] == idx.folderDir[s.folderId] + [SessionFileName(s.name).value]
    ensures PutSession(env, idx, s).Ok?
    ensures IndexOk(env, PutSession(env, idx, s).value) && SameButStamp(idx, PutSession(env, idx, s).value)
  {
    hide FoldersOk, SessionsOk, Apart, SessionClash, SessionFileName, TrimSpace;
    OwnId(env, idx, id);
    KeysAgree(env, idx);
    NoEmptyId(env, idx);
    NoClash(env, idx, id, s.name);
    PutSessionOk(env, idx, s);
    var target := idx.sessionFile[id];
    assert PutSession(env, idx, s) == Ok(WithSession(idx, Stored(env, idx, s, s.folderId), target));
    assert idx.sessionFile[id := target] == idx.sessionFile;
  }

  lemma OwnId(env: Env, idx: Index, id: Id)
    requires IndexOk(env, idx) && id in idx.sessions
    ensures idx.sessions[id].id == id && id != ""
  {
    assert SessionOk(idx, id);
  }

  /** A record that already landed is updated in place: no folder, file or other session changes. */
  lemma PlaceAgain(env: Env, idx: Index, cur: Index, again: map<string, Session>, src: Id, mode: By, r: Record, id: Id)
    requires IndexOk(env, idx) && IndexOk(env, cur) && SameButStamp(idx, cur) && Lands(env, idx, src, r, id)
    requires RecordKey(mode, r) in again && again[RecordKey(mode, r)] == idx.sessions[id]
    ensures var p := Place(env, cur, again, src, mode, r);
            && p.Ok? && p.value.1 == Updated(id) && IndexOk(env, p.value.0) && SameButStamp(idx, p.value.0)
  {
    hide FoldersOk, SessionsOk, Apart, PutSession, SessionFileName, TrimSpace, FolderParts, Resolves, Descend;
    var s, parts := idx.sessions[id], FolderParts(r).value;
    ResolvesGrown(env, idx, cur, src, src, parts, s.folderId);
    DescendExisting(env, cur, src, src, parts, s.folderId);
    assert Patched(s, r, s.folderId, src) == s;
    assert SameButStampAt(s, cur.sessions[id]);
    OwnId(env, idx, id);
    PutAgain(env, cur, s, id);
    StampTrans(idx, cur, PutSession(env, cur, s).value);
  }

  // ---------------------------------------------------------------- all records

  /** Every record has landed, and the reconcile finds its session under its key. */
  ghost predicate AllLanded(env: Env, idx: Index, again: map<string, Session>, src: Id, mode: By, rs: seq<Record>) {
    forall i :: 0 <= i < |rs| ==>
      && RecordKey(mode, rs[i]) in again
      && var s := again[RecordKey(mode, rs[i])];
         s.id in idx.sessions && idx.sessions[s.id] == s && Lands(env, idx, src, rs[i], s.id)
  }

  lemma AllLandedInit(env: Env, idx: Index, again: map<string, Session>, src: Id, mode: By, rs: seq<Record>)
    requires AllLanded(env, idx, again, src, mode, rs) && rs != []
    ensures AllLanded(env, idx, again, src, mode, rs[..|rs| - 1])
  {
    hide Lands;
  }

  lemma {:induction false} PlaceAllAgain(env: Env, idx: Index, again: map<string, Session>, src: Id, mode: By, rs: seq<Record>)
    requires IndexOk(env, idx) && AllLanded(env, idx, again, src, mode, rs)
    ensures var p := PlaceAll(env, idx, again, src, mode, rs);
            && p.Ok? && IndexOk(env, p.value.0) && SameButStamp(idx, p.value.0)
            && CountUpdated(p.value.1) == |rs| == |p.value.1|
  {
    hide IndexOk, Lands, Place;
    if rs != [] {
      var init, r := rs[..|rs| - 1], rs[|rs| - 1];
      AllLandedInit(env, idx, again, src, mode, rs);
      PlaceAllAgain(env, idx, again, src, mode, init);
      var (cur, fates) := PlaceAll(env, idx, again, src, mode, init).value;
      var id := again[RecordKey(mode, r)].id;
      PlaceAgain(env, idx, cur, again, src, mode, r, id);
      assert (fates + [Updated(id)])[..|rs| - 1] == fates;
    }
  }

  // ---------------------------------------------------------- what the first left

  /** After a reconcile that skipped nothing every record's session is found, and none is stale. */
  lemma FirstLeaves(env: Env, idx0: Index, existing: map<string, Session>, src: Id, mode: By, rs: seq<Record>,
                    again: map<string, Session>)
    requires IndexOk(env, idx0) && Indexes(existing, idx0, src, mode)
    requires Agreeing(env, existing, mode, rs) && DistinctGenerated(idx0, src, mode)
    requires Reconciled(env, idx0, existing, src, mode, rs).Ok?
    requires var (done, report) := Reconciled(env, idx0, existing, src, mode, rs).value;
             report.skipped == 0 && Indexes(again, done, src, mode)
    ensures var done := Reconciled(env, idx0, existing, src, mode, rs).value.0;
            && IndexOk(env, done) && AllLanded(env, done, again, src, mode, rs) && StaleKeys(again, mode, rs) == {}
  {
    hide IndexOk, Agreeing, DistinctGenerated, Reconciled, PlaceAll, Matched, Lands, OthersSame, Indexes;
    var done := Reconciled(env, idx0, existing, src, mode, rs).value.0;
    var fates := Converges(env, idx0, existing, src, mode, rs);
    NoneSkipped(fates);
    forall i | 0 <= i < |rs|
      ensures var k := RecordKey(mode, rs[i]);
              k in again && again[k].id == IdOf(fates[i]) && again[k].id in done.sessions
              && done.sessions[again[k].id] == again[k] && Lands(env, done, src, rs[i], again[k].id)
    {
      FoundMatch(env, done, again, src, mode, rs[i], IdOf(fates[i]));
    }
    forall k | k in again ensures IsRecordKey(mode, rs, k) {
      FoundGenerated(again, done, src, mode, k);
    }
  }

  lemma FoundGenerated(again: map<string, Session>, idx: Index, src: Id, mode: By, k: string)
    requires Indexes(again, idx, src, mode) && k in again
    ensures again[k].id in idx.sessions && idx.sessions[again[k].id].source == src
    ensures SessionKey(mode, idx.sessions[again[k].id]) == k
  {
  }

  lemma FoundMatch(env: Env, idx: Index, again: map<string, Session>, src: Id, mode: By, r: Record, id: Id)
    requires Matched(env, idx, src, mode, r, id) && Indexes(again, idx, src, mode)
    ensures var k := RecordKey(mode, r);
            k in again && again[k].id == id && id in idx.sessions && idx.sessions[id] == again[k] && Lands(env, idx, src, r, id)
  {
    hide Lands;
    assert Generated(idx, src, mode, RecordKey(mode, r), id);
    assert Generated(idx, src, mode, RecordKey(mode, r), again[RecordKey(mode, r)].id);
  }

  // ------------------------------------------------------------------ the fixpoint

  lemma SupportStamp(a: Index, b: Index, src: Id, id: Id)
    requires SameButStamp(a, b) && Supported(a, src, id)
    ensures Supported(b, src, id)
  {
    var d :| AtOrBelow(a, id, d) && Worth(a, src, d);
    assert forall k :: k in a.sessions ==> SameButStampAt(a.sessions[k], b.sessions[k]);
    assert AtOrBelow(b, id, d) && Worth(b, src, d);
  }

  lemma StampBack(a: Index, b: Index)
    requires SameButStamp(a, b)
    ensures SameButStamp(a.(tick := b.tick), b) && SameButStamp(b, a.(tick := b.tick))
  {
    forall id | id in a.sessions ensures SameButStampAt(b.sessions[id], a.sessions[id]) {
      assert SameButStampAt(a.sessions[id], b.sessions[id]);
    }
  }

  lemma CompleteStamp(a: Index, b: Index, src: Id)
    requires SameButStamp(a, b)
    ensures Complete(a, src) <==> Complete(b, src)
  {
    hide Supported;
    StampBack(a, b);
    forall id | id in a.folders ensures Supported(a, src, id) <==> Supported(b, src, id) {
      if Supported(a, src, id) {
        SupportStamp(a, b, src, id);
      }
      if Supported(b, src, id) {
        SupportStamp(b, a.(tick := b.tick), src, id);
        TickAside(a, b.tick, src, id);
      }
    }
  }

  lemma TickAside(a: Index, tick: nat, src: Id, id: Id)
    requires Supported(a.(tick := tick), src, id)
    ensures Supported(a, src, id)
  {
    var b := a.(tick := tick);
    var d :| AtOrBelow(b, id, d) && Worth(b, src, d);
    assert AtOrBelow(a, id, d) && Worth(a, src, d);
  }

  /** Pruning leaves the folders as they are exactly at the fixpoint. */
  lemma PruneStopsIff(env: Env, idx: Index, src: Id, n: nat)
    requires IndexOk(env, idx) && n > 0
    ensures Complete(idx, src) <==> Pruned(idx, src, n).Ok? && Pruned(idx, src, n).value.folders == idx.folders
    ensures Complete(idx, src) ==> Pruned(idx, src, n) == Ok(idx)
  {
    hide FoldersOk, SessionsOk, Apart, Supported;
    if Complete(idx, src) {
      PrunedAgain(env, idx, src, n);
    } else if Pruned(idx, src, n).Ok? {
      var id :| id in idx.folders && !Supported(idx, src, id);
      KnownDir(env, idx, id);
      var d := EligibleBelow(env, idx, src, id, DepthLimit(idx));
      PassOk(env, idx, src);
      PrunedKeeps(env, Without(idx, Eligible(idx, src)), src, n - 1);
      assert d in idx.folders && d !in Pruned(idx, src, n).value.folders;
    }
  }

  // ---------------------------------------------------------------- the theorems

  /**
   * After a reconcile that skipped nothing, a second one with the same records reports only
   * updates and changes nothing but revisions and timestamps exactly when the first left the
   * source folder in place and pruned to the fixpoint.
   */
  lemma AgainIff(env: Env, idx0: Index, existing: map<string, Session>, src: Id, mode: By, rs: seq<Record>,
                 again: map<string, Session>)
    requires IndexOk(env, idx0) && Indexes(existing, idx0, src, mode)
    requires Agreeing(env, existing, mode, rs) && DistinctGenerated(idx0, src, mode)
    requires Reconciled(env, idx0, existing, src, mode, rs).Ok?
    requires var (done, report) := Reconciled(env, idx0, existing, src, mode, rs).value;
             report.skipped == 0 && Indexes(again, done, src, mode)
    ensures var done := Reconciled(env, idx0, existing, src, mode, rs).value.0;
            var second := Reconciled(env, done, again, src, mode, rs);
            (second.Ok? && second.value.1 == Report(0, |rs|, 0, 0) && SameButStamp(done, second.value.0))
            <==> src in done.folders && Complete(done, src)
  {
    hide IndexOk, Agreeing, DistinctGenerated, Indexes, Complete, PlaceAll, Pruned, AllLanded, StaleKeys;
    var done := Reconciled(env, idx0, existing, src, mode, rs).value.0;
    FirstLeaves(env, idx0, existing, src, mode, rs, again);
    PlaceAllAgain(env, done, again, src, mode, rs);
    var (mid, fates) := PlaceAll(env, done, again, src, mode, rs).value;
    CountsSum(fates);
    DropNothing(again, mid);
    CompleteStamp(done, mid, src);
    PruneStopsIff(env, mid, src, MAX_FOLDER_DEPTH + 1);
  }

  lemma DropNothing(existing: map<string, Session>, idx: Index)
    ensures IdsOf(existing, {}) == {} && Dropped(idx, {}) == idx
  {
  }

  /** The index when the records are placed and the stale sessions dropped, about to be pruned. */
  ghost function AboutToPrune(env: Env, idx: Index, existing: map<string, Session>, src: Id, mode: By, rs: seq<Record>): Index
    requires PlaceAll(env, idx, existing, src, mode, rs).Ok?
  {
    Dropped(PlaceAll(env, idx, existing, src, mode, rs).value.0, IdsOf(existing, StaleKeys(existing, mode, rs)))
  }

  /** Pruning keeps the source folder and reaches the fixpoint iff the source leads somewhere and no rest is too deep. */
  lemma PruneEndsWell(env: Env, idx: Index, src: Id, n: nat)
    requires IndexOk(env, idx) && src in idx.folders && Pruned(idx, src, n).Ok?
    ensures var r := Pruned(idx, src, n).value;
            src in r.folders && Complete(r, src) <==> Supported(idx, src, src) && ShallowRest(idx, src, n)
  {
    hide IndexOk, Pruned, Complete, Supported, Deep;
    CompleteIff(env, idx, src, n);
    PrunedExact(env, idx, src, n, src);
  }

  /** The same in terms of the index before the first run prunes: no empty owned chain is longer than the passes are many. */
  lemma AgainIffShallow(env: Env, idx0: Index, existing: map<string, Session>, src: Id, mode: By, rs: seq<Record>,
                        again: map<string, Session>)
    requires IndexOk(env, idx0) && Indexes(existing, idx0, src, mode)
    requires Agreeing(env, existing, mode, rs) && DistinctGenerated(idx0, src, mode)
    requires Reconciled(env, idx0, existing, src, mode, rs).Ok?
    requires var (done, report) := Reconciled(env, idx0, existing, src, mode, rs).value;
             report.skipped == 0 && Indexes(again, done, src, mode)
    ensures PlaceAll(env, idx0, existing, src, mode, rs).Ok?
    ensures var done := Reconciled(env, idx0, existing, src, mode, rs).value.0;
            var second := Reconciled(env, done, again, src, mode, rs);
            var pre := AboutToPrune(env, idx0, existing, src, mode, rs);
            (second.Ok? && second.value.1 == Report(0, |rs|, 0, 0) && SameButStamp(done, second.value.0))
            <==> Supported(pre, src, src) && ShallowRest(pre, src, MAX_FOLDER_DEPTH + 1)
  {
    hide IndexOk, Agreeing, DistinctGenerated, Indexes, Complete, Supported, ShallowRest, PlaceAll, Pruned, Reconciled,
         SameButStamp, Placed, Dropped, IdsOf;
    var mid, fates := StagesOf(env, idx0, existing, src, mode, rs);
    var done := Reconciled(env, idx0, existing, src, mode, rs).value.0;
    Finished(env, idx0, mid, done, existing, src, mode, rs, fates);
    AgainIff(env, idx0, existing, src, mode, rs, again);
    DroppedFolders(mid, IdsOf(existing, StaleKeys(existing, mode, rs)));
    PruneEndsWell(env, Dropped(mid, IdsOf(existing, StaleKeys(existing, mode, rs))), src, MAX_FOLDER_DEPTH + 1);
  }

  lemma DroppedFolders(idx: Index, ids: set<Id>)
    ensures Dropped(idx, ids).folders == idx.folders
  {
  }

  // ------------------------------------------------------- when that is the case

  lemma AddDepth(env: Env, idx: Index, f: Folder, src: Id, depth: nat)
    requires IndexOk(env, idx) && WithinDepth(idx, src, depth) && AddFolder(env, idx, f).Ok?
    requires f.parentId in idx.folderDir && |idx.folderDir[src]| <= |idx.folderDir[f.parentId]| < |idx.folderDir[src]| + depth
    ensures WithinDepth(AddFolder(env, idx, f).value, src, depth)
  {
    hide IndexOk, FolderClash, Sanitized, TrimSpace, AddFolder;
    var out, d := AddFolderIs(env, idx, f);
    FreshId(env, idx);
    HasParent(env, idx, f);
  }

  lemma HasParent(env: Env, idx: Index, f: Folder)
    requires IndexOk(env, idx) && f.parentId in idx.folderDir
    ensures f.parentId != ""
  {
    NoEmptyId(env, idx);
  }

  /** The descent creates folders no deeper than the path is long. */
  lemma {:induction false} DescendDepth(env: Env, idx: Index, src: Id, parent: Id, parts: seq<string>, depth: nat)
    requires IndexOk(env, idx) && parent in idx.folders && WithinDepth(idx, src, depth)
    requires parent in idx.folderDir && |idx.folderDir[src]| <= |idx.folderDir[parent]|
    requires |idx.folderDir[parent]| + |parts| <= |idx.folderDir[src]| + depth && Descend(env, idx, src, parent, parts).Ok?
    ensures WithinDepth(Descend(env, idx, src, parent, parts).value.0, src, depth)
    decreases |parts|
  {
    hide IndexOk, AddFolder, IsChildNamed, WithinDepth;
    if parts != [] {
      var start := idx;
      var f := AutoFolder(parts[0], parent, src);
      if ChildNamed(env, idx, parent, parts[0]).None? {
        AddGrows(env, idx, f, src);
        AddDepth(env, idx, f, src, depth);
        start := AddFolder(env, idx, f).value;
      } else {
        GrownRefl(idx, src);
      }
      var k := ChildNamed(env, start, parent, parts[0]).value;
      StepDepth(env, idx, start, src, parent, parts[0], k, depth);
      DescendDepth(env, start, src, k, parts[1..], depth);
    }
  }

  lemma StepDepth(env: Env, idx: Index, start: Index, src: Id, parent: Id, name: string, k: Id, depth: nat)
    requires IndexOk(env, start) && Grown(idx, start, src) && parent in idx.folders && parent in idx.folderDir
    requires IsChildNamed(env, start, parent, name, k) && WithinDepth(idx, src, depth)
    ensures k in start.folders && k in start.folderDir && |start.folderDir[k]| == |idx.folderDir[parent]| + 1
    ensures src in start.folderDir && start.folderDir[src] == idx.folderDir[src]
  {
    ChildBelow(env, start, parent, k);
  }

  lemma PlaceDepth(env: Env, idx: Index, existing: map<string, Session>, src: Id, mode: By, r: Record)
    requires IndexOk(env, idx) && WithinDepth(idx, src, MAX_FOLDER_DEPTH) && src in idx.folders
    requires Place(env, idx, existing, src, mode, r).Ok?
    ensures WithinDepth(Place(env, idx, existing, src, mode, r).value.0, src, MAX_FOLDER_DEPTH)
  {
    hide IndexOk, Descend, FolderParts, PutSession, WithinDepth;
    PartsBound(r);
    SourceDir(idx, src);
    DescendDepth(env, idx, src, src, FolderParts(r).value, MAX_FOLDER_DEPTH);
    var (mid, leaf) := EnsurePath(env, idx, src, r).value;
    var k := RecordKey(mode, r);
    var s := Patched(if k in existing then existing[k] else BLANK, r, leaf, src);
    if PutSession(env, mid, s).Ok? {
      PutDepth(env, mid, s, src);
    }
  }

  lemma PartsBound(r: Record)
    ensures FolderParts(r).Some? ==> |FolderParts(r).value| <= MAX_FOLDER_DEPTH
  {
  }

  lemma SourceDir(idx: Index, src: Id)
    requires WithinDepth(idx, src, MAX_FOLDER_DEPTH)
    ensures src in idx.folderDir
  {
  }

  lemma PutDepth(env: Env, idx: Index, s: Session, src: Id)
    requires PutSession(env, idx, s).Ok? && WithinDepth(idx, src, MAX_FOLDER_DEPTH)
    ensures WithinDepth(PutSession(env, idx, s).value, src, MAX_FOLDER_DEPTH)
  {
    hide PutSession, SessionClash, SessionFileName, TrimSpace;
    var folder, fn := PutSessionIs(env, idx, s);
  }

  lemma {:induction false} PlaceAllDepth(env: Env, idx0: Index, existing: map<string, Session>, src: Id, mode: By,
                                         rs: seq<Record>)
    requires IndexOk(env, idx0) && src in idx0.folders && src != "" && Indexes(existing, idx0, src, mode)
    requires PlaceAll(env, idx0, existing, src, mode, rs).Ok? && WithinDepth(idx0, src, MAX_FOLDER_DEPTH)
    ensures WithinDepth(PlaceAll(env, idx0, existing, src, mode, rs).value.0, src, MAX_FOLDER_DEPTH)
  {
    hide IndexOk, Place, WithinDepth, Indexes, Placed;
    if rs != [] {
      var init := rs[..|rs| - 1];
      PlaceAllDepth(env, idx0, existing, src, mode, init);
      PlaceAllOk(env, idx0, existing, src, mode, init);
      var (mid, fates) := PlaceAll(env, idx0, existing, src, mode, init).value;
      PlacedFacts(env, idx0, mid, existing, src, mode, init, fates);
      PlaceDepth(env, mid, existing, src, mode, rs[|rs| - 1]);
    }
  }

  lemma PrunedDepth(env: Env, idx: Index, src: Id)
    requires IndexOk(env, idx) && WithinDepth(idx, src, MAX_FOLDER_DEPTH) && src in idx.folders
    requires Pruned(idx, src, MAX_FOLDER_DEPTH + 1).Ok?
    ensures var r := Pruned(idx, src, MAX_FOLDER_DEPTH + 1).value;
            src in r.folders && WithinDepth(r, src, MAX_FOLDER_DEPTH) && Complete(r, src)
  {
    hide FoldersOk, SessionsOk, Apart, Complete, Pruned, ShallowRest;
    var r := Pruned(idx, src, MAX_FOLDER_DEPTH + 1).value;
    PrunedKeeps(env, idx, src, MAX_FOLDER_DEPTH + 1);
    DepthSuffices(env, idx, src, MAX_FOLDER_DEPTH, MAX_FOLDER_DEPTH + 1);
    CompleteIff(env, idx, src, MAX_FOLDER_DEPTH + 1);
    KnownDir(env, idx, src);
    KnownDir(env, r, src);
  }

  /**
   * With the auto-created folders at most maxFolderDepth below their source, a reconcile keeps
   * them so and prunes to the fixpoint.
   */
  lemma ReconcileDepth(env: Env, idx0: Index, existing: map<string, Session>, src: Id, mode: By, rs: seq<Record>)
    requires IndexOk(env, idx0) && Indexes(existing, idx0, src, mode) && WithinDepth(idx0, src, MAX_FOLDER_DEPTH)
    requires Reconciled(env, idx0, existing, src, mode, rs).Ok?
    ensures var done := Reconciled(env, idx0, existing, src, mode, rs).value.0;
            src in done.folders && WithinDepth(done, src, MAX_FOLDER_DEPTH) && Complete(done, src)
  {
    hide IndexOk, Indexes, PlaceAll, WithinDepth, Complete, Pruned, Placed;
    NoEmptySource(env, idx0, src);
    var done := Reconciled(env, idx0, existing, src, mode, rs).value.0;
    var mid, fates := StagesOf(env, idx0, existing, src, mode, rs);
    Finished(env, idx0, mid, done, existing, src, mode, rs, fates);
    PlaceAllDepth(env, idx0, existing, src, mode, rs);
    var ids := IdsOf(existing, StaleKeys(existing, mode, rs));
    DroppedDepth(mid, ids, src);
    PrunedDepth(env, Dropped(mid, ids), src);
  }

  lemma NoEmptySource(env: Env, idx: Index, src: Id)
    requires IndexOk(env, idx) && src in idx.folders
    ensures src != ""
  {
    NoEmptyId(env, idx);
  }

  lemma DroppedDepth(idx: Index, ids: set<Id>, src: Id)
    requires WithinDepth(idx, src, MAX_FOLDER_DEPTH)
    ensures WithinDepth(Dropped(idx, ids), src, MAX_FOLDER_DEPTH)
  {
  }

  /** Reconcile is idempotent where the auto-created folders are no deeper than reconcile makes them. */
  lemma Idempotent(env: Env, idx0: Index, existing: map<string, Session>, src: Id, mode: By, rs: seq<Record>,
                   again: map<string, Session>)
    requires IndexOk(env, idx0) && Indexes(existing, idx0, src, mode) && WithinDepth(idx0, src, MAX_FOLDER_DEPTH)
    requires Agreeing(env, existing, mode, rs) && DistinctGenerated(idx0, src, mode)
    requires Reconciled(env, idx0, existing, src, mode, rs).Ok?
    requires var (done, report) := Reconciled(env, idx0, existing, src, mode, rs).value;
             report.skipped == 0 && Indexes(again, done, src, mode)
    ensures var done := Reconciled(env, idx0, existing, src, mode, rs).value.0;
            var second := Reconciled(env, done, again, src, mode, rs);
            second.Ok? && second.value.1 == Report(0, |rs|, 0, 0) && SameButStamp(done, second.value.0)
  {
    hide IndexOk, Agreeing, DistinctGenerated, Indexes, Complete, Reconciled, SameButStamp, WithinDepth;
    ReconcileDepth(env, idx0, existing, src, mode, rs);
    AgainIff(env, idx0, existing, src, mode, rs, again);
  }
}
