/** When a reconcile converges to its records, exactly. */
module ConvergeIff {
  import opened Wrappers
  import opened StoreNames
  import opened StoreIndex
  import opened StoreMove
  import opened Prune
  import opened Reconcile
  import opened Converge

  /** Every record has its one generated session, and no generated session is without a record. */
  ghost predicate Converged(env: Env, idx: Index, src: Id, mode: By, rs: seq<Record>) {
    && (forall i :: 0 <= i < |rs| ==> HasMatch(env, idx, src, mode, rs[i]))
    && (forall id :: id in idx.sessions && idx.sessions[id].source == src ==>
          IsRecordKey(mode, rs, SessionKey(mode, idx.sessions[id])))
  }

  ghost predicate HasMatch(env: Env, idx: Index, src: Id, mode: By, r: Record) {
    exists id :: Matched(env, idx, src, mode, r, id)
  }

  // --------------------------------------------------- records of one key agree

  /** The names on the way to a folder are those of the folders passed, whatever path led there. */
  lemma {:induction false} OnePath(env: Env, idx: Index, parent: Id, p: seq<string>, q: seq<string>, leaf: Id)
    requires FoldersOk(env, idx) && parent in idx.folders
    requires Resolves(env, idx, parent, p, leaf) && Resolves(env, idx, parent, q, leaf)
    ensures SamePath(env, p, q)
    decreases |p|
  {
    hide FoldersOk, AtOrBelow;
    LeafDepth(env, idx, parent, p, leaf);
    LeafDepth(env, idx, parent, q, leaf);
    if p != [] {
      var j :| IsChildNamed(env, idx, parent, p[0], j) && Resolves(env, idx, j, p[1..], leaf);
      var k :| IsChildNamed(env, idx, parent, q[0], k) && Resolves(env, idx, k, q[1..], leaf);
      ResolvesBelow(env, idx, j, p[1..], leaf);
      ResolvesBelow(env, idx, k, q[1..], leaf);
      ChildBelow(env, idx, parent, j);
      ChildBelow(env, idx, parent, k);
      SameAncestor(env, idx, j, k, leaf);
      OnePath(env, idx, j, p[1..], q[1..], leaf);
      assert forall i :: 0 < i < |p| ==> p[i] == p[1..][i - 1] && q[i] == q[1..][i - 1];
    }
  }

  /** A path goes down one level for each name. */
  lemma {:induction false} LeafDepth(env: Env, idx: Index, parent: Id, parts: seq<string>, leaf: Id)
    requires FoldersOk(env, idx) && parent in idx.folders && Resolves(env, idx, parent, parts, leaf)
    ensures parent in idx.folderDir && leaf in idx.folderDir && |idx.folderDir[leaf]| == |idx.folderDir[parent]| + |parts|
    decreases |parts|
  {
    hide FoldersOk;
    KnownDir(env, idx, parent);
    if parts != [] {
      var k :| IsChildNamed(env, idx, parent, parts[0], k) && Resolves(env, idx, k, parts[1..], leaf);
      ChildBelow(env, idx, parent, k);
      LeafDepth(env, idx, k, parts[1..], leaf);
    }
  }

  lemma SameAncestor(env: Env, idx: Index, a: Id, b: Id, leaf: Id)
    requires FoldersOk(env, idx) && AtOrBelow(idx, a, leaf) && AtOrBelow(idx, b, leaf)
    requires |idx.folderDir[a]| == |idx.folderDir[b]|
    ensures a == b
  {
    assert idx.folderDir[a] == idx.folderDir[leaf][..|idx.folderDir[a]|] == idx.folderDir[b];
  }

  /** Two records landed in one session agree. */
  lemma LandedAgree(env: Env, idx: Index, src: Id, r: Record, q: Record, id: Id)
    requires IndexOk(env, idx) && src in idx.folders && Lands(env, idx, src, r, id) && Lands(env, idx, src, q, id)
    ensures Agree(env, r, q)
  {
    hide FoldersOk, SessionsOk, Apart, FolderParts, SessionFileName, TrimSpace, Resolves, SamePath;
    OnePath(env, idx, src, FolderParts(r).value, FolderParts(q).value, idx.sessions[id].folderId);
  }

  /** The source folder is still there where a record landed. */
  lemma SourceThere(env: Env, idx0: Index, mid: Index, done: Index, existing: map<string, Session>, src: Id, mode: By,
                    rs: seq<Record>, fates: seq<Fate>, r: Record, id: Id)
    requires Stages(env, idx0, mid, done, existing, src, mode, rs, fates) && src in idx0.folders
    requires Lands(env, done, src, r, id)
    ensures src in done.folders
  {
    hide IndexOk, Pruned, OnlyFates, FateOk, Lands, Supported, AtOrBelow, HasSession;
    var ids := IdsOf(existing, StaleKeys(existing, mode, rs));
    var pre := Dropped(mid, ids);
    Finished(env, idx0, mid, done, existing, src, mode, rs, fates);
    PrunedKeeps(env, pre, src, MAX_FOLDER_DEPTH + 1);
    SourceSupported(env, pre, done, src, r, id);
    PrunedExact(env, pre, src, MAX_FOLDER_DEPTH + 1, src);
  }

  lemma SourceSupported(env: Env, pre: Index, done: Index, src: Id, r: Record, id: Id)
    requires IndexOk(env, pre) && src in pre.folders && Lands(env, done, src, r, id)
    requires done.sessions == pre.sessions
    requires forall k :: k in done.folders ==> k in pre.folders && pre.folders[k] == done.folders[k]
    ensures Supported(pre, src, src)
  {
    hide FoldersOk, SessionsOk, Apart, FolderParts, SessionFileName, TrimSpace, Supported;
    var leaf := done.sessions[id].folderId;
    ResolvesEarlier(env, pre, done, src, FolderParts(r).value, leaf);
    ResolvesBelow(env, pre, src, FolderParts(r).value, leaf);
    Supports(pre, src, src, leaf);
  }

  lemma {:induction false} ResolvesEarlier(env: Env, pre: Index, done: Index, parent: Id, parts: seq<string>, leaf: Id)
    requires Resolves(env, done, parent, parts, leaf)
    requires forall k :: k in done.folders ==> k in pre.folders && pre.folders[k] == done.folders[k]
    ensures Resolves(env, pre, parent, parts, leaf)
    decreases |parts|
  {
    if parts != [] {
      var k :| IsChildNamed(env, done, parent, parts[0], k) && Resolves(env, done, k, parts[1..], leaf);
      ResolvesEarlier(env, pre, done, k, parts[1..], leaf);
      assert IsChildNamed(env, pre, parent, parts[0], k);
    }
  }

  /** Where all records are matched, two of one key agree, and the key was found at the start. */
  lemma MatchedAgree(env: Env, idx0: Index, mid: Index, done: Index, existing: map<string, Session>, src: Id, mode: By,
                     rs: seq<Record>, fates: seq<Fate>, i: nat, j: nat)
    requires Stages(env, idx0, mid, done, existing, src, mode, rs, fates) && src in idx0.folders
    requires Indexes(existing, idx0, src, mode) && |fates| == |rs| && forall k :: 0 <= k < |fates| ==> !fates[k].Skipped?
    requires i < j < |rs| && RecordKey(mode, rs[i]) == RecordKey(mode, rs[j])
    requires HasMatch(env, done, src, mode, rs[i]) && HasMatch(env, done, src, mode, rs[j])
    ensures RecordKey(mode, rs[i]) in existing && Agree(env, rs[i], rs[j])
  {
    hide IndexOk, Grown, Lands, OnlyFates, Indexes, Placed, Pruned, Agree;
    var k := RecordKey(mode, rs[i]);
    var a :| Matched(env, done, src, mode, rs[i], a);
    var b :| Matched(env, done, src, mode, rs[j], b);
    assert Generated(done, src, mode, k, a) && Generated(done, src, mode, k, b);
    Finished(env, idx0, mid, done, existing, src, mode, rs, fates);
    SourceThere(env, idx0, mid, done, existing, src, mode, rs, fates, rs[i], a);
    LandedAgree(env, done, src, rs[i], rs[j], a);
    if k !in existing {
      AddedTwice(env, idx0, mid, existing, src, mode, rs, fates, i, j);
      AddedLeft(env, idx0, mid, done, existing, src, mode, rs, fates, i);
      AddedLeft(env, idx0, mid, done, existing, src, mode, rs, fates, j);
      assert false;
    }
  }

  lemma AddedTwice(env: Env, idx0: Index, mid: Index, existing: map<string, Session>, src: Id, mode: By,
                   rs: seq<Record>, fates: seq<Fate>, i: nat, j: nat)
    requires Placed(env, idx0, mid, existing, src, mode, rs, fates)
    requires i < j < |rs| && !fates[i].Skipped? && !fates[j].Skipped?
    requires RecordKey(mode, rs[i]) == RecordKey(mode, rs[j]) && RecordKey(mode, rs[i]) !in existing
    ensures fates[i].Added? && fates[j].Added? && fates[i].id != fates[j].id
  {
    hide IndexOk, Grown, Lands, OnlyFates, Agreeing;
    assert FateOk(idx0, mid, existing, mode, rs[i], fates[i]) && FateOk(idx0, mid, existing, mode, rs[j], fates[j]);
  }

  /** What was added for a record is left at the end, under the record's key. */
  lemma AddedLeft(env: Env, idx0: Index, mid: Index, done: Index, existing: map<string, Session>, src: Id, mode: By,
                  rs: seq<Record>, fates: seq<Fate>, i: nat)
    requires Stages(env, idx0, mid, done, existing, src, mode, rs, fates) && src in idx0.folders
    requires Indexes(existing, idx0, src, mode) && i < |rs| && |fates| == |rs| && fates[i].Added?
    ensures Generated(done, src, mode, RecordKey(mode, rs[i]), fates[i].id)
  {
    hide IndexOk, Grown, Lands, OnlyFates, FateOk, Indexes, Agreeing, Pruned, Placed;
    Finished(env, idx0, mid, done, existing, src, mode, rs, fates);
    StaleApart(env, idx0, mid, existing, src, mode, rs, fates);
    AddedLands(env, idx0, mid, existing, src, mode, rs, fates, i);
    LandedKey(env, mid, src, mode, rs[i], fates[i].id);
  }

  lemma AddedLands(env: Env, idx0: Index, mid: Index, existing: map<string, Session>, src: Id, mode: By,
                   rs: seq<Record>, fates: seq<Fate>, i: nat)
    requires Placed(env, idx0, mid, existing, src, mode, rs, fates) && i < |rs| && fates[i].Added?
    ensures Lands(env, mid, src, rs[i], fates[i].id)
  {
    hide IndexOk, Grown, Lands, OnlyFates, FateOk, Agreeing;
  }

  // ----------------------------------------------- repeated generated keys stay

  /** A generated session the reconcile did not find under its key is still there at the end, untouched. */
  lemma UnfoundStays(env: Env, idx0: Index, mid: Index, done: Index, existing: map<string, Session>, src: Id, mode: By,
                     rs: seq<Record>, fates: seq<Fate>, k: string, id: Id)
    requires Stages(env, idx0, mid, done, existing, src, mode, rs, fates) && src in idx0.folders
    requires Indexes(existing, idx0, src, mode) && Generated(idx0, src, mode, k, id)
    requires k in existing && existing[k].id != id
    ensures Generated(done, src, mode, k, id)
  {
    hide IndexOk, Grown, Lands, Pruned, Agreeing, Placed;
    Finished(env, idx0, mid, done, existing, src, mode, rs, fates);
    Unfound(existing, idx0, src, mode, k, id);
    NotUpdated(env, idx0, mid, existing, src, mode, rs, fates, id);
  }

  lemma Unfound(existing: map<string, Session>, idx0: Index, src: Id, mode: By, k: string, id: Id)
    requires Indexes(existing, idx0, src, mode) && Generated(idx0, src, mode, k, id) && k in existing && existing[k].id != id
    ensures forall j :: j in existing ==> existing[j].id != id
  {
  }

  lemma NotUpdated(env: Env, idx0: Index, mid: Index, existing: map<string, Session>, src: Id, mode: By,
                   rs: seq<Record>, fates: seq<Fate>, id: Id)
    requires Placed(env, idx0, mid, existing, src, mode, rs, fates) && id in idx0.sessions
    requires forall j :: j in existing ==> existing[j].id != id
    ensures SameSession(idx0, mid, id)
  {
    hide IndexOk, Grown, Lands, Agreeing;
    forall i | 0 <= i < |fates| ensures fates[i] != Updated(id) {
      assert FateOk(idx0, mid, existing, mode, rs[i], fates[i]);
    }
  }

  // ----------------------------------------------------------------- the theorem

  lemma Necessary(env: Env, idx0: Index, mid: Index, done: Index, existing: map<string, Session>, src: Id, mode: By,
                  rs: seq<Record>, fates: seq<Fate>)
    requires Stages(env, idx0, mid, done, existing, src, mode, rs, fates) && src in idx0.folders
    requires Indexes(existing, idx0, src, mode) && |fates| == |rs| && forall k :: 0 <= k < |fates| ==> !fates[k].Skipped?
    requires Converged(env, done, src, mode, rs)
    ensures Agreeing(env, existing, mode, rs) && DistinctGenerated(idx0, src, mode)
  {
    hide IndexOk, Indexes, Stages, HasMatch, IsRecordKey, Agree;
    forall i, j | 0 <= i < j < |rs| && RecordKey(mode, rs[i]) == RecordKey(mode, rs[j])
      ensures RecordKey(mode, rs[i]) in existing && Agree(env, rs[i], rs[j])
    {
      MatchedAgree(env, idx0, mid, done, existing, src, mode, rs, fates, i, j);
    }
    forall k, a, b | Generated(idx0, src, mode, k, a) && Generated(idx0, src, mode, k, b) ensures a == b {
      OneGenerated(env, idx0, mid, done, existing, src, mode, rs, fates, k, a);
      OneGenerated(env, idx0, mid, done, existing, src, mode, rs, fates, k, b);
    }
  }

  /** In a converged result the reconcile had found every generated session under its key. */
  lemma OneGenerated(env: Env, idx0: Index, mid: Index, done: Index, existing: map<string, Session>, src: Id, mode: By,
                     rs: seq<Record>, fates: seq<Fate>, k: string, id: Id)
    requires Stages(env, idx0, mid, done, existing, src, mode, rs, fates) && src in idx0.folders
    requires Indexes(existing, idx0, src, mode) && |fates| == |rs| && forall k :: 0 <= k < |fates| ==> !fates[k].Skipped?
    requires Converged(env, done, src, mode, rs) && Agreeing(env, existing, mode, rs) && Generated(idx0, src, mode, k, id)
    ensures k in existing && existing[k].id == id
  {
    hide IndexOk, Stages, Agree, Agreeing, Matched;
    if existing[k].id != id {
      UnfoundStays(env, idx0, mid, done, existing, src, mode, rs, fates, k, id);
      var i :| 0 <= i < |rs| && RecordKey(mode, rs[i]) == k;
      var a :| Matched(env, done, src, mode, rs[i], a);
      UpdatedLeft(env, idx0, mid, done, existing, src, mode, rs, fates, i);
      OnlyOne(env, done, src, mode, rs[i], a, id, existing[k].id);
    }
  }

  lemma OnlyOne(env: Env, idx: Index, src: Id, mode: By, r: Record, a: Id, b: Id, c: Id)
    requires Matched(env, idx, src, mode, r, a)
    requires Generated(idx, src, mode, RecordKey(mode, r), b) && Generated(idx, src, mode, RecordKey(mode, r), c)
    ensures b == c
  {
    hide Lands;
  }

  /** A record that found its key leaves a session of that key. */
  lemma UpdatedLeft(env: Env, idx0: Index, mid: Index, done: Index, existing: map<string, Session>, src: Id, mode: By,
                    rs: seq<Record>, fates: seq<Fate>, i: nat)
    requires Stages(env, idx0, mid, done, existing, src, mode, rs, fates) && src in idx0.folders
    requires Indexes(existing, idx0, src, mode) && Agreeing(env, existing, mode, rs)
    requires i < |rs| && |fates| == |rs| && !fates[i].Skipped? && RecordKey(mode, rs[i]) in existing
    ensures Generated(done, src, mode, RecordKey(mode, rs[i]), existing[RecordKey(mode, rs[i])].id)
  {
    hide IndexOk, Grown, Lands, OnlyFates, Indexes, Agreeing, Pruned;
    assert FateOk(idx0, mid, existing, mode, rs[i], fates[i]);
    Finished(env, idx0, mid, done, existing, src, mode, rs, fates);
    StaleApart(env, idx0, mid, existing, src, mode, rs, fates);
    LandsAt(env, idx0, mid, existing, src, mode, rs, fates, i);
    LandedKey(env, mid, src, mode, rs[i], IdOf(fates[i]));
  }

  /**
   * A reconcile that skipped nothing leaves every record with exactly one generated session of its
   * key, where and what the record says, and no session without a record, iff the generated
   * sessions had pairwise distinct keys at the start and records that share a key found a session
   * of that key then and agree in their normalized fields and leaf folder.
   */
  lemma ConvergesIff(env: Env, idx0: Index, existing: map<string, Session>, src: Id, mode: By, rs: seq<Record>)
    requires IndexOk(env, idx0) && Indexes(existing, idx0, src, mode)
    requires Reconciled(env, idx0, existing, src, mode, rs).Ok?
    requires Reconciled(env, idx0, existing, src, mode, rs).value.1.skipped == 0
    ensures Converged(env, Reconciled(env, idx0, existing, src, mode, rs).value.0, src, mode, rs)
       <==> DistinctGenerated(idx0, src, mode) && Agreeing(env, existing, mode, rs)
  {
    hide IndexOk, Indexes, Agreeing, DistinctGenerated, Matched, Stages, Reconciled, IsRecordKey, Placed, PlaceAll;
    var done := Reconciled(env, idx0, existing, src, mode, rs).value.0;
    var mid, fates := StagesOf(env, idx0, existing, src, mode, rs);
    NoneSkipped(fates);
    FatesLength(env, idx0, mid, done, existing, src, mode, rs, fates);
    if DistinctGenerated(idx0, src, mode) && Agreeing(env, existing, mode, rs) {
      var again := Converges(env, idx0, existing, src, mode, rs);
      NoneSkipped(again);
      forall i | 0 <= i < |rs| ensures HasMatch(env, done, src, mode, rs[i]) {
        assert Matched(env, done, src, mode, rs[i], IdOf(again[i]));
      }
    }
    if Converged(env, done, src, mode, rs) {
      Necessary(env, idx0, mid, done, existing, src, mode, rs, fates);
    }
  }
}
