/** The flat log: what a scrollback buffer means, with no chunks, caps or compression. */
module FlatLogs {
  import opened ByteLines

  /** A completed line; `forced` when the length limit ended it, not a newline. */
  datatype Line = Line(text: Bytes, forced: bool)

  /** All lines ever completed, oldest first, and the unterminated rest. */
  datatype FlatLog = FlatLog(done: seq<Line>, partial: Bytes) {

    /** The text of every line by absolute number; a partial line counts. */
    function Texts(): seq<Bytes> {
      DoneTexts(done) + Trailing(partial)
    }

    /** The byte stream the log came from. */
    function Original(): Bytes {
      Joined(done) + partial
    }

    ghost predicate Good(limit: nat) {
      && NoNL(partial) && |partial| < limit
      && forall i :: 0 <= i < |done| ==> NoNL(done[i].text) && (done[i].forced ==> |done[i].text| >= limit)
    }
  }

  const EMPTY := FlatLog([], [])

  function DoneTexts(done: seq<Line>): (ts: seq<Bytes>)
    ensures |ts| == |done|
  {
    seq(|done|, i requires 0 <= i < |done| => done[i].text)
  }

  function Ended(lines: seq<Bytes>): seq<Line> {
    seq(|lines|, i requires 0 <= i < |lines| => Line(lines[i], false))
  }

  /** The bytes of one completed line. */
  function Wire(l: Line): Bytes {
    l.text + if l.forced then [] else [NL]
  }

  function Joined(done: seq<Line>): Bytes {
    if done == [] then [] else Joined(done[..|done| - 1]) + Wire(done[|done| - 1])
  }

  /** Extends the stream by p: every newline completes a line. */
  function Extend(log: FlatLog, p: Bytes): FlatLog {
    FlatLog(log.done + Ended(Complete(log.partial + p)), Tail(log.partial + p))
  }

  /** Ends an unterminated line that reached the limit. */
  function Force(log: FlatLog, limit: nat): FlatLog {
    if |log.partial| >= limit then FlatLog(log.done + [Line(log.partial, true)], []) else log
  }

  function Append(log: FlatLog, p: Bytes, limit: nat): FlatLog {
    Force(Extend(log, p), limit)
  }

  /** The log after a whole run of appends. */
  function Replay(ps: seq<Bytes>, limit: nat): FlatLog {
    if ps == [] then EMPTY else Append(Replay(ps[..|ps| - 1], limit), ps[|ps| - 1], limit)
  }

  function Concat(ps: seq<Bytes>): Bytes {
    if ps == [] then [] else Concat(ps[..|ps| - 1]) + ps[|ps| - 1]
  }

  lemma {:induction false} JoinedConcat(a: seq<Line>, b: seq<Line>)
    ensures Joined(a + b) == Joined(a) + Joined(b)
  {
    hide Wire;
    if b == [] {
      assert a + b == a;
    } else {
      var init, w := b[..|b| - 1], Wire(b[|b| - 1]);
      JoinedConcat(a, init);
      assert (a + b)[..|a + b| - 1] == a + init;
      assert Joined(a + b) == (Joined(a) + Joined(init)) + w;
      assert Joined(b) == Joined(init) + w;
    }
  }

  lemma {:induction false} JoinedEnded(b: Bytes)
    ensures Joined(Ended(Complete(b))) + Tail(b) == b
  {
    if b != [] {
      var init := b[..|b| - 1];
      JoinedEnded(init);
      assert b == init + [b[|b| - 1]];
      if b[|b| - 1] == NL {
        assert Ended(Complete(b)) == Ended(Complete(init)) + [Line(Tail(init), false)];
      }
    }
  }

  /** Good, but the unterminated line may have reached the limit. */
  ghost predicate LinesGood(log: FlatLog, limit: nat) {
    log.(partial := []).Good(limit) && NoNL(log.partial)
  }

  lemma ExtendKeeps(log: FlatLog, p: Bytes, limit: nat)
    requires limit > 0 && log.Good(limit)
    ensures LinesGood(Extend(log, p), limit)
    ensures Extend(log, p).Original() == log.Original() + p
  {
    var s := log.partial + p;
    TailHasNoNL(s);
    CompleteHasNoNL(s);
    ExtendOriginal(log, p);
  }

  lemma ExtendOriginal(log: FlatLog, p: Bytes)
    ensures Extend(log, p).Original() == log.Original() + p
  {
    hide Complete, Tail, Joined, Ended;
    var s := log.partial + p;
    var news := Joined(Ended(Complete(s)));
    JoinedEnded(s);
    JoinedConcat(log.done, Ended(Complete(s)));
    assert Extend(log, p).Original() == (Joined(log.done) + news) + Tail(s);
    assert (Joined(log.done) + news) + Tail(s) == Joined(log.done) + (news + Tail(s));
  }

  lemma ForceKeeps(log: FlatLog, limit: nat)
    requires limit > 0 && LinesGood(log, limit)
    ensures Force(log, limit).Good(limit)
    ensures Force(log, limit).Original() == log.Original()
  {
    var l := Line(log.partial, true);
    assert (log.done + [l])[..|log.done + [l]| - 1] == log.done;
  }

  /**
   * One append keeps every completed line at its number, adds exactly the bytes
   * of p to the stream, and breaks a line elsewhere than at a newline only when
   * the line reached the limit.
   */
  lemma AppendKeeps(log: FlatLog, p: Bytes, limit: nat)
    requires limit > 0 && log.Good(limit)
    ensures Append(log, p, limit).Good(limit)
    ensures log.done <= Append(log, p, limit).done
    ensures Append(log, p, limit).Original() == log.Original() + p
  {
    ExtendKeeps(log, p, limit);
    ForceKeeps(Extend(log, p), limit);
  }

  /** For every run of appends: no byte is lost, added or reordered, and finished lines never change. */
  lemma {:induction false} ReplayKeeps(ps: seq<Bytes>, k: nat, limit: nat)
    requires limit > 0 && k <= |ps|
    ensures Replay(ps, limit).Good(limit)
    ensures Replay(ps[..k], limit).done <= Replay(ps, limit).done
    ensures Replay(ps, limit).Original() == Concat(ps)
  {
    if ps != [] {
      var init := ps[..|ps| - 1];
      ReplayKeeps(init, if k < |ps| then k else |ps| - 1, limit);
      AppendKeeps(Replay(init, limit), ps[|ps| - 1], limit);
      if k < |ps| {
        assert ps[..k] == init[..k];
      } else {
        assert ps[..k] == ps;
      }
    }
  }

  lemma {:induction false} JoinedSplit(done: seq<Line>)
    requires forall i :: 0 <= i < |done| ==> NoNL(done[i].text) && !done[i].forced
    ensures Complete(Joined(done)) == DoneTexts(done) && Tail(Joined(done)) == []
  {
    if done != [] {
      var init, text := done[..|done| - 1], done[|done| - 1].text;
      JoinedSplit(init);
      OneLine(text);
      CompleteConcat(Joined(init), text + [NL]);
      assert [] + (text + [NL]) == text + [NL];
      assert DoneTexts(done) == DoneTexts(init) + [text];
    }
  }

  lemma OneLine(text: Bytes)
    requires NoNL(text)
    ensures Complete(text + [NL]) == [text] && Tail(text + [NL]) == []
  {
    assert (text + [NL])[..|text + [NL]| - 1] == text;
    NoNLSplit(text);
  }

  ghost predicate NoForced(log: FlatLog) {
    forall i :: 0 <= i < |log.done| ==> !log.done[i].forced
  }

  /** Without forced splits the lines are those of the byte stream. */
  lemma UnforcedIsSplit(log: FlatLog)
    requires NoNL(log.partial) && NoForced(log) && forall i :: 0 <= i < |log.done| ==> NoNL(log.done[i].text)
    ensures DoneTexts(log.done) == Complete(log.Original()) && log.partial == Tail(log.Original())
  {
    JoinedSplit(log.done);
    CompleteConcat(Joined(log.done), log.partial);
    assert [] + log.partial == log.partial;
    NoNLSplit(log.partial);
  }

  // -------------------------------------------------- when the lines are the stream's

  /** Whenever an append was done, the line then unfinished was below the limit. */
  ghost predicate TailsShort(ps: seq<Bytes>, limit: nat) {
    forall k :: 0 <= k <= |ps| ==> |Tail(Concat(ps[..k]))| < limit
  }

  lemma TailsShortSnoc(ps: seq<Bytes>, limit: nat)
    requires ps != []
    ensures TailsShort(ps, limit) <==> TailsShort(ps[..|ps| - 1], limit) && |Tail(Concat(ps))| < limit
  {
    hide Tail, Concat;
    var init := ps[..|ps| - 1];
    assert ps[..|ps|] == ps;
    assert forall k :: 0 <= k < |ps| ==> init[..k] == ps[..k];
  }

  lemma {:induction false} UnforcedIff(ps: seq<Bytes>, limit: nat)
    requires limit > 0
    ensures NoForced(Replay(ps, limit)) <==> TailsShort(ps, limit)
  {
    hide Tail, Complete, Concat, FlatLog.Original;
    ReplayKeeps(ps, 0, limit);
    if ps == [] {
      NoBytes(ps);
    } else {
      var init, p := ps[..|ps| - 1], ps[|ps| - 1];
      var log := Replay(init, limit);
      UnforcedIff(init, limit);
      ReplayKeeps(init, 0, limit);
      TailsShortSnoc(ps, limit);
      ForcedStays(log, p, limit);
      if NoForced(log) {
        UnforcedIsSplit(log);
        ConcatSnoc(ps);
        CompleteConcat(Concat(init), p);
      }
    }
  }

  lemma NoBytes(ps: seq<Bytes>)
    requires ps == []
    ensures Concat(ps) == [] && Tail([]) == [] && forall k :: 0 <= k <= |ps| ==> ps[..k] == []
  {
  }

  lemma ConcatSnoc(ps: seq<Bytes>)
    requires ps != []
    ensures Concat(ps) == Concat(ps[..|ps| - 1]) + ps[|ps| - 1]
  {
  }

  /** One append forces a split exactly when the unfinished line reaches the limit, and forced splits stay. */
  lemma ForcedStays(log: FlatLog, p: Bytes, limit: nat)
    ensures NoForced(Append(log, p, limit)) <==> NoForced(log) && |Tail(log.partial + p)| < limit
  {
    hide Complete, Tail;
    var r := Append(log, p, limit);
    assert log.done <= r.done;
    if |Tail(log.partial + p)| >= limit {
      assert r.done[|r.done| - 1].forced;
    }
    if !NoForced(log) {
      var i :| 0 <= i < |log.done| && log.done[i].forced;
      assert r.done[i].forced;
    }
  }

  function CountForced(done: seq<Line>): nat {
    if done == [] then 0 else CountForced(done[..|done| - 1]) + if done[|done| - 1].forced then 1 else 0
  }

  /** Newlines end exactly the lines that were not forced. */
  lemma {:induction false} ForcedCount(done: seq<Line>)
    requires forall i :: 0 <= i < |done| ==> NoNL(done[i].text)
    ensures |Complete(Joined(done))| + CountForced(done) == |done|
    ensures CountForced(done) == 0 ==> forall i :: 0 <= i < |done| ==> !done[i].forced
  {
    hide Tail, Complete;
    NoNLSplit([]);
    if done != [] {
      var init, l := done[..|done| - 1], done[|done| - 1];
      ForcedCount(init);
      var a := Joined(init);
      TailIsSuffix(a);
      CompleteConcat(a, Wire(l));
      if l.forced {
        NoNLSplit(Tail(a) + l.text);
        assert l.text + [] == l.text;
      } else {
        OneLine(Tail(a) + l.text);
        assert Tail(a) + (l.text + [NL]) == (Tail(a) + l.text) + [NL];
      }
    }
  }

  /** The log's lines are those of the bytes appended iff no unfinished line had reached the limit when an append was done. */
  lemma LinesAreStreamIff(ps: seq<Bytes>, limit: nat)
    requires limit > 0
    ensures var log := Replay(ps, limit);
            DoneTexts(log.done) == Complete(Concat(ps)) && log.partial == Tail(Concat(ps)) <==> TailsShort(ps, limit)
  {
    hide Tail, Complete, Concat, TailsShort;
    var log := Replay(ps, limit);
    ReplayKeeps(ps, 0, limit);
    UnforcedIff(ps, limit);
    ForcedCount(log.done);
    TailIsSuffix(Joined(log.done));
    CompleteConcat(Joined(log.done), log.partial);
    NoNLSplit(Tail(Joined(log.done)) + log.partial);
    if NoForced(log) {
      UnforcedIsSplit(log);
    }
  }

  /** No stretch of bytes without a newline reaches the limit. */
  ghost predicate ShortRuns(b: Bytes, limit: nat) {
    forall i, j :: 0 <= i <= j <= |b| && NoNL(b[i..j]) ==> j - i < limit
  }

  lemma {:induction false} ConcatPrefix(ps: seq<Bytes>, k: nat)
    requires k <= |ps|
    ensures Concat(ps[..k]) <= Concat(ps)
    decreases |ps|
  {
    if k == |ps| {
      assert ps[..k] == ps;
    } else {
      ConcatPrefix(ps[..|ps| - 1], k);
      assert ps[..|ps| - 1][..k] == ps[..k];
    }
  }

  lemma ShortRunsSuffice(ps: seq<Bytes>, limit: nat)
    requires ShortRuns(Concat(ps), limit)
    ensures TailsShort(ps, limit)
  {
    hide Tail, Concat;
    forall k | 0 <= k <= |ps| ensures |Tail(Concat(ps[..k]))| < limit {
      var a, b := Concat(ps[..k]), Concat(ps);
      ConcatPrefix(ps, k);
      TailIsSuffix(a);
      assert b[|a| - |Tail(a)|..|a|] == Tail(a);
    }
  }

  lemma TwoPieces(b: Bytes, j: nat)
    requires j <= |b|
    ensures Concat([b[..j], b[j..]]) == b && Concat([b[..j], b[j..]][..1]) == b[..j]
  {
    var ps := [b[..j], b[j..]];
    assert ps[..1] == [b[..j]] && [b[..j]][..0] == [];
    assert Concat([b[..j]]) == [] + b[..j];
    assert b[..j] + b[j..] == b;
  }

  /** However a byte stream is appended its lines come out whole, iff no stretch of it without a newline reaches the limit. */
  lemma AnyCutIff(b: Bytes, limit: nat)
    requires limit > 0
    ensures (forall ps :: Concat(ps) == b ==> NoForced(Replay(ps, limit))) <==> ShortRuns(b, limit)
  {
    hide Tail, Concat, Replay, NoForced;
    if ShortRuns(b, limit) {
      forall ps | Concat(ps) == b ensures NoForced(Replay(ps, limit)) {
        ShortRunsSuffice(ps, limit);
        UnforcedIff(ps, limit);
      }
    } else {
      var i, j :| 0 <= i <= j <= |b| && NoNL(b[i..j]) && j - i >= limit;
      var ps := [b[..j], b[j..]];
      TwoPieces(b, j);
      assert b[..j][i..] == b[i..j];
      TailAtLeast(b[..j], i);
      UnforcedIff(ps, limit);
      assert |Tail(Concat(ps[..1]))| >= limit;
    }
  }
}
