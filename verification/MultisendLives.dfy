/** Multi-send over whole lives: what becomes of a target, and of each target of a job. */
module MultisendLives {
  import opened Wrappers
  import opened ByteLines
  import opened Multisend

  /** What happens to a target once its line was sent. */
  datatype Signal = Hears(clean: Bytes, now: int) | TimesOut(now: int) | Fails(msg: Bytes, now: int)

  function Struck(t: Target, p: Patterns, s: Signal): Target {
    match s
    case Hears(clean, now) => FeedStep(t, p, clean, now)
    case TimesOut(now) => TimeoutStep(t, now)
    case Fails(msg, now) => FailStep(t, msg, now)
  }

  function Lives(t: Target, p: Patterns, signals: seq<Signal>): Target {
    if signals == [] then t else Struck(Lives(t, p, signals[..|signals| - 1]), p, signals[|signals| - 1])
  }

  // ------------------------------------------------------ in terms of what was heard

  /** All output of a life, cleaned. */
  function Said(signals: seq<Signal>): Bytes {
    if signals == [] then []
    else
      var s := signals[|signals| - 1];
      Said(signals[..|signals| - 1]) + if s.Hears? then s.clean else []
  }

  /** The tail kept of what was said in the first k signals. */
  function TailAt(signals: seq<Signal>, k: nat): Bytes
    requires k <= |signals|
  {
    LastBytes(Said(signals[..k]), MAX_TAIL)
  }

  /** The k-th signal is output. */
  predicate HearsAt(signals: seq<Signal>, k: nat) {
    0 < k <= |signals| && signals[k - 1].Hears?
  }

  /** After the k-th signal the last line is a prompt. */
  predicate Prompts(p: Patterns, signals: seq<Signal>, k: nat) {
    HearsAt(signals, k) && p.prompt.Some? && p.prompt.value(Tail(TailAt(signals, k)))
  }

  /** After the k-th signal the tail holds the non-empty line that was sent. */
  predicate Echoes(line: Bytes, signals: seq<Signal>, k: nat) {
    HearsAt(signals, k) && line != [] && Contains(TailAt(signals, k), line)
  }

  /** After the k-th signal the error pattern matches the tail, in a line that is not blank. */
  predicate Complains(p: Patterns, signals: seq<Signal>, k: nat) {
    HearsAt(signals, k) && p.error.Some? && p.error.value(TailAt(signals, k)).Some?
    && p.trim(LineAt(TailAt(signals, k), p.error.value(TailAt(signals, k)).value)) != []
  }

  function Complaint(p: Patterns, signals: seq<Signal>, k: nat): Bytes
    requires Complains(p, signals, k)
  {
    p.trim(LineAt(TailAt(signals, k), p.error.value(TailAt(signals, k)).value))
  }

  /** The k-th signal is a timeout or brings the prompt back. */
  predicate Ends(p: Patterns, signals: seq<Signal>, k: nat) {
    0 < k <= |signals| && (signals[k - 1].TimesOut? || Prompts(p, signals, k))
  }

  ghost predicate FirstEnd(p: Patterns, signals: seq<Signal>, k: nat) {
    Ends(p, signals, k) && forall j :: 0 < j < k ==> !Ends(p, signals, j)
  }

  /** The error text among the first k signals is that of the first complaint, empty without one. */
  ghost predicate ErrTextIs(p: Patterns, signals: seq<Signal>, k: nat, text: Bytes) {
    || (text == [] && forall j :: 0 < j <= k ==> !Complains(p, signals, j))
    || exists j: nat :: j <= k && FirstComplaintIs(p, signals, j, text)
  }

  ghost predicate FirstComplaintIs(p: Patterns, signals: seq<Signal>, k: nat, text: Bytes) {
    && Complains(p, signals, k) && text == Complaint(p, signals, k)
    && forall j :: 0 < j < k ==> !Complains(p, signals, j)
  }

  ghost predicate Echoed(line: Bytes, signals: seq<Signal>) {
    exists k: nat :: Echoes(line, signals, k)
  }

  ghost predicate Complained(p: Patterns, signals: seq<Signal>, k: nat) {
    exists j :: 0 < j <= k && Complains(p, signals, j)
  }

  /** A life without its end: running, echoed exactly when the line was seen. */
  ghost predicate Open(t: Target, line: Bytes, p: Patterns, signals: seq<Signal>) {
    && t.state == (if Echoed(line, signals) then State.Echoed else Sent) && t.sawEcho == Echoed(line, signals)
    && t.ended == None
    && t.tail == TailAt(signals, |signals|) && ErrTextIs(p, signals, |signals|, t.errText)
  }

  /** A life that ended with signal k: timed out, or an error or not, as it was when the prompt came back. */
  ghost predicate Over(t: Target, p: Patterns, signals: seq<Signal>, k: nat)
    requires Ends(p, signals, k)
  {
    && t.state == (if signals[k - 1].TimesOut? then Timeout else if Complained(p, signals, k) then Error else OK)
    && t.ended == Some(signals[k - 1].now)
    && t.tail == TailAt(signals, k) && ErrTextIs(p, signals, k, t.errText)
  }

  /** What the first k signals say does not depend on those that follow. */
  lemma Before(line: Bytes, p: Patterns, signals: seq<Signal>, m: nat, k: nat)
    requires k <= m <= |signals|
    ensures var init := signals[..m];
            && TailAt(init, k) == TailAt(signals, k)
            && (Echoes(line, init, k) <==> Echoes(line, signals, k))
            && (Complains(p, init, k) <==> Complains(p, signals, k))
            && (Ends(p, init, k) <==> Ends(p, signals, k))
  {
    assert signals[..m][..k] == signals[..k];
  }

  lemma AllBefore(line: Bytes, p: Patterns, signals: seq<Signal>, m: nat)
    requires m <= |signals|
    ensures forall k: nat :: k <= m ==>
              && TailAt(signals[..m], k) == TailAt(signals, k)
              && (Echoes(line, signals[..m], k) <==> Echoes(line, signals, k))
              && (Complains(p, signals[..m], k) <==> Complains(p, signals, k))
              && (Ends(p, signals[..m], k) <==> Ends(p, signals, k))
  {
    forall k: nat | k <= m
      ensures && TailAt(signals[..m], k) == TailAt(signals, k)
              && (Echoes(line, signals[..m], k) <==> Echoes(line, signals, k))
              && (Complains(p, signals[..m], k) <==> Complains(p, signals, k))
              && (Ends(p, signals[..m], k) <==> Ends(p, signals, k))
    {
      Before(line, p, signals, m, k);
    }
  }

  /** The error text so far, with one more signal. */
  lemma ErrTextNext(p: Patterns, signals: seq<Signal>, was: Bytes, text: Bytes)
    requires signals != []
    requires ErrTextIs(p, signals[..|signals| - 1], |signals| - 1, was)
    requires text == if was == [] && Complains(p, signals, |signals|) then Complaint(p, signals, |signals|) else was
    ensures ErrTextIs(p, signals, |signals|, text)
  {
    hide Complains, Complaint, TailAt;
    var n := |signals|;
    AllBefore([], p, signals, n - 1);
    ComplaintsNotEmpty(p, signals[..n - 1]);
    var init := signals[..n - 1];
    if j: nat :| j <= n - 1 && FirstComplaintIs(p, init, j, was) {
      SameComplaint(p, signals, n - 1, j);
      assert FirstComplaintIs(p, signals, j, was);
    } else if Complains(p, signals, n) {
      assert FirstComplaintIs(p, signals, n, text);
    }
  }

  lemma ComplaintsNotEmpty(p: Patterns, signals: seq<Signal>)
    ensures forall k: nat :: Complains(p, signals, k) ==> 0 < k <= |signals| && Complaint(p, signals, k) != []
  {
  }

  lemma SameComplaint(p: Patterns, signals: seq<Signal>, m: nat, k: nat)
    requires k <= m <= |signals| && Complains(p, signals[..m], k)
    ensures Complains(p, signals, k) && Complaint(p, signals, k) == Complaint(p, signals[..m], k)
  {
    Before([], p, signals, m, k);
  }

  /** More output in an open life, apart from the prompt. */
  lemma ScanNext(line: Bytes, p: Patterns, signals: seq<Signal>, u: Target)
    requires signals != [] && signals[|signals| - 1].Hears?
    requires u.line == line && Open(u, line, p, signals[..|signals| - 1])
    ensures Open(ScanStep(u, p, signals[|signals| - 1].clean), line, p, signals)
  {
    hide ErrTextIs, Complained, LineAt, Contains, Tail, LastBytes, Echoed;
    var n, clean := |signals|, signals[|signals| - 1].clean;
    var init := signals[..n - 1];
    TailNext(signals);
    EchoedNext(line, p, signals);
    assert signals[..n] == signals && init[..n - 1] == init;
    ErrTextNext(p, signals, u.errText,
                if u.errText == [] && Complains(p, signals, n) then Complaint(p, signals, n) else u.errText);
  }

  lemma TailNext(signals: seq<Signal>)
    requires signals != []
    ensures var n := |signals|;
            var clean := if signals[n - 1].Hears? then signals[n - 1].clean else [];
            && LastBytes(TailAt(signals[..n - 1], n - 1) + clean, MAX_TAIL) == TailAt(signals, n)
            && (clean == [] ==> TailAt(signals, n) == TailAt(signals[..n - 1], n - 1))
  {
    hide LastBytes;
    var n := |signals|;
    assert signals[..n] == signals && signals[..n - 1][..n - 1] == signals[..n - 1];
    TailOfTwo(Said(signals[..n - 1]), if signals[n - 1].Hears? then signals[n - 1].clean else [], MAX_TAIL);
  }

  /** One signal in an open life. */
  lemma OpenNext(line: Bytes, p: Patterns, signals: seq<Signal>, u: Target)
    requires signals != [] && !signals[|signals| - 1].Fails?
    requires u.line == line && Open(u, line, p, signals[..|signals| - 1])
    ensures var n := |signals|;
            var t := Struck(u, p, signals[n - 1]);
            && t.line == line && t.started == u.started
            && (!Ends(p, signals, n) ==> Open(t, line, p, signals))
            && (Ends(p, signals, n) ==> Over(t, p, signals, n))
  {
    hide ErrTextIs, Complained, LineAt, Contains, Tail, LastBytes, TailAt, Echoed;
    var n := |signals|;
    if signals[n - 1].Hears? {
      ScanNext(line, p, signals, u);
      ErrTextTells(p, signals, ScanStep(u, p, signals[n - 1].clean).errText);
    } else {
      TailNext(signals);
      EchoedNext(line, p, signals);
      ErrTextNext(p, signals, u.errText, u.errText);
    }
  }

  /** There is an error text exactly when there was a complaint. */
  lemma ErrTextTells(p: Patterns, signals: seq<Signal>, text: Bytes)
    requires ErrTextIs(p, signals, |signals|, text)
    ensures text != [] <==> Complained(p, signals, |signals|)
  {
    hide Complains, Complaint;
    ComplaintsNotEmpty(p, signals);
  }

  lemma EchoedNext(line: Bytes, p: Patterns, signals: seq<Signal>)
    requires signals != []
    ensures Echoed(line, signals) <==> Echoed(line, signals[..|signals| - 1]) || Echoes(line, signals, |signals|)
  {
    hide TailAt, Contains;
    var n := |signals|;
    var init := signals[..n - 1];
    AllBefore(line, p, signals, n - 1);
    if k: nat :| Echoes(line, init, k) {
      assert Echoes(line, signals, k);
    }
    if k: nat :| Echoes(line, signals, k) {
      assert k < n ==> Echoes(line, init, k);
    }
  }

  /**
   * The whole life of a target from its send on: while there is no timeout and no prompt it is sent, or echoed
   * exactly when a tail held the line; the first of these settles it, and a prompt settles it as an error exactly
   * when the error pattern had matched a tail by then, in a line that is not blank.
   */
  lemma {:induction false} Life(line: Bytes, sent: int, p: Patterns, signals: seq<Signal>)
    requires forall k :: 0 <= k < |signals| ==> !signals[k].Fails?
    ensures var t := Lives(Begin(line, sent), p, signals);
            && t.line == line && t.started == Some(sent)
            && ((forall k: nat :: !Ends(p, signals, k)) ==> Open(t, line, p, signals))
            && (forall k: nat :: FirstEnd(p, signals, k) ==> Over(t, p, signals, k))
  {
    hide Open, Over, Ends;
    if signals == [] {
      LifeBegins(line, sent, p);
    } else {
      var n := |signals|;
      var init := signals[..n - 1];
      Life(line, sent, p, init);
      var u := Lives(Begin(line, sent), p, init);
      EndsWithin(p, init);
      EndsWithin(p, signals);
      AllBefore(line, p, signals, n - 1);
      if k: nat :| Ends(p, init, k) {
        var j := FirstOf(p, init, k);
        assert FirstEnd(p, signals, j);
        OverStays(p, signals, j, u);
        assert forall i: nat :: FirstEnd(p, signals, i) ==> i == j;
      } else {
        OpenNext(line, p, signals, u);
        assert forall i: nat :: FirstEnd(p, signals, i) ==> i == n;
      }
    }
  }

  lemma EndsWithin(p: Patterns, signals: seq<Signal>)
    ensures forall k: nat :: Ends(p, signals, k) ==> 0 < k <= |signals|
  {
  }

  lemma LifeBegins(line: Bytes, sent: int, p: Patterns)
    ensures Lives(Begin(line, sent), p, []) == Begin(line, sent)
    ensures Open(Begin(line, sent), line, p, []) && forall k: nat :: !Ends(p, [], k)
  {
  }

  lemma {:induction false} FirstOf(p: Patterns, signals: seq<Signal>, k: nat) returns (j: nat)
    requires Ends(p, signals, k)
    ensures FirstEnd(p, signals, j)
  {
    hide Ends;
    if i: nat :| 0 < i < k && Ends(p, signals, i) {
      j := FirstOf(p, signals, i);
    } else {
      j := k;
    }
  }

  /** Nothing but a failing send touches a target whose life is over. */
  lemma OverStays(p: Patterns, signals: seq<Signal>, k: nat, u: Target)
    requires signals != [] && k < |signals| && !signals[|signals| - 1].Fails?
    requires Ends(p, signals[..|signals| - 1], k) && Over(u, p, signals[..|signals| - 1], k)
    ensures Struck(u, p, signals[|signals| - 1]) == u
    ensures Ends(p, signals, k) && Over(u, p, signals, k)
  {
    hide Complains, TailAt, Complaint;
    var n := |signals|;
    AllBefore([], p, signals, n - 1);
    var init := signals[..n - 1];
    if j: nat :| j <= k && FirstComplaintIs(p, init, j, u.errText) {
      SameComplaint(p, signals, n - 1, j);
      assert FirstComplaintIs(p, signals, j, u.errText);
    }
  }

  /** A failing send makes an error with its text of any target, and the last one to fail has the word. */
  lemma {:induction false} FailedLife(t: Target, p: Patterns, signals: seq<Signal>, k: nat)
    requires 0 < k <= |signals| && signals[k - 1].Fails?
    requires forall j :: k <= j < |signals| ==> !signals[j].Fails?
    ensures var r := Lives(t, p, signals);
            r.state == Error && r.errText == signals[k - 1].msg && r.ended == Some(signals[k - 1].now)
  {
    if k < |signals| {
      FailedLife(t, p, signals[..|signals| - 1], k);
    }
  }

  // ------------------------------------------------------ the targets of a job

  /** What is kept of the output ends where the output ends, and is all of it or MAX_TAIL bytes. */
  lemma TailAtExact(signals: seq<Signal>, k: nat) returns (gone: Bytes)
    requires k <= |signals|
    ensures Said(signals[..k]) == gone + TailAt(signals, k)
    ensures |TailAt(signals, k)| == MAX_TAIL || (|TailAt(signals, k)| < MAX_TAIL && gone == [])
  {
    var all := Said(signals[..k]);
    gone := all[..|all| - |TailAt(signals, k)|];
  }

  /** The line around a position: from the newline before it, or the beginning, to the newline at or after it, or the end. */
  lemma LineAtExact(b: Bytes, idx: nat) returns (lo: nat, hi: nat)
    requires idx <= |b|
    ensures lo <= idx <= hi <= |b| && LineAt(b, idx) == b[lo..hi] && NoNL(b[lo..hi])
    ensures (lo == 0 || b[lo - 1] == NL) && (hi == |b| || b[hi] == NL)
  {
    TailIsSuffix(b[..idx]);
    TailStops(b[..idx]);
    UpToNLExact(b[idx..]);
    lo, hi := idx - |Tail(b[..idx])|, idx + |UpToNL(b[idx..])|;
    assert b[lo..idx] == b[..idx][lo..] && b[idx..hi] == b[idx..][..hi - idx];
    assert b[lo..hi] == b[lo..idx] + b[idx..hi];
    assert lo > 0 ==> b[lo - 1] == b[..idx][lo - 1];
    assert hi < |b| ==> b[hi] == b[idx..][hi - idx];
  }

  lemma {:induction false} TailStops(b: Bytes)
    ensures |Tail(b)| <= |b| && (|Tail(b)| == |b| || b[|b| - |Tail(b)| - 1] == NL)
  {
    if b != [] && b[|b| - 1] != NL {
      TailStops(b[..|b| - 1]);
    }
  }

  lemma {:induction false} UpToNLExact(b: Bytes)
    ensures var n := |UpToNL(b)|; n <= |b| && UpToNL(b) == b[..n] && NoNL(b[..n]) && (n == |b| || b[n] == NL)
  {
    if b != [] && b[0] != NL {
      UpToNLExact(b[1..]);
      var n := |UpToNL(b)|;
      assert b[..n] == [b[0]] + b[1..][..n - 1];
    }
  }

  /** What sending target i its line does to it at once. */
  function SendSignal(c: JobConfig, i: nat, now: int): seq<Signal>
    requires i < |c.ids|
  {
    match c.SendError(i)
    case None => []
    case Some(msg) => [Fails(msg, now)]
  }

  /** What one event means for target i, begun at t0. */
  function SignalOf(c: JobConfig, i: nat, t0: int, e: Event): seq<Signal> {
    match e
    case Output(k, clean, now) => if k == i then [Hears(clean, now)] else []
    case Sweep(now) => if now - t0 >= c.timeout then [TimesOut(now)] else []
  }

  function Signals(c: JobConfig, i: nat, t0: int, events: seq<Event>): seq<Signal> {
    if events == [] then []
    else Signals(c, i, t0, events[..|events| - 1]) + SignalOf(c, i, t0, events[|events| - 1])
  }

  /** Target i sent its own line at t0, and then all that the events mean for it. */
  function WholeLife(c: JobConfig, i: nat, t0: int, events: seq<Event>): Target
    requires i < |c.ids| == |c.patterns|
  {
    Lives(Begin(c.LineOf(i), t0), c.patterns[i], SendSignal(c, i, t0) + Signals(c, i, t0, events))
  }

  lemma {:induction false} LivesStarted(t: Target, p: Patterns, signals: seq<Signal>)
    ensures Lives(t, p, signals).started == t.started
    ensures t.state != Pending ==> Lives(t, p, signals).state != Pending
  {
    if signals != [] {
      LivesStarted(t, p, signals[..|signals| - 1]);
    }
  }

  /** One more event, seen by a target with a life. */
  function Touched(c: JobConfig, i: nat, t: Target, e: Event): Target
    requires i < |c.patterns|
  {
    match e
    case Output(k, clean, now) => if k == i then FeedStep(t, c.patterns[i], clean, now) else t
    case Sweep(now) => if Elapsed(t, now) >= c.timeout then TimeoutStep(t, now) else t
  }

  lemma WholeLifeNext(c: JobConfig, i: nat, t0: int, events: seq<Event>)
    requires i < |c.ids| == |c.patterns| && events != []
    ensures WholeLife(c, i, t0, events) == Touched(c, i, WholeLife(c, i, t0, events[..|events| - 1]), events[|events| - 1])
    ensures WholeLife(c, i, t0, events).started == Some(t0) && WholeLife(c, i, t0, events).state != Pending
  {
    hide FeedStep, TimeoutStep, FailStep;
    var sent, init, more := SendSignal(c, i, t0), Signals(c, i, t0, events[..|events| - 1]), SignalOf(c, i, t0, events[|events| - 1]);
    var t, p := Begin(c.LineOf(i), t0), c.patterns[i];
    LivesStarted(t, p, sent + init);
    LivesStarted(t, p, sent + (init + more));
    if more == [] {
      assert init + more == init;
    } else {
      var all := sent + (init + more);
      assert all[..|all| - 1] == sent + init && all[|all| - 1] == more[0];
    }
  }

  lemma LifeAtFirst(c: JobConfig, i: nat, now: int)
    requires i < |c.ids| == |c.patterns|
    ensures var begun := Begin(c.LineOf(i), now);
            WholeLife(c, i, now, []) == match c.SendError(i)
                                        case None => begun
                                        case Some(msg) => FailStep(begun, msg, now)
    ensures WholeLife(c, i, now, []).started == Some(now) && WholeLife(c, i, now, []).state != Pending
  {
    var sent, begun := SendSignal(c, i, now), Begin(c.LineOf(i), now);
    assert Signals(c, i, now, []) == [] && sent + [] == sent;
    assert Lives(begun, c.patterns[i], []) == begun;
    if sent != [] {
      assert sent[..0] == [] && |sent| == 1;
      assert Lives(begun, c.patterns[i], sent) == Struck(begun, c.patterns[i], sent[0]);
    }
  }

  // ------------------------------------------------------------- parallel jobs

  lemma {:induction false} StartAllLives(c: JobConfig, j: JobVal, k: nat, t0: int)
    requires !c.sequential && Fits(c, j) && k <= |j.targets|
    ensures var r := StartAll(c, j, k, t0);
            && |r.targets| == |j.targets|
            && forall i :: 0 <= i < |j.targets| ==>
                 r.targets[i] == if i < k then j.targets[i] else WholeLife(c, i, t0, [])
    decreases |j.targets| - k
  {
    hide WholeLife;
    if k < |j.targets| {
      LifeAtFirst(c, k, t0);
      StartAllLives(c, StartedTarget(c, j, k, t0), k + 1, t0);
    }
  }

  /** A sweep of a parallel job times out exactly the running targets that are overdue. */
  lemma {:induction false} ParallelSweep(c: JobConfig, j: JobVal, k: nat, now: int)
    requires !c.sequential && Fits(c, j) && k <= |j.targets|
    ensures var r := SweepFrom(c, j, k, now);
            && |r.targets| == |j.targets|
            && forall i :: 0 <= i < |j.targets| ==>
                 r.targets[i] == if i < k then j.targets[i] else Touched(c, i, j.targets[i], Sweep(now))
    decreases |j.targets| - k
  {
    if k < |j.targets| {
      ParallelSweep(c, SweepOne(c, j, k, now), k + 1, now);
    }
  }

  /**
   * Each target of a parallel job is begun at the start with its own line and then lives through exactly
   * its own output and the sweeps that find it overdue, whatever the others do.
   */
  lemma {:induction false} ParallelLives(c: JobConfig, j: JobVal, events: seq<Event>, t0: int)
    requires !c.sequential && Fits(c, j) && !j.started
    ensures var r := RunFrom(c, StartJob(c, j, t0), events);
            && |r.targets| == |j.targets|
            && forall i :: 0 <= i < |j.targets| ==> r.targets[i] == WholeLife(c, i, t0, events)
  {
    hide WholeLife;
    if events == [] {
      StartAllLives(c, j.(started := true), 0, t0);
    } else {
      var e := events[|events| - 1];
      ParallelLives(c, j, events[..|events| - 1], t0);
      var r := RunFrom(c, StartJob(c, j, t0), events[..|events| - 1]);
      if e.Sweep? {
        ParallelSweep(c, r, 0, e.now);
      }
      forall i | 0 <= i < |j.targets| ensures Apply(c, r, e).targets[i] == WholeLife(c, i, t0, events) {
        WholeLifeNext(c, i, t0, events);
      }
    }
  }

  // ----------------------------------------------------------- sequential jobs

  /** Passing the turn on begins targets behind the current one, each with its own line, and touches no other. */
  lemma {:induction false} AdvanceLives(c: JobConfig, j: JobVal, now: int)
    requires c.sequential && Fits(c, j) && j.cur < |j.targets|
    requires forall i :: j.cur < i < |j.targets| ==> Untouched(j.targets[i])
    ensures var r := AdvancedSeq(c, j, j.cur, now);
            && |r.targets| == |j.targets|
            && (forall i :: 0 <= i <= j.cur ==> r.targets[i] == j.targets[i])
            && (forall i :: j.cur < i < |j.targets| ==>
                  r.targets[i] == j.targets[i] || r.targets[i] == WholeLife(c, i, now, []))
    decreases |j.targets| - j.cur
  {
    hide WholeLife;
    var next := j.(cur := j.cur + 1);
    if next.cur < |next.targets| {
      var i := next.cur;
      LifeAtFirst(c, i, now);
      var begun := Begin(c.LineOf(i), now);
      match c.SendError(i)
      case None =>
        assert AdvancedSeq(c, j, j.cur, now) == next.(targets := next.targets[i := begun]);
      case Some(msg) =>
        var failed := next.(targets := next.targets[i := FailStep(begun, msg, now)]);
        assert AdvancedSeq(c, j, j.cur, now) == AdvancedSeq(c, failed, i, now);
        AdvanceLives(c, failed, now);
    }
  }

  /** What one call does to target i: one that has begun is touched, a pending one may be begun. */
  ghost predicate Continues(c: JobConfig, i: nat, was: Target, t: Target, e: Event)
    requires i < |c.ids| == |c.patterns|
  {
    if was.state != Pending then t == Touched(c, i, was, e)
    else t == was || t == WholeLife(c, i, e.now, [])
  }

  lemma FeedLives(c: JobConfig, j: JobVal, e: Event)
    requires c.sequential && InTurn(c, j) && j.started && e.Output?
    ensures var r := Apply(c, j, e);
            |r.targets| == |j.targets| && forall i :: 0 <= i < |j.targets| ==> Continues(c, i, j.targets[i], r.targets[i], e)
  {
    hide WholeLife, AdvancedSeq;
    var i := e.target;
    if i < |j.targets| {
      FeedKeeps(j.targets[i], c.patterns[i], e.clean, e.now);
      var t := FeedStep(j.targets[i], c.patterns[i], e.clean, e.now);
      if t.state != j.targets[i].state && t.Final() {
        AdvanceLives(c, j.(targets := j.targets[i := t]), e.now);
      }
    }
  }

  lemma SweepOneLives(c: JobConfig, j: JobVal, k: nat, now: int)
    requires c.sequential && c.timeout > 0 && InTurn(c, j) && j.started && k < |j.targets|
    ensures var r := SweepOne(c, j, k, now);
            && |r.targets| == |j.targets|
            && r.targets[k] == Touched(c, k, j.targets[k], Sweep(now))
            && (forall i :: 0 <= i < |j.targets| && i != k && j.targets[i].state != Pending ==> r.targets[i] == j.targets[i])
            && (forall i :: 0 <= i < |j.targets| && j.targets[i].state == Pending ==>
                  r.targets[i] == j.targets[i] || r.targets[i] == WholeLife(c, i, now, []))
  {
    hide WholeLife, AdvancedSeq;
    if j.targets[k].Running() && Elapsed(j.targets[k], now) >= c.timeout {
      assert k == j.cur;
      AdvanceLives(c, j.(targets := j.targets[k := TimeoutStep(j.targets[k], now)]), now);
    }
  }

  lemma {:induction false} SweepLives(c: JobConfig, j: JobVal, k: nat, now: int)
    requires c.sequential && c.timeout > 0 && InTurn(c, j) && j.started && k <= |j.targets|
    ensures var r := SweepFrom(c, j, k, now);
            && |r.targets| == |j.targets|
            && (forall i :: 0 <= i < |j.targets| && j.targets[i].state != Pending ==>
                  r.targets[i] == if i < k then j.targets[i] else Touched(c, i, j.targets[i], Sweep(now)))
            && (forall i :: 0 <= i < |j.targets| && j.targets[i].state == Pending ==>
                  r.targets[i] == j.targets[i] || r.targets[i] == WholeLife(c, i, now, []))
    decreases |j.targets| - k
  {
    hide WholeLife, SweepOne, InTurn, Begin;
    InTurnFits(c, j);
    if k < |j.targets| {
      var m := SweepOne(c, j, k, now);
      SweepOneKeeps(c, j, k, now);
      SweepOneLives(c, j, k, now);
      InTurnFits(c, m);
      SweepLives(c, m, k + 1, now);
      forall i | 0 <= i < |j.targets|
        ensures WholeLife(c, i, now, []).state != Pending && Elapsed(WholeLife(c, i, now, []), now) < c.timeout
      {
        LifeAtFirst(c, i, now);
      }
    }
  }

  /** A life that began with the start of the job (b == 0) or with event b - 1. */
  ghost predicate LifeSince(c: JobConfig, i: nat, t0: int, events: seq<Event>, b: nat, t: Target)
    requires i < |c.ids| == |c.patterns|
  {
    b <= |events| && t == WholeLife(c, i, if b == 0 then t0 else events[b - 1].now, events[b..])
  }

  ghost predicate HasLife(c: JobConfig, i: nat, t0: int, events: seq<Event>, t: Target)
    requires i < |c.ids| == |c.patterns|
  {
    exists b: nat :: LifeSince(c, i, t0, events, b, t)
  }

  lemma LifeGoesOn(c: JobConfig, i: nat, t0: int, events: seq<Event>, was: Target, t: Target)
    requires i < |c.ids| == |c.patterns| && events != []
    requires was.state != Pending ==> HasLife(c, i, t0, events[..|events| - 1], was)
    requires Continues(c, i, was, t, events[|events| - 1])
    ensures t.state != Pending ==> HasLife(c, i, t0, events, t)
  {
    hide WholeLife;
    var n := |events|;
    var init := events[..n - 1];
    if was.state != Pending {
      var b: nat :| LifeSince(c, i, t0, init, b, was);
      assert events[b..][..n - 1 - b] == init[b..];
      WholeLifeNext(c, i, if b == 0 then t0 else events[b - 1].now, events[b..]);
      assert LifeSince(c, i, t0, events, b, t);
    } else if t.state != Pending {
      assert events[n..] == [];
      assert LifeSince(c, i, t0, events, n, t);
    }
  }

  /**
   * In every run of a sequential job each target that has begun was sent its own line, at the start or at some
   * event, and has since lived through exactly its own output and the sweeps that found it overdue.
   */
  lemma {:induction false} SequentialLives(c: JobConfig, j: JobVal, events: seq<Event>, t0: int)
    requires c.sequential && c.timeout > 0 && InTurn(c, j) && !j.started
    ensures var r := RunFrom(c, StartJob(c, j, t0), events);
            && InTurn(c, r) && r.started && |r.targets| == |j.targets|
            && forall i :: 0 <= i < |r.targets| && r.targets[i].state != Pending ==>
                 HasLife(c, i, t0, events, r.targets[i])
  {
    hide InTurn, HasLife, Continues, Apply, StartJob;
    InTurnFits(c, j);
    if events == [] {
      FirstLife(c, j, t0);
    } else {
      var init, e := events[..|events| - 1], events[|events| - 1];
      SequentialLives(c, j, init, t0);
      var m := RunFrom(c, StartJob(c, j, t0), init);
      InTurnFits(c, m);
      EventLives(c, m, e);
      forall i | 0 <= i < |m.targets| && Apply(c, m, e).targets[i].state != Pending
        ensures HasLife(c, i, t0, events, Apply(c, m, e).targets[i])
      {
        LifeGoesOn(c, i, t0, events, m.targets[i], Apply(c, m, e).targets[i]);
      }
    }
  }

  lemma InTurnFits(c: JobConfig, j: JobVal)
    requires InTurn(c, j)
    ensures Fits(c, j)
  {
  }

  lemma EventLives(c: JobConfig, j: JobVal, e: Event)
    requires c.sequential && c.timeout > 0 && InTurn(c, j) && j.started
    ensures var r := Apply(c, j, e);
            && InTurn(c, r) && r.started && |r.targets| == |j.targets|
            && forall i :: 0 <= i < |j.targets| ==> Continues(c, i, j.targets[i], r.targets[i], e)
  {
    hide WholeLife, SweepFrom, FeedJob;
    if e.Sweep? {
      SweepKeeps(c, j, 0, e.now);
      SweepLives(c, j, 0, e.now);
    } else {
      FeedLives(c, j, e);
      if e.target < |j.targets| {
        FeedJobKeeps(c, j, e.target, e.clean, e.now);
      }
    }
  }

  lemma FirstLife(c: JobConfig, j: JobVal, t0: int)
    requires c.sequential && InTurn(c, j) && !j.started
    ensures var r := StartJob(c, j, t0);
            && InTurn(c, r) && r.started && |r.targets| == |j.targets|
            && forall i :: 0 <= i < |r.targets| && r.targets[i].state != Pending ==> HasLife(c, i, t0, [], r.targets[i])
  {
    hide WholeLife;
    StartKeeps(c, j, t0);
    var r := StartJob(c, j, t0);
    StartLives(c, j, t0);
    forall i | 0 <= i < |r.targets| && r.targets[i].state != Pending ensures HasLife(c, i, t0, [], r.targets[i]) {
      assert LifeSince(c, i, t0, [], 0, r.targets[i]);
    }
  }

  lemma StartLives(c: JobConfig, j: JobVal, t0: int)
    requires c.sequential && InTurn(c, j) && !j.started
    ensures var r := StartJob(c, j, t0);
            && |r.targets| == |j.targets|
            && forall i :: 0 <= i < |j.targets| ==>
                 r.targets[i].state == Pending || r.targets[i] == WholeLife(c, i, t0, [])
  {
    hide WholeLife, AdvancedSeq;
    if |j.targets| > 0 {
      LifeAtFirst(c, 0, t0);
      var begun := j.(started := true);
      match c.SendError(0)
      case None =>
      case Some(msg) =>
        AdvanceLives(c, begun.(targets := begun.targets[0 := FailStep(Begin(c.LineOf(0), t0), msg, t0)]), t0);
    }
  }
}
