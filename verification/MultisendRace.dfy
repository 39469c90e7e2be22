/** A sequential job under every interleaving of output, sweeping and failing sends. */
module MultisendRace {
  import opened Wrappers
  import opened ByteLines
  import opened Multisend

  /** What a thread inside the job does next; each is one critical section. */
  datatype Act =
    | Begins(i: nat)            // startTarget: about to begin target i
    | Sends(i: nat)             // target i begun, the write is in progress
    | Fails(i: nat, msg: Bytes) // the write failed, about to record it
    | Checks(i: nat)            // Feed changed target i, about to look whether it is final
    | Advances(i: nat)          // about to call advanceSeq for target i

  type Thread = nat

  /** `begun` is the history of begins. */
  datatype Race = Race(job: JobVal, threads: map<Thread, Act>, begun: seq<nat>)

  datatype Step =
    | CallStart(th: Thread)
    | CallFeed(th: Thread, i: nat, clean: Bytes, now: int)
    | CallTimeout(th: Thread, i: nat, now: int)  // one iteration of a sweep, on any stale reading of the clock
    | DoBegin(th: Thread, now: int)
    | SendOk(th: Thread)
    | SendFails(th: Thread, msg: Bytes)
    | DoFail(th: Thread, now: int)
    | DoCheck(th: Thread)
    | DoAdvance(th: Thread)

  predicate Enabled(c: JobConfig, s: Race, e: Step) {
    match e
    case CallStart(th) => th !in s.threads
    case CallFeed(th, i, _, _) => th !in s.threads && i < |s.job.targets|
    case CallTimeout(th, i, _) => th !in s.threads && i < |s.job.targets|
    case DoBegin(th, _) => th in s.threads && s.threads[th].Begins?
    case SendOk(th) => th in s.threads && s.threads[th].Sends?
    case SendFails(th, _) => th in s.threads && s.threads[th].Sends?
    case DoFail(th, _) => th in s.threads && s.threads[th].Fails?
    case DoCheck(th) => th in s.threads && s.threads[th].Checks?
    case DoAdvance(th) => th in s.threads && s.threads[th].Advances?
  }

  function SetTarget(s: Race, i: nat, t: Target): Race
    requires i < |s.job.targets|
  {
    s.(job := s.job.(targets := s.job.targets[i := t]))
  }

  function Goes(s: Race, th: Thread, a: Act): Race {
    s.(threads := s.threads[th := a])
  }

  function Leaves(s: Race, th: Thread): Race {
    s.(threads := s.threads - {th})
  }

  ghost predicate WellFormed(c: JobConfig, s: Race) {
    Fits(c, s.job) && forall th :: th in s.threads ==> s.threads[th].i < |s.job.targets|
  }

  lemma InvWellFormed(c: JobConfig, s: Race)
    requires Inv(c, s)
    ensures WellFormed(c, s)
  {
    forall th | th in s.threads ensures s.threads[th].i < |s.job.targets| {
      assert ThreadFits(s, th);
    }
  }

  function Next(c: JobConfig, s: Race, e: Step): Race
    requires WellFormed(c, s) && Enabled(c, s, e)
  {
    var n := |s.job.targets|;
    match e
    case CallStart(th) =>
      if s.job.started then s
      else
        var r := s.(job := s.job.(started := true));
        if n > 0 then Goes(r, th, Begins(0)) else r
    case CallFeed(th, i, clean, now) =>
      var t := FeedStep(s.job.targets[i], c.patterns[i], clean, now);
      var r := SetTarget(s, i, t);
      if t.state != s.job.targets[i].state then Goes(r, th, Checks(i)) else r
    case CallTimeout(th, i, now) =>
      if s.job.targets[i].Running()
      then Goes(SetTarget(s, i, TimeoutStep(s.job.targets[i], now)), th, Advances(i)) else s
    case DoBegin(th, now) =>
      var i := s.threads[th].i;
      Goes(SetTarget(s, i, Begin(c.LineOf(i), now)), th, Sends(i)).(begun := s.begun + [i])
    case SendOk(th) => Leaves(s, th)
    case SendFails(th, msg) => Goes(s, th, Fails(s.threads[th].i, msg))
    case DoFail(th, now) =>
      var a := s.threads[th];
      Goes(SetTarget(s, a.i, FailStep(s.job.targets[a.i], a.msg, now)), th, Advances(a.i))
    case DoCheck(th) =>
      var i := s.threads[th].i;
      if s.job.targets[i].Final() then Goes(s, th, Advances(i)) else Leaves(s, th)
    case DoAdvance(th) =>
      if s.job.cur >= n || s.job.cur != s.threads[th].i then Leaves(s, th)
      else
        var r := s.(job := s.job.(cur := s.job.cur + 1));
        if r.job.cur < n then Goes(r, th, Begins(r.job.cur)) else Leaves(r, th)
  }

  // ------------------------------------------------------------------ invariant

  /** Some thread has seen, or will see, that the current target is final. */
  ghost predicate Relayed(s: Race) {
    exists th :: Relays(s, th)
  }

  /** Exactly one thread is about to begin the current target. */
  ghost predicate Beginning(s: Race) {
    exists th :: th in s.threads && s.threads[th] == Begins(s.job.cur)
  }

  ghost predicate ThreadFits(s: Race, th: Thread)
    requires th in s.threads
  {
    var a := s.threads[th];
    && a.i < |s.job.targets| && a.i <= s.job.cur && s.job.started
    && (a.Begins? ==> a.i == s.job.cur && s.job.targets[a.i].state == Pending)
    && (!a.Begins? ==> s.job.targets[a.i].state != Pending)
    && (a.Advances? ==> s.job.targets[a.i].Final())
  }

  ghost predicate ThreadsFit(s: Race) {
    && (forall th :: th in s.threads ==> ThreadFits(s, th))
    && (forall t1, t2 :: BeginsAt(s, t1) && BeginsAt(s, t2) ==> t1 == t2)
  }

  /** Before cur everything is final, after it pending. */
  ghost predicate InOrder(c: JobConfig, s: Race) {
    && Fits(c, s.job) && s.job.cur <= |s.job.targets|
    && (!s.job.started ==> s.job.cur == 0 && s.threads == map[])
    && (forall i :: 0 <= i < s.job.cur ==> s.job.targets[i].Final())
    && (forall i :: s.job.cur < i < |s.job.targets| ==> s.job.targets[i].state == Pending)
  }

  ghost predicate Inv(c: JobConfig, s: Race) {
    && InOrder(c, s) && ThreadsFit(s)
    && (s.job.cur < |s.job.targets| ==> CurrentFits(s))
    && s.begun == Upto(if s.job.cur < |s.job.targets| && s.job.targets[s.job.cur].state != Pending
                       then s.job.cur + 1 else s.job.cur)
  }

  ghost predicate CurrentFits(s: Race)
    requires s.job.cur < |s.job.targets|
  {
    var t := s.job.targets[s.job.cur];
    && (t.state == Pending ==> s.job.started == Beginning(s))
    && (t.state != Pending ==> s.job.started)
    && (t.Final() ==> Relayed(s))
  }

  /** 0, 1, ..., n - 1. */
  function Upto(n: nat): seq<nat> {
    seq(n, i requires 0 <= i < n => i)
  }

  ghost predicate Initial(c: JobConfig, s: Race) {
    && Fits(c, s.job) && s.job.cur == 0 && !s.job.started && s.threads == map[] && s.begun == []
    && forall i :: 0 <= i < |s.job.targets| ==> s.job.targets[i].state == Pending
  }

  lemma InitialInv(c: JobConfig, s: Race)
    requires Initial(c, s)
    ensures Inv(c, s)
  {
  }

  predicate Relays(s: Race, th: Thread) {
    th in s.threads && s.threads[th].i == s.job.cur && (s.threads[th].Checks? || s.threads[th].Advances?)
  }

  predicate BeginsAt(s: Race, th: Thread) {
    th in s.threads && s.threads[th].Begins?
  }

  /** Only thread th moved, and the turn did not pass on. */
  ghost predicate OnlyMoved(s: Race, r: Race, th: Thread) {
    && r.job.cur == s.job.cur
    && forall t :: t != th ==> (t in r.threads <==> t in s.threads) && (t in s.threads ==> r.threads[t] == s.threads[t])
  }

  /** No target was revived or un-begun, and no pending one was begun. */
  ghost predicate TargetsKeep(s: Race, r: Race) {
    && |r.job.targets| == |s.job.targets| && r.job.started == s.job.started
    && forall i :: 0 <= i < |s.job.targets| ==>
         && (r.job.targets[i].state == Pending <==> s.job.targets[i].state == Pending)
         && (s.job.targets[i].Final() ==> r.job.targets[i].Final())
  }

  lemma ThreadsFrame(s: Race, r: Race, th: Thread)
    requires OnlyMoved(s, r, th) && TargetsKeep(s, r) && ThreadsFit(s)
    requires th in r.threads ==> ThreadFits(r, th) && !r.threads[th].Begins?
    ensures ThreadsFit(r)
  {
    forall t | t in r.threads ensures ThreadFits(r, t) {
      if t != th {
        assert ThreadFits(s, t);
      }
    }
    forall t1, t2 | BeginsAt(r, t1) && BeginsAt(r, t2) ensures t1 == t2 {
      assert BeginsAt(s, t1) && BeginsAt(s, t2);
    }
  }

  lemma MovedFrame(s: Race, r: Race, th: Thread)
    requires OnlyMoved(s, r, th)
    ensures Relayed(s) && (Relays(s, th) ==> Relays(r, th)) ==> Relayed(r)
    ensures Relays(r, th) ==> Relayed(r)
    ensures !BeginsAt(s, th) && !BeginsAt(r, th) ==> Beginning(s) == Beginning(r)
  {
    if Relayed(s) && (Relays(s, th) ==> Relays(r, th)) {
      var w :| Relays(s, w);
      assert Relays(r, w);
    }
    if !BeginsAt(s, th) && !BeginsAt(r, th) {
      if Beginning(s) {
        var w :| w in s.threads && s.threads[w] == Begins(s.job.cur);
        assert w in r.threads && r.threads[w] == Begins(r.job.cur);
      }
      if Beginning(r) {
        var w :| w in r.threads && r.threads[w] == Begins(r.job.cur);
        assert w in s.threads && s.threads[w] == Begins(s.job.cur);
      }
    }
  }

  lemma AFit(s: Race, th: Thread)
    requires ThreadsFit(s) && th in s.threads
    ensures ThreadFits(s, th)
  {
  }

  lemma CallStartInv(c: JobConfig, s: Race, e: Step)
    requires Inv(c, s) && Enabled(c, s, e) && e.CallStart?
    ensures WellFormed(c, s) && Inv(c, Next(c, s, e))
  {
    hide FeedStep, Begin;
    InvWellFormed(c, s);
    var r := Next(c, s, e);
    if e.th in r.threads {
      assert r.threads[e.th] == Begins(r.job.cur);
    }
  }

  lemma CallFeedInv(c: JobConfig, s: Race, e: Step)
    requires Inv(c, s) && Enabled(c, s, e) && e.CallFeed?
    ensures WellFormed(c, s) && Inv(c, Next(c, s, e))
  {
    hide FeedStep, Begin, Upto, Relayed, Beginning, ThreadsFit;
    FeedKeeps(s.job.targets[e.i], c.patterns[e.i], e.clean, e.now);
    InvWellFormed(c, s);
    var r := Next(c, s, e);
    ThreadsFrame(s, r, e.th);
    MovedFrame(s, r, e.th);
  }

  lemma CallTimeoutInv(c: JobConfig, s: Race, e: Step)
    requires Inv(c, s) && Enabled(c, s, e) && e.CallTimeout?
    ensures WellFormed(c, s) && Inv(c, Next(c, s, e))
  {
    hide FeedStep, Begin, Upto, Relayed, Beginning, ThreadsFit;
    InvWellFormed(c, s);
    var r := Next(c, s, e);
    ThreadsFrame(s, r, e.th);
    MovedFrame(s, r, e.th);
  }

  lemma DoBeginInv(c: JobConfig, s: Race, e: Step)
    requires Inv(c, s) && Enabled(c, s, e) && e.DoBegin?
    ensures WellFormed(c, s) && Inv(c, Next(c, s, e))
  {
    hide FeedStep;
    InvWellFormed(c, s);
    assert ThreadFits(s, e.th);
    var r := Next(c, s, e);
    assert r.begun == Upto(s.job.cur + 1);
    forall th | th in r.threads ensures ThreadFits(r, th) {
      assert ThreadFits(s, th);
      assert BeginsAt(s, e.th) && (BeginsAt(s, th) ==> th == e.th);
    }
    assert ThreadsFit(r);
  }

  lemma SendOkInv(c: JobConfig, s: Race, e: Step)
    requires Inv(c, s) && Enabled(c, s, e) && e.SendOk?
    ensures WellFormed(c, s) && Inv(c, Next(c, s, e))
  {
    hide FeedStep, Begin, Upto, Relayed, Beginning, ThreadsFit;
    assert ThreadFits(s, e.th) by { AFit(s, e.th); }
    InvWellFormed(c, s);
    var r := Next(c, s, e);
    ThreadsFrame(s, r, e.th);
    MovedFrame(s, r, e.th);
  }

  lemma SendFailsInv(c: JobConfig, s: Race, e: Step)
    requires Inv(c, s) && Enabled(c, s, e) && e.SendFails?
    ensures WellFormed(c, s) && Inv(c, Next(c, s, e))
  {
    hide FeedStep, Begin, Upto, Relayed, Beginning, ThreadsFit;
    assert ThreadFits(s, e.th) by { AFit(s, e.th); }
    InvWellFormed(c, s);
    var r := Next(c, s, e);
    ThreadsFrame(s, r, e.th);
    MovedFrame(s, r, e.th);
  }

  lemma DoFailInv(c: JobConfig, s: Race, e: Step)
    requires Inv(c, s) && Enabled(c, s, e) && e.DoFail?
    ensures WellFormed(c, s) && Inv(c, Next(c, s, e))
  {
    hide FeedStep, Begin, Upto, Relayed, Beginning, ThreadsFit;
    assert ThreadFits(s, e.th) by { AFit(s, e.th); }
    InvWellFormed(c, s);
    var r := Next(c, s, e);
    ThreadsFrame(s, r, e.th);
    MovedFrame(s, r, e.th);
  }

  lemma DoCheckInv(c: JobConfig, s: Race, e: Step)
    requires Inv(c, s) && Enabled(c, s, e) && e.DoCheck?
    ensures WellFormed(c, s) && Inv(c, Next(c, s, e))
  {
    hide FeedStep, Begin, Upto, Relayed, Beginning, ThreadsFit;
    assert ThreadFits(s, e.th) by { AFit(s, e.th); }
    InvWellFormed(c, s);
    var r := Next(c, s, e);
    ThreadsFrame(s, r, e.th);
    MovedFrame(s, r, e.th);
  }

  /** The turn passes on: the next target is pending and gets exactly one beginner. */
  lemma TurnPasses(c: JobConfig, s: Race, e: Step)
    requires Inv(c, s) && Enabled(c, s, e) && e.DoAdvance?
    requires s.job.cur < |s.job.targets| && s.job.cur == s.threads[e.th].i
    ensures WellFormed(c, s) && Inv(c, Next(c, s, e))
  {
    hide Upto, Relayed, Beginning;
    InvWellFormed(c, s);
    AFit(s, e.th);
    var r := Next(c, s, e);
    forall th | th in r.threads ensures ThreadFits(r, th) {
      if th != e.th {
        AFit(s, th);
      }
    }
    if e.th in r.threads {
      assert Beginning(r) by { BeginsHere(r, e.th); }
    }
  }

  lemma BeginsHere(s: Race, th: Thread)
    requires th in s.threads && s.threads[th] == Begins(s.job.cur)
    ensures Beginning(s)
  {
  }

  lemma DoAdvanceInv(c: JobConfig, s: Race, e: Step)
    requires Inv(c, s) && Enabled(c, s, e) && e.DoAdvance?
    ensures WellFormed(c, s) && Inv(c, Next(c, s, e))
  {
    hide Upto, Relayed, Beginning, ThreadsFit;
    InvWellFormed(c, s);
    if s.job.cur < |s.job.targets| && s.job.cur == s.threads[e.th].i {
      TurnPasses(c, s, e);
    } else {
      var r := Next(c, s, e);
      AFit(s, e.th);
      ThreadsFrame(s, r, e.th);
      MovedFrame(s, r, e.th);
    }
  }

  lemma StepInv(c: JobConfig, s: Race, e: Step)
    requires Inv(c, s) && Enabled(c, s, e)
    ensures WellFormed(c, s) && Inv(c, Next(c, s, e))
  {
    InvWellFormed(c, s);
    match e
    case CallStart(_) => CallStartInv(c, s, e);
    case CallFeed(_, _, _, _) => CallFeedInv(c, s, e);
    case CallTimeout(_, _, _) => CallTimeoutInv(c, s, e);
    case DoBegin(_, _) => DoBeginInv(c, s, e);
    case SendOk(_) => SendOkInv(c, s, e);
    case SendFails(_, _) => SendFailsInv(c, s, e);
    case DoFail(_, _) => DoFailInv(c, s, e);
    case DoCheck(_) => DoCheckInv(c, s, e);
    case DoAdvance(_) => DoAdvanceInv(c, s, e);
  }

  // ----------------------------------------------------------------- whole runs

  /** The states of a run, oldest first. */
  ghost predicate IsRun(c: JobConfig, states: seq<Race>, steps: seq<Step>) {
    && |states| == |steps| + 1 && Initial(c, states[0])
    && forall k :: 0 <= k < |steps| ==> Moves(c, states[k], steps[k], states[k + 1])
  }

  ghost predicate Moves(c: JobConfig, s: Race, e: Step, r: Race) {
    WellFormed(c, s) && Enabled(c, s, e) && r == Next(c, s, e)
  }

  lemma {:induction false} RunInv(c: JobConfig, states: seq<Race>, steps: seq<Step>, k: nat)
    requires IsRun(c, states, steps) && k < |states|
    ensures Inv(c, states[k])
  {
    if k == 0 {
      InitialInv(c, states[0]);
    } else {
      RunInv(c, states, steps, k - 1);
      assert Moves(c, states[k - 1], steps[k - 1], states[k]);
      StepInv(c, states[k - 1], steps[k - 1]);
    }
  }

  /** One step: nothing final is revived, and target i + 1 is begun only once target i is final. */
  lemma StepSafe(c: JobConfig, s: Race, e: Step, r: Race, i: nat)
    requires Inv(c, s) && Moves(c, s, e, r) && i < |s.job.targets|
    ensures |r.job.targets| == |s.job.targets| && r.job.cur >= s.job.cur
    ensures s.job.targets[i].Final() ==> r.job.targets[i].Final()
    ensures i > 0 && s.job.targets[i].state == Pending && r.job.targets[i].state != Pending ==>
              s.job.targets[i - 1].Final()
  {
    hide Relayed, Beginning, Upto;
    if e.th in s.threads {
      AFit(s, e.th);
    } else if e.CallFeed? {
      FeedKeeps(s.job.targets[e.i], c.patterns[e.i], e.clean, e.now);
    }
  }

  /** In every run final targets stay final: a later state is never behind an earlier one. */
  lemma {:induction false} FinalStays(c: JobConfig, states: seq<Race>, steps: seq<Step>, k: nat, m: nat, i: nat)
    requires IsRun(c, states, steps) && k <= m < |states| && i < |states[k].job.targets|
    ensures i < |states[m].job.targets| == |states[k].job.targets|
    ensures states[k].job.targets[i].Final() ==> states[m].job.targets[i].Final()
  {
    if k < m {
      FinalStays(c, states, steps, k, m - 1, i);
      RunInv(c, states, steps, m - 1);
      assert Moves(c, states[m - 1], steps[m - 1], states[m]);
      StepSafe(c, states[m - 1], steps[m - 1], states[m], i);
    }
  }

  /** In every run each target is begun at most once, and in list order. */
  lemma BeginsInOrder(c: JobConfig, states: seq<Race>, steps: seq<Step>, k: nat)
    requires IsRun(c, states, steps) && k < |states|
    ensures var b := states[k].begun;
            |b| <= |states[k].job.targets| && forall m :: 0 <= m < |b| ==> b[m] == m
    ensures forall i :: 0 <= i < |states[k].job.targets| ==>
              (i in states[k].begun <==> states[k].job.targets[i].state != Pending)
  {
    RunInv(c, states, steps, k);
    var s := states[k];
    forall i | 0 <= i < |s.job.targets| ensures i in s.begun <==> i < |s.begun| {
      assert i < |s.begun| ==> s.begun[i] == i;
    }
  }

  /** In every run, whenever no call is in progress: the turn is where the first running target is. */
  lemma Quiescent(c: JobConfig, states: seq<Race>, steps: seq<Step>, k: nat)
    requires IsRun(c, states, steps) && k < |states| && states[k].threads == map[] && states[k].job.started
    ensures var j := states[k].job;
            && j.cur <= |j.targets|
            && (forall i :: 0 <= i < j.cur ==> j.targets[i].Final())
            && (forall i :: j.cur < i < |j.targets| ==> j.targets[i].state == Pending)
            && (j.cur < |j.targets| ==> j.targets[j.cur].Running())
            && (j.Done() <==> j.cur == |j.targets|)
  {
    RunInv(c, states, steps, k);
  }
}
