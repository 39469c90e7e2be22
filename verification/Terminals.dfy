/** A terminal's output path: credit-based flow control and timer-driven coalescing. */
module Terminals {
  import opened Wrappers
  import opened ByteLines

  const FLOW_WINDOW: nat := 4 * 1024 * 1024
  const OUT_CHUNK: nat := 64 * 1024

  function Concat(events: seq<Bytes>): Bytes {
    if events == [] then [] else Concat(events[..|events| - 1]) + events[|events| - 1]
  }

  lemma ConcatSnoc(events: seq<Bytes>, e: Bytes)
    ensures Concat(events + [e]) == Concat(events) + e
  {
    assert (events + [e])[..|events|] == events;
  }

  // ---------------------------------------------------------------- flow control

  /**
   * The unacknowledged bytes, with the ledger behind them: bytes let in, bytes the frontend
   * acknowledged, the part of those that was still counted, and bytes a stall reset forgave.
   */
  datatype Flow = Flow(inflight: int, closing: bool, credited: nat, acked: nat, taken: nat, forgiven: nat)

  ghost predicate FlowOk(f: Flow) {
    && f.inflight >= 0 && f.taken <= f.acked
    && f.credited == f.inflight + f.taken + f.forgiven
  }

  predicate Waits(f: Flow, expired: bool) {
    f.inflight > FLOW_WINDOW && !f.closing && !expired
  }

  function Reset(f: Flow): Flow {
    f.(inflight := 0, forgiven := f.forgiven + if f.inflight > 0 then f.inflight else 0)
  }

  /** A reader comes in with n bytes; over the window it got here because its deadline passed. */
  function Admit(f: Flow, n: nat): Flow {
    var g := if f.inflight > FLOW_WINDOW && !f.closing then Reset(f) else f;
    g.(inflight := g.inflight + n, credited := g.credited + n)
  }

  function Acked(f: Flow, n: nat): Flow {
    var left := f.inflight - n;
    f.(inflight := if left < 0 then 0 else left, acked := f.acked + n,
       taken := f.taken + if left < 0 then (if f.inflight > 0 then f.inflight else 0) else n)
  }

  // ------------------------------------------------------------------ coalescing

  /** The batch, whether a timer is pending, and behind them: timers armed, events emitted, bytes queued. */
  datatype Out = Out(buf: Bytes, pending: bool, timers: nat, emitted: seq<Bytes>, queued: Bytes)

  ghost predicate OutOk(o: Out) {
    && Concat(o.emitted) + o.buf == o.queued
    && o.timers == (if o.pending then 1 else 0)
    && (o.buf != [] ==> o.pending)
    && |o.buf| < OUT_CHUNK
  }

  function Queued(o: Out, p: Bytes): Out {
    if !o.pending then o.(pending := true, timers := o.timers + 1, emitted := o.emitted + [p], queued := o.queued + p)
    else if |o.buf + p| >= OUT_CHUNK then o.(buf := [], emitted := o.emitted + [o.buf + p], queued := o.queued + p)
    else o.(buf := o.buf + p, queued := o.queued + p)
  }

  /** A timer fires: it is gone, and a new one is armed if there was something to emit. */
  function Fired(o: Out): Out
    requires o.timers > 0
  {
    if o.buf == [] then o.(pending := false, timers := o.timers - 1)
    else o.(buf := [], emitted := o.emitted + [o.buf])
  }

  function Drained(o: Out): Out {
    if o.buf == [] then o else o.(buf := [], emitted := o.emitted + [o.buf])
  }

  lemma QueuedOk(o: Out, p: Bytes)
    requires OutOk(o)
    ensures OutOk(Queued(o, p))
  {
    if !o.pending {
      ConcatSnoc(o.emitted, p);
    } else if |o.buf + p| >= OUT_CHUNK {
      ConcatSnoc(o.emitted, o.buf + p);
      assert Concat(o.emitted) + (o.buf + p) + [] == (Concat(o.emitted) + o.buf) + p;
    } else {
      assert Concat(o.emitted) + (o.buf + p) == (Concat(o.emitted) + o.buf) + p;
    }
  }

  /** The first read after idle goes out at once, and opens a window for what follows. */
  lemma IdleAtOnce(o: Out, p: Bytes)
    requires OutOk(o) && !o.pending
    ensures Concat(Queued(o, p).emitted) == Queued(o, p).queued == o.queued + p && Queued(o, p).pending
  {
    ConcatSnoc(o.emitted, p);
  }

  /** A timer fires once per arming; what was batched is out, and an empty batch ends the window. */
  lemma FiredOk(o: Out)
    requires OutOk(o) && o.timers > 0
    ensures OutOk(Fired(o)) && Fired(o).buf == [] && Concat(Fired(o).emitted) == o.queued
    ensures Fired(o).pending <==> o.buf != []
  {
    ConcatSnoc(o.emitted, o.buf);
  }

  /** After a drain nothing is held back. */
  lemma DrainedOk(o: Out)
    requires OutOk(o)
    ensures OutOk(Drained(o)) && Concat(Drained(o).emitted) == o.queued
  {
    ConcatSnoc(o.emitted, o.buf);
  }

  // ------------------------------------------------------------------ the program

  /** The terminal's fields; the ghost ones are the ledger. */
  class Terminal {
    var inflight: int
    var closing: bool
    var outBuf: Bytes
    var outPending: bool
    ghost var credited: nat
    ghost var acked: nat
    ghost var taken: nat
    ghost var forgiven: nat
    ghost var timers: nat
    ghost var queued: Bytes
    ghost var emitted: seq<Bytes>

    ghost function FlowState(): Flow
      reads this
    {
      Flow(inflight, closing, credited, acked, taken, forgiven)
    }

    ghost function OutState(): Out
      reads this
    {
      Out(outBuf, outPending, timers, emitted, queued)
    }

    constructor ()
      ensures FlowState() == Flow(0, false, 0, 0, 0, 0) && OutState() == Out([], false, 0, [], [])
    {
      inflight, closing, outBuf, outPending := 0, false, [], false;
      credited, acked, taken, forgiven, timers, queued, emitted := 0, 0, 0, 0, 0, [], [];
    }

    /** One turn of a reader's wait for credit: it stays waiting, or its read of n bytes is let in. */
    method WaitCredit(n: nat, expired: bool) returns (admitted: bool)
      modifies `inflight, `credited, `forgiven
      ensures admitted == !Waits(old(FlowState()), expired)
      ensures FlowState() == if admitted then Admit(old(FlowState()), n) else old(FlowState())
    {
      if inflight > FLOW_WINDOW && !closing {
        if !expired {
          return false;
        }
        forgiven := forgiven + inflight;
        inflight := 0;
      }
      inflight := inflight + n;
      credited := credited + n;
      admitted := true;
    }

    method Ack(n: nat)
      modifies `inflight, `acked, `taken
      ensures FlowState() == Acked(old(FlowState()), n)
    {
      ghost var was := inflight;
      inflight := inflight - n;
      if inflight < 0 {
        inflight := 0;
      }
      acked := acked + n;
      taken := taken + if was - n < 0 then (if was > 0 then was else 0) else n;
    }

    method Close()
      modifies `closing
      ensures FlowState() == old(FlowState()).(closing := true)
    {
      closing := true;
    }

    method QueueOutput(p: Bytes) returns (event: seq<Bytes>)
      modifies `outBuf, `outPending, `timers, `queued, `emitted
      ensures OutState() == Queued(old(OutState()), p) && emitted == old(emitted) + event
    {
      queued := queued + p;
      event := [];
      if !outPending {
        outPending := true;
        timers := timers + 1;
        event := [p];
        emitted := emitted + event;
        return;
      }
      outBuf := outBuf + p;
      if |outBuf| >= OUT_CHUNK {
        event := [outBuf];
        emitted := emitted + event;
        outBuf := [];
      }
    }

    /** The timer's callback. */
    method FlushOutput() returns (event: seq<Bytes>)
      requires timers > 0
      modifies `outBuf, `outPending, `timers, `emitted
      ensures OutState() == Fired(old(OutState())) && emitted == old(emitted) + event
    {
      timers := timers - 1;
      event := [];
      if |outBuf| == 0 {
        outPending := false;
        return;
      }
      event := [outBuf];
      emitted := emitted + event;
      outBuf := [];
      timers := timers + 1;
    }

    method DrainOutput() returns (event: seq<Bytes>)
      modifies `outBuf, `emitted
      ensures OutState() == Drained(old(OutState())) && emitted == old(emitted) + event
    {
      event := [];
      if |outBuf| > 0 {
        event := [outBuf];
        emitted := emitted + event;
        outBuf := [];
      }
    }
  }

  // ------------------------------------------------------------------- every run

  /** A terminal with its readers: reads let in and not queued yet. */
  datatype Term = Term(flow: Flow, out: Out, held: seq<Bytes>)

  datatype Step =
    | Turn(p: Bytes, expired: bool)  // a reader with read p looks whether it may go on
    | Queue(reader: nat)             // a reader let in earlier queues its read
    | Fire
    | Drain
    | Acks(n: nat)
    | Closes

  const FRESH := Term(Flow(0, false, 0, 0, 0, 0), Out([], false, 0, [], []), [])

  predicate CanStep(t: Term, s: Step) {
    match s
    case Queue(i) => i < |t.held|
    case Fire => t.out.timers > 0
    case _ => true
  }

  function After(t: Term, s: Step): Term
    requires CanStep(t, s)
  {
    match s
    case Turn(p, expired) =>
      if Waits(t.flow, expired) then t else t.(flow := Admit(t.flow, |p|), held := t.held + [p])
    case Queue(i) => t.(out := Queued(t.out, t.held[i]), held := t.held[..i] + t.held[i + 1..])
    case Fire => t.(out := Fired(t.out))
    case Drain => t.(out := Drained(t.out))
    case Acks(n) => t.(flow := Acked(t.flow, n))
    case Closes => t.(flow := t.flow.(closing := true))
  }

  /** Where a run gets to; None when a step was not possible. */
  function Run(steps: seq<Step>): Option<Term> {
    if steps == [] then Some(FRESH)
    else
      match Run(steps[..|steps| - 1])
      case None => None
      case Some(u) => if CanStep(u, steps[|steps| - 1]) then Some(After(u, steps[|steps| - 1])) else None
  }

  ghost predicate TermOk(t: Term) {
    && FlowOk(t.flow) && OutOk(t.out)
    && t.flow.credited == |t.out.queued| + |Concat(t.held)|
  }

  lemma ConcatCut(events: seq<Bytes>, i: nat)
    requires i < |events|
    ensures |Concat(events)| == |Concat(events[..i] + events[i + 1..])| + |events[i]|
    decreases |events|
  {
    var init, last := events[..|events| - 1], events[|events| - 1];
    if i == |events| - 1 {
      assert events[..i] + events[i + 1..] == init;
    } else {
      ConcatCut(init, i);
      assert events[..i] + events[i + 1..] == (init[..i] + init[i + 1..]) + [last];
      ConcatSnoc(init[..i] + init[i + 1..], last);
    }
  }

  lemma StepOk(t: Term, s: Step)
    requires TermOk(t) && CanStep(t, s)
    ensures TermOk(After(t, s))
  {
    hide OutOk, Queued, Fired, Drained, Concat;
    match s
    case Turn(p, expired) => ConcatSnoc(t.held, p);
    case Queue(i) =>
      QueuedOk(t.out, t.held[i]);
      QueuedAll(t.out, t.held[i]);
      ConcatCut(t.held, i);
    case Fire =>
      FiredOk(t.out);
      assert Fired(t.out).queued == t.out.queued by { SameQueued(t.out); }
    case Drain =>
      DrainedOk(t.out);
      assert Drained(t.out).queued == t.out.queued by { SameQueued(t.out); }
    case Acks(n) =>
    case Closes =>
  }

  lemma QueuedAll(o: Out, p: Bytes)
    ensures Queued(o, p).queued == o.queued + p
  {
  }

  lemma SameQueued(o: Out)
    ensures Drained(o).queued == o.queued && (o.timers > 0 ==> Fired(o).queued == o.queued)
  {
  }

  /**
   * In every run the batch is what was queued and not emitted, one timer is armed exactly while
   * one is pending, and the flow ledger balances.
   */
  lemma {:induction false} RunOk(steps: seq<Step>)
    requires Run(steps).Some?
    ensures TermOk(Run(steps).value)
  {
    hide TermOk;
    if steps == [] {
      FreshOk();
    } else {
      RunOk(steps[..|steps| - 1]);
      StepOk(Run(steps[..|steps| - 1]).value, steps[|steps| - 1]);
    }
  }

  lemma FreshOk()
    ensures TermOk(FRESH)
  {
    assert Concat([]) == [];
  }

  // ---------------------------------------------------------------------- bounds

  /** No read is longer than `most`. */
  ghost predicate ReadsWithin(steps: seq<Step>, most: nat) {
    forall i :: 0 <= i < |steps| && steps[i].Turn? ==> |steps[i].p| <= most
  }

  ghost predicate Bounded(t: Term, most: nat) {
    && (forall i :: 0 <= i < |t.held| ==> |t.held[i]| <= most)
    && (forall i :: 0 <= i < |t.out.emitted| ==> |t.out.emitted[i]| < OUT_CHUNK + most)
    && (!t.flow.closing ==> t.flow.inflight <= FLOW_WINDOW + most)
  }

  lemma StepBounded(t: Term, s: Step, most: nat)
    requires TermOk(t) && CanStep(t, s) && Bounded(t, most) && (s.Turn? ==> |s.p| <= most)
    ensures Bounded(After(t, s), most)
  {
    hide Concat;
  }

  /**
   * With reads of at most `most` bytes every event is shorter than outChunk plus one read, and
   * until the terminal closes at most the window plus one read is unacknowledged.
   */
  lemma {:induction false} RunBounded(steps: seq<Step>, most: nat)
    requires Run(steps).Some? && ReadsWithin(steps, most)
    ensures Bounded(Run(steps).value, most)
  {
    hide TermOk;
    if steps != [] {
      var init, s := steps[..|steps| - 1], steps[|steps| - 1];
      RunBounded(init, most);
      RunOk(init);
      StepBounded(Run(init).value, s, most);
    }
  }

  /**
   * A turn lets the read in exactly when at most the window is unacknowledged, the terminal closes or the deadline
   * passed. What was in flight is forgiven exactly when it was over the window of an open terminal, and all of it.
   */
  lemma AdmittedIff(steps: seq<Step>, p: Bytes, expired: bool)
    requires Run(steps).Some?
    ensures var t := Run(steps).value;
            var next := After(t, Turn(p, expired));
            var over := t.flow.inflight > FLOW_WINDOW && !t.flow.closing;
            && (next.held == t.held + [p] <==> !over || expired)
            && (over && !expired ==> next == t)
            && (!over || expired ==>
                  && next.flow.inflight == |p| + (if over then 0 else t.flow.inflight)
                  && next.flow.forgiven == t.flow.forgiven + (if over then t.flow.inflight else 0)
                  && next.flow.credited == t.flow.credited + |p| && next.flow.acked == t.flow.acked && next.out == t.out)
  {
    hide OutOk, Concat, Run;
    RunOk(steps);
    assert |Run(steps).value.held + [p]| != |Run(steps).value.held|;
  }

  /** Credit never runs ahead of what is in flight, acknowledged or forgiven. */
  lemma LedgerBound(steps: seq<Step>)
    requires Run(steps).Some?
    ensures var f := Run(steps).value.flow;
            f.inflight >= 0 && f.credited - f.acked <= f.inflight + f.forgiven
  {
    hide OutOk, Concat, Run;
    RunOk(steps);
  }

  /** Every acknowledgement, when it came, was of bytes let in, not acknowledged before and not forgiven. */
  ghost predicate Covered(steps: seq<Step>) {
    steps != [] ==>
      && Covered(steps[..|steps| - 1])
      && (Run(steps[..|steps| - 1]).Some? && steps[|steps| - 1].Acks? ==>
            var f := Run(steps[..|steps| - 1]).value.flow;
            f.acked + steps[|steps| - 1].n <= f.credited - f.forgiven)
  }

  /** In every run the bytes in flight are exactly those let in and neither acknowledged nor forgiven iff no ack exceeded them. */
  lemma {:induction false} ExactIff(steps: seq<Step>)
    requires Run(steps).Some?
    ensures var f := Run(steps).value.flow;
            f.inflight == f.credited - f.acked - f.forgiven <==> Covered(steps)
  {
    hide Concat, OutOk, TermOk;
    if steps != [] {
      var u, s := Run(steps[..|steps| - 1]).value, steps[|steps| - 1];
      RunOk(steps[..|steps| - 1]);
      ExactIff(steps[..|steps| - 1]);
      ExactStep(u, s);
    }
  }

  lemma ExactStep(t: Term, s: Step)
    requires TermOk(t) && CanStep(t, s)
    ensures var (f, g) := (t.flow, After(t, s).flow);
            g.inflight == g.credited - g.acked - g.forgiven
            <==> f.inflight == f.credited - f.acked - f.forgiven && (s.Acks? ==> f.acked + s.n <= f.credited - f.forgiven)
  {
    hide Concat, OutOk, Queued, Fired, Drained;
  }

  /** Acknowledgements never exceeded credits. */
  ghost predicate WithinCredits(steps: seq<Step>) {
    steps != [] ==>
      && WithinCredits(steps[..|steps| - 1])
      && (Run(steps[..|steps| - 1]).Some? && steps[|steps| - 1].Acks? ==>
            var f := Run(steps[..|steps| - 1]).value.flow;
            f.acked + steps[|steps| - 1].n <= f.credited)
  }

  lemma ForgivenGrows(t: Term, s: Step)
    requires CanStep(t, s)
    ensures After(t, s).flow.forgiven >= t.flow.forgiven
  {
  }

  lemma {:induction false} NothingForgiven(steps: seq<Step>)
    requires Run(steps).Some? && Run(steps).value.flow.forgiven == 0
    ensures Covered(steps) <==> WithinCredits(steps)
  {
    if steps != [] {
      ForgivenGrows(Run(steps[..|steps| - 1]).value, steps[|steps| - 1]);
      NothingForgiven(steps[..|steps| - 1]);
    }
  }

  /** Without a reset: credited minus acknowledged is what is in flight iff acknowledgements never exceeded credits. */
  lemma CreditsExactIff(steps: seq<Step>)
    requires Run(steps).Some? && Run(steps).value.flow.forgiven == 0
    ensures var f := Run(steps).value.flow;
            f.inflight == f.credited - f.acked <==> WithinCredits(steps)
  {
    hide Run, Covered, WithinCredits;
    ExactIff(steps);
    NothingForgiven(steps);
  }

  /** The frontend acknowledged, whenever it did, only bytes it had been sent. */
  ghost predicate Honest(steps: seq<Step>) {
    steps != [] ==>
      && Honest(steps[..|steps| - 1])
      && (Run(steps[..|steps| - 1]).Some? && steps[|steps| - 1].Acks? ==>
            var u := Run(steps[..|steps| - 1]).value;
            u.flow.acked + steps[|steps| - 1].n <= |Concat(u.out.emitted)|)
  }

  lemma {:induction false} HonestWithin(steps: seq<Step>)
    requires Run(steps).Some? && Honest(steps)
    ensures WithinCredits(steps)
  {
    hide Concat, OutOk;
    if steps != [] {
      RunOk(steps[..|steps| - 1]);
      EmittedBound(Run(steps[..|steps| - 1]).value.out);
      HonestWithin(steps[..|steps| - 1]);
    }
  }

  /** So a frontend that acknowledges only what it was sent keeps the count exact until a reset. */
  lemma HonestExact(steps: seq<Step>)
    requires Run(steps).Some? && Honest(steps) && Run(steps).value.flow.forgiven == 0
    ensures var f := Run(steps).value.flow;
            f.inflight == f.credited - f.acked
  {
    hide Run, Honest, WithinCredits;
    HonestWithin(steps);
    CreditsExactIff(steps);
  }

  lemma EmittedBound(o: Out)
    requires OutOk(o)
    ensures |Concat(o.emitted)| <= |o.queued|
  {
  }

  /** Whatever happened, a drain leaves nothing unsent of what was queued; a firing neither. */
  lemma NothingLeft(steps: seq<Step>)
    requires Run(steps).Some?
    ensures var t := Run(steps).value;
            && Concat(After(t, Drain).out.emitted) == t.out.queued
            && (t.out.buf != [] ==> CanStep(t, Fire))
            && (CanStep(t, Fire) ==> Concat(After(t, Fire).out.emitted) == t.out.queued)
            && (CanStep(t, Fire) && CanStep(After(t, Fire), Fire) ==> !After(After(t, Fire), Fire).out.pending)
  {
    hide Concat, Run, Fired, Drained;
    var o := Run(steps).value.out;
    RunOk(steps);
    DrainedOk(o);
    if o.timers > 0 {
      FiredOk(o);
      if Fired(o).timers > 0 {
        FiredOk(Fired(o));
      }
    }
  }

  // -------------------------------------------------------------------- coalescing

  /** Timer firings and drains of a run. */
  function Flushes(steps: seq<Step>): nat {
    if steps == [] then 0
    else
      var s := steps[|steps| - 1];
      Flushes(steps[..|steps| - 1]) + if s.Fire? || s.Drain? then 1 else 0
  }

  /** Events that carry a whole chunk. */
  function Fulls(events: seq<Bytes>): nat {
    if events == [] then 0
    else Fulls(events[..|events| - 1]) + if |events[|events| - 1]| >= OUT_CHUNK then 1 else 0
  }

  lemma FullsSnoc(events: seq<Bytes>, e: Bytes)
    ensures Fulls(events + [e]) == Fulls(events) + if |e| >= OUT_CHUNK then 1 else 0
  {
    assert (events + [e])[..|events|] == events;
  }

  lemma {:induction false} FullsWeigh(events: seq<Bytes>)
    ensures OUT_CHUNK * Fulls(events) <= |Concat(events)|
  {
    if events != [] {
      FullsWeigh(events[..|events| - 1]);
    }
  }

  /**
   * Output is coalesced: apart from the very first event and those that carry a whole chunk there is at most
   * one event for each firing of the timer or drain, however many reads were queued.
   */
  lemma {:induction false} Coalesced(steps: seq<Step>)
    requires Run(steps).Some?
    ensures var o := Run(steps).value.out;
            && |o.emitted| + (if o.pending then 0 else 1) <= 1 + Flushes(steps) + Fulls(o.emitted)
            && OUT_CHUNK * Fulls(o.emitted) <= |o.queued|
  {
    hide Concat, OutOk, Fulls;
    if steps == [] {
      assert Fulls([]) == 0 by { NoFulls(); }
    } else {
      var init, s := steps[..|steps| - 1], steps[|steps| - 1];
      Coalesced(init);
      var o := Run(init).value.out;
      var p := if s.Queue? then Run(init).value.held[s.reader] else [];
      FullsSnoc(o.emitted, p);
      FullsSnoc(o.emitted, o.buf);
      FullsSnoc(o.emitted, o.buf + p);
    }
    RunOk(steps);
    FullsWeigh(Run(steps).value.out.emitted);
    EmittedBound(Run(steps).value.out);
  }

  lemma NoFulls()
    ensures Fulls([]) == 0
  {
  }

  /** Within a window a read that does not fill the chunk is held back, and nothing is emitted for it. */
  lemma HeldBack(steps: seq<Step>, i: nat)
    requires Run(steps).Some? && CanStep(Run(steps).value, Queue(i))
    ensures var t := Run(steps).value;
            var next := After(t, Queue(i)).out;
            next.emitted == t.out.emitted <==> t.out.pending && |t.out.buf| + |t.held[i]| < OUT_CHUNK
    ensures var t := Run(steps).value;
            var next := After(t, Queue(i)).out;
            && next.buf == (if next.emitted == t.out.emitted then t.out.buf + t.held[i] else [])
            && next.pending && (next.timers == 1)
  {
    hide Concat, Run;
    var t := Run(steps).value;
    RunOk(steps);
    QueuedOk(t.out, t.held[i]);
    assert forall e: Bytes :: |t.out.emitted + [e]| != |t.out.emitted|;
  }
}
