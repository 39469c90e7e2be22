/** Multi-send: one target's feedback state machine and the job that coordinates many. */
module Multisend {
  import opened Wrappers
  import opened ByteLines

  const MAX_TAIL: nat := 8192

  datatype State = Pending | Sent | Echoed | PromptReturned | OK | Error | Timeout

  /** Pattern matching of one target: prompt on a line, first error position, text trimming. */
  datatype Patterns = Patterns(prompt: Option<Bytes -> bool>, error: Option<Bytes -> Option<nat>>, trim: Bytes -> Bytes)

  // ------------------------------------------------------- one target, as a value

  datatype Target = Target(state: State, line: Bytes, tail: Bytes, sawEcho: bool, errText: Bytes,
                           started: Option<int>, ended: Option<int>) {

    predicate Final() {
      state == OK || state == Error || state == Timeout
    }

    /** Begun and not final: output counts and the clock runs. */
    predicate Running() {
      state != Pending && !Final()
    }
  }

  const NEW_TARGET := Target(Pending, [], [], false, [], None, None)

  /** The line of b around index idx. */
  function LineAt(b: Bytes, idx: nat): Bytes {
    if idx > |b| then [] else Tail(b[..idx]) + UpToNL(b[idx..])
  }

  function UpToNL(b: Bytes): Bytes {
    if b == [] || b[0] == NL then [] else [b[0]] + UpToNL(b[1..])
  }

  function Begin(line: Bytes, now: int): Target {
    Target(Sent, line, [], false, [], Some(now), None)
  }

  /** New output is captured, then searched for the echoed line and for the first error. */
  function ScanStep(t: Target, p: Patterns, clean: Bytes): Target {
    var tail := LastBytes(t.tail + clean, MAX_TAIL);
    var echo := !t.sawEcho && t.line != [] && Contains(tail, t.line);
    var errText := if t.errText == [] && p.error.Some? && p.error.value(tail).Some?
                   then p.trim(LineAt(tail, p.error.value(tail).value)) else t.errText;
    t.(tail := tail, sawEcho := t.sawEcho || echo, errText := errText,
       state := if echo && t.state == Sent then Echoed else t.state)
  }

  function FeedStep(t: Target, p: Patterns, clean: Bytes, now: int): Target {
    if !t.Running() then t
    else
      var u := ScanStep(t, p, clean);
      if p.prompt.Some? && p.prompt.value(Tail(u.tail))
      then u.(state := if u.errText != [] then Error else OK, ended := Some(now))
      else u
  }

  function TimeoutStep(t: Target, now: int): Target {
    if t.Running() then t.(state := Timeout, ended := Some(now)) else t
  }

  function FailStep(t: Target, msg: Bytes, now: int): Target {
    t.(state := Error, errText := msg, ended := Some(now))
  }

  function Elapsed(t: Target, now: int): int {
    if t.started.None? then 0 else now - t.started.value
  }

  /** Feeding never revives a target, never restarts its clock, and reports every visible change. */
  lemma FeedKeeps(t: Target, p: Patterns, clean: Bytes, now: int)
    ensures var u := FeedStep(t, p, clean, now);
            && (t.Final() || t.state == Pending ==> u == t)
            && (t.Running() ==> u.state != Pending && u.started == t.started)
            && (u.state != t.state ==> t.Running())
  {
  }

  /** A target after a run of outputs, each with its time. */
  function FedAll(t: Target, p: Patterns, outs: seq<(Bytes, int)>): Target {
    if outs == [] then t
    else FeedStep(FedAll(t, p, outs[..|outs| - 1]), p, outs[|outs| - 1].0, outs[|outs| - 1].1)
  }

  /** The output that came while the target was running. */
  function Heard(t: Target, p: Patterns, outs: seq<(Bytes, int)>): Bytes {
    if outs == [] then []
    else
      var init := outs[..|outs| - 1];
      Heard(t, p, init) + if FedAll(t, p, init).Running() then outs[|outs| - 1].0 else []
  }

  /** After any run of outputs the captured tail is the last MAX_TAIL bytes heard since the line was sent, however they were cut. */
  lemma {:induction false} TailOfRun(line: Bytes, sent: int, p: Patterns, outs: seq<(Bytes, int)>)
    ensures FedAll(Begin(line, sent), p, outs).tail == LastBytes(Heard(Begin(line, sent), p, outs), MAX_TAIL)
  {
    if outs != [] {
      var init, out := outs[..|outs| - 1], outs[|outs| - 1].0;
      TailOfRun(line, sent, p, init);
      TailOfTwo(Heard(Begin(line, sent), p, init), out, MAX_TAIL);
    }
  }

  lemma TailOfTwo(sofar: Bytes, clean: Bytes, n: nat)
    ensures LastBytes(LastBytes(sofar, n) + clean, n) == LastBytes(sofar + clean, n) && LastBytes(sofar, n) + [] == LastBytes(sofar, n)
    ensures sofar + [] == sofar
  {
  }

  class TargetCell {
    const id: string
    const patterns: Patterns
    var state: State
    var line: Bytes
    var tail: Bytes
    var sawEcho: bool
    var errText: Bytes
    var started: Option<int>
    var ended: Option<int>

    constructor (id: string, patterns: Patterns)
      ensures Val() == NEW_TARGET && this.id == id && this.patterns == patterns
    {
      this.id, this.patterns := id, patterns;
      state, line, tail, sawEcho, errText, started, ended := Pending, [], [], false, [], None, None;
    }

    function Val(): Target
      reads this
    {
      Target(state, line, tail, sawEcho, errText, started, ended)
    }

    predicate IsFinal()
      reads this
      ensures IsFinal() == Val().Final()
    {
      state == OK || state == Error || state == Timeout
    }

    method BeginSend(line: Bytes, now: int)
      modifies this
      ensures Val() == Begin(line, now)
    {
      this.line := line;
      tail := [];
      sawEcho := false;
      errText := [];
      ended := None;
      started := Some(now);
      state := Sent;
    }

    method Feed(clean: Bytes, now: int) returns (changed: bool)
      modifies this
      ensures Val() == FeedStep(old(Val()), patterns, clean, now)
      ensures changed == (state != old(state))
    {
      if state == Pending || IsFinal() {
        return false;
      }
      var prev := state;
      Scan(clean);
      if patterns.prompt.Some? && patterns.prompt.value(Tail(tail)) {
        if errText != [] {
          state := Error;
        } else {
          state := OK;
        }
        ended := Some(now);
      }
      changed := state != prev;
    }

    /** Captures the output and looks for the echo and the first error. */
    method Scan(clean: Bytes)
      requires Val().Running()
      modifies `tail, `sawEcho, `errText, `state
      ensures Val() == ScanStep(old(Val()), patterns, clean)
    {
      tail := tail + clean;
      if |tail| > MAX_TAIL {
        tail := tail[|tail| - MAX_TAIL..];
      }
      if !sawEcho && line != [] && Contains(tail, line) {
        sawEcho := true;
        if state == Sent {
          state := Echoed;
        }
      }
      if errText == [] && patterns.error.Some? {
        var loc := patterns.error.value(tail);
        if loc.Some? {
          errText := patterns.trim(LineAt(tail, loc.value));
        }
      }
    }

    method MarkTimeout(now: int) returns (marked: bool)
      modifies this
      ensures Val() == TimeoutStep(old(Val()), now)
      ensures marked == old(Val()).Running()
    {
      if state == Pending || IsFinal() {
        return false;
      }
      state := Timeout;
      ended := Some(now);
      marked := true;
    }

    method FailSend(msg: Bytes, now: int)
      modifies this
      ensures Val() == FailStep(old(Val()), msg, now)
    {
      state := Error;
      errText := msg;
      ended := Some(now);
    }
  }

  // ------------------------------------------------------------- a job, as a value

  /** What is fixed when the job is made; `send` answers an error text when the write fails. */
  datatype JobConfig = JobConfig(ids: seq<string>, patterns: seq<Patterns>, lines: map<string, Bytes>,
                                 send: (string, Bytes) -> Option<Bytes>, sequential: bool, timeout: int) {

    function LineOf(i: nat): Bytes
      requires i < |ids|
    {
      if ids[i] in lines then lines[ids[i]] else []
    }

    function SendError(i: nat): Option<Bytes>
      requires i < |ids|
    {
      send(ids[i], LineOf(i))
    }
  }

  datatype JobVal = JobVal(targets: seq<Target>, cur: nat, started: bool) {

    predicate Done() {
      forall i :: 0 <= i < |targets| ==> targets[i].Final()
    }
  }

  predicate Fits(c: JobConfig, j: JobVal) {
    |j.targets| == |c.ids| == |c.patterns|
  }

  function StartedTarget(c: JobConfig, j: JobVal, i: nat, now: int): (r: JobVal)
    requires Fits(c, j) && i < |j.targets|
    ensures Fits(c, r)
    decreases |j.targets| - j.cur, 1
  {
    var begun := Begin(c.LineOf(i), now);
    match c.SendError(i)
    case None => j.(targets := j.targets[i := begun])
    case Some(msg) =>
      var failed := j.(targets := j.targets[i := FailStep(begun, msg, now)]);
      if c.sequential then AdvancedSeq(c, failed, i, now) else failed
  }

  function AdvancedSeq(c: JobConfig, j: JobVal, finished: nat, now: int): (r: JobVal)
    requires Fits(c, j)
    ensures Fits(c, r)
    decreases |j.targets| - j.cur, 0
  {
    if j.cur >= |j.targets| || j.cur != finished then j
    else
      var next := j.(cur := j.cur + 1);
      if next.cur < |next.targets| then StartedTarget(c, next, next.cur, now) else next
  }

  function StartAll(c: JobConfig, j: JobVal, i: nat, now: int): (r: JobVal)
    requires Fits(c, j) && i <= |j.targets|
    ensures Fits(c, r)
    decreases |j.targets| - i
  {
    if i == |j.targets| then j
    else
      var r := StartedTarget(c, j, i, now);
      if !c.sequential then StartAll(c, r, i + 1, now) else r
  }

  function StartJob(c: JobConfig, j: JobVal, now: int): (r: JobVal)
    requires Fits(c, j)
    ensures Fits(c, r)
  {
    if j.started then j else StartAll(c, j.(started := true), 0, now)
  }

  function FeedJob(c: JobConfig, j: JobVal, i: nat, clean: Bytes, now: int): (r: JobVal)
    requires Fits(c, j) && i < |j.targets|
    ensures Fits(c, r)
  {
    var t := FeedStep(j.targets[i], c.patterns[i], clean, now);
    var fed := j.(targets := j.targets[i := t]);
    if t.state != j.targets[i].state && t.Final() && c.sequential then AdvancedSeq(c, fed, i, now) else fed
  }

  /** One iteration of the sweep loop. */
  function SweepOne(c: JobConfig, j: JobVal, i: nat, now: int): (r: JobVal)
    requires Fits(c, j) && i < |j.targets|
    ensures Fits(c, r)
  {
    var t := j.targets[i];
    if Elapsed(t, now) >= c.timeout && t.Running() then
      var marked := j.(targets := j.targets[i := TimeoutStep(t, now)]);
      if c.sequential then AdvancedSeq(c, marked, i, now) else marked
    else j
  }

  function SweepFrom(c: JobConfig, j: JobVal, i: nat, now: int): (r: JobVal)
    requires Fits(c, j) && i <= |j.targets|
    ensures Fits(c, r)
    decreases |j.targets| - i
  {
    if i == |j.targets| then j else SweepFrom(c, SweepOne(c, j, i, now), i + 1, now)
  }

  /** The target an output chunk is routed to: of targets with the same id, the last. */
  function Routed(ids: seq<string>, id: string): (r: Option<nat>)
    ensures r.None? <==> id !in ids
    ensures r.Some? ==> r.value < |ids| && ids[r.value] == id && forall k :: r.value < k < |ids| ==> ids[k] != id
  {
    if ids == [] then None
    else if ids[|ids| - 1] == id then Some(|ids| - 1)
    else Routed(ids[..|ids| - 1], id)
  }

  ghost function Vals(cells: seq<TargetCell>): (vals: seq<Target>)
    reads cells
    ensures |vals| == |cells|
  {
    seq(|cells|, i requires 0 <= i < |cells| reads cells => cells[i].Val())
  }

  function Ids(cells: seq<TargetCell>): (ids: seq<string>)
    ensures |ids| == |cells|
  {
    seq(|cells|, i requires 0 <= i < |cells| => cells[i].id)
  }

  class Job {
    const targets: seq<TargetCell>
    const lines: map<string, Bytes>
    const send: (string, Bytes) -> Option<Bytes>
    const sequential: bool
    const timeout: int
    var byID: map<string, TargetCell>
    var cur: nat
    var started: bool

    constructor (targets: seq<TargetCell>, lines: map<string, Bytes>, send: (string, Bytes) -> Option<Bytes>,
                 sequential: bool, timeout: int)
      requires forall i, k :: 0 <= i < k < |targets| ==> targets[i] != targets[k]
      ensures Valid() && Val() == JobVal(Vals(targets), 0, false)
      ensures this.targets == targets && this.lines == lines && this.send == send
      ensures this.sequential == sequential && this.timeout == timeout
    {
      this.targets, this.lines, this.send, this.sequential, this.timeout := targets, lines, send, sequential, timeout;
      cur, started := 0, false;
      new;
      byID := map[];
      var i := 0;
      while i < |targets|
        modifies `byID
        invariant 0 <= i <= |targets|
        invariant Indexed(i)
      {
        byID := byID[targets[i].id := targets[i]];
        i := i + 1;
        assert Ids(targets)[..i][..i - 1] == Ids(targets)[..i - 1];
      }
      assert Ids(targets)[..i] == Ids(targets);
    }

    function Config(): (c: JobConfig)
      ensures |c.ids| == |c.patterns| == |targets|
    {
      JobConfig(Ids(targets), seq(|targets|, i requires 0 <= i < |targets| => targets[i].patterns),
                lines, send, sequential, timeout)
    }

    ghost function Val(): (j: JobVal)
      reads `cur, `started, targets
      ensures Fits(Config(), j)
    {
      JobVal(Vals(targets), cur, started)
    }

    /** byID routes over the first n targets. */
    ghost predicate Indexed(n: nat)
      reads `byID
      requires n <= |targets|
    {
      forall id :: (id in byID <==> Routed(Ids(targets)[..n], id).Some?)
        && (id in byID ==> Routed(Ids(targets)[..n], id).value < n
                           && byID[id] == targets[Routed(Ids(targets)[..n], id).value])
    }

    ghost predicate Valid()
      reads `byID
    {
      && (forall i, k :: 0 <= i < k < |targets| ==> targets[i] != targets[k])
      && Ids(targets)[..|targets|] == Ids(targets) && Indexed(|targets|)
    }

    method StartTarget(t: TargetCell, now: int, ghost i: nat)
      requires Valid() && i < |targets| && targets[i] == t
      modifies `cur, targets
      ensures Val() == StartedTarget(Config(), old(Val()), i, now)
      decreases |targets| - cur, 1
    {
      var line := if t.id in lines then lines[t.id] else [];
      t.BeginSend(line, now);
      assert Vals(targets) == old(Vals(targets))[i := Begin(line, now)];
      var err := send(t.id, line);
      if err.Some? {
        t.FailSend(err.value, now);
        assert Vals(targets) == old(Vals(targets))[i := FailStep(Begin(line, now), err.value, now)];
        if sequential {
          AdvanceSeq(t, now, i);
        }
      }
    }

    /** Starts the next target, but only if `finished` is the current one. */
    method AdvanceSeq(finished: TargetCell, now: int, ghost i: nat)
      requires Valid() && i < |targets| && targets[i] == finished
      modifies `cur, targets
      ensures Val() == AdvancedSeq(Config(), old(Val()), i, now)
      decreases |targets| - cur, 0
    {
      if cur >= |targets| || targets[cur] != finished {
        return;
      }
      cur := cur + 1;
      if cur < |targets| {
        StartTarget(targets[cur], now, cur);
      }
    }

    method Start(now: int)
      requires Valid()
      modifies `cur, `started, targets
      ensures Val() == StartJob(Config(), old(Val()), now)
    {
      if started {
        return;
      }
      started := true;
      if sequential {
        if |targets| > 0 {
          StartTarget(targets[0], now, 0);
        }
        return;
      }
      var i := 0;
      while i < |targets|
        modifies `cur, targets
        invariant 0 <= i <= |targets|
        invariant StartAll(Config(), Val(), i, now) == StartJob(Config(), old(Val()), now)
      {
        StartTarget(targets[i], now, i);
        i := i + 1;
      }
    }

    method Feed(id: string, clean: Bytes, now: int)
      requires Valid()
      modifies `cur, targets
      ensures Val() == match Routed(Ids(targets), id)
                       case None => old(Val())
                       case Some(i) => FeedJob(Config(), old(Val()), i, clean, now)
    {
      if id !in byID {
        return;
      }
      var t := byID[id];
      ghost var i := Routed(Ids(targets), id).value;
      var changed := t.Feed(clean, now);
      assert Vals(targets) == old(Vals(targets))[i := t.Val()];
      if changed {
        if t.IsFinal() && sequential {
          AdvanceSeq(t, now, i);
        }
      }
    }

    /** Times out every running target whose deadline passed. */
    method Sweep(now: int)
      requires Valid()
      modifies `cur, targets
      ensures Val() == SweepFrom(Config(), old(Val()), 0, now)
    {
      var i := 0;
      while i < |targets|
        modifies `cur, targets
        invariant 0 <= i <= |targets|
        invariant SweepFrom(Config(), Val(), i, now) == SweepFrom(Config(), old(Val()), 0, now)
      {
        SweepTarget(targets[i], now, i);
        i := i + 1;
      }
    }

    method SweepTarget(t: TargetCell, now: int, ghost i: nat)
      requires Valid() && i < |targets| && targets[i] == t
      modifies `cur, targets
      ensures Val() == SweepOne(Config(), old(Val()), i, now)
    {
      var elapsed := if t.started.None? then 0 else now - t.started.value;
      if elapsed >= timeout {
        var marked := t.MarkTimeout(now);
        assert Vals(targets) == old(Vals(targets))[i := t.Val()];
        if marked && sequential {
          AdvanceSeq(t, now, i);
        }
      }
    }

    method Done() returns (done: bool)
      ensures done == Val().Done()
    {
      var i := 0;
      while i < |targets|
        invariant 0 <= i <= |targets|
        invariant forall k :: 0 <= k < i ==> targets[k].Val().Final()
      {
        if !targets[i].IsFinal() {
          assert !Val().targets[i].Final();
          return false;
        }
        i := i + 1;
      }
      done := true;
    }
  }

  // ------------------------------------------------------------- sequential jobs

  /** Before cur everything is final, after it pending, and cur itself is running. */
  ghost predicate InTurn(c: JobConfig, j: JobVal) {
    && Fits(c, j) && j.cur <= |j.targets| && (!j.started ==> j.cur == 0)
    && (forall i :: 0 <= i < j.cur ==> j.targets[i].Final())
    && (forall i :: j.cur < i < |j.targets| ==> Untouched(j.targets[i]))
    && (j.cur < |j.targets| ==>
          if j.started then j.targets[j.cur].Running() && j.targets[j.cur].started.Some?
          else Untouched(j.targets[0]))
  }

  predicate Untouched(t: Target) {
    t.state == Pending && t.started.None?
  }

  /** No clock was started after `now`. */
  ghost predicate StartedBy(j: JobVal, now: int) {
    forall i :: 0 <= i < |j.targets| && j.targets[i].started.Some? ==> j.targets[i].started.value <= now
  }

  /** What one call changes: final targets stay as they are, nothing moves back. */
  ghost predicate Forward(j: JobVal, r: JobVal, now: int) {
    && |r.targets| == |j.targets| && r.cur >= j.cur && (j.started ==> r.started)
    && (forall i :: 0 <= i < |j.targets| && j.targets[i].Final() ==> r.targets[i] == j.targets[i])
    && (forall i :: 0 <= i < |j.targets| && r.targets[i].started != j.targets[i].started ==>
          r.targets[i].started == Some(now) && i > j.cur)
  }

  /** The turn passes on: to the next target whose send succeeds, or past the end. */
  lemma {:induction false} AdvanceKeeps(c: JobConfig, j: JobVal, now: int)
    requires c.sequential && Fits(c, j) && j.started && j.cur < |j.targets|
    requires forall i :: 0 <= i <= j.cur ==> j.targets[i].Final()
    requires forall i :: j.cur < i < |j.targets| ==> Untouched(j.targets[i])
    ensures var r := AdvancedSeq(c, j, j.cur, now);
            InTurn(c, r) && r.started && r.cur > j.cur && Forward(j, r, now)
    decreases |j.targets| - j.cur
  {
    var next := j.(cur := j.cur + 1);
    if next.cur < |next.targets| {
      var i := next.cur;
      var begun := Begin(c.LineOf(i), now);
      match c.SendError(i)
      case None =>
        assert AdvancedSeq(c, j, j.cur, now) == next.(targets := next.targets[i := begun]);
      case Some(msg) =>
        var failed := next.(targets := next.targets[i := FailStep(begun, msg, now)]);
        assert AdvancedSeq(c, j, j.cur, now) == AdvancedSeq(c, failed, i, now);
        AdvanceKeeps(c, failed, now);
        FailedForward(j, failed, AdvancedSeq(c, failed, i, now), now);
    }
  }

  lemma FailedForward(j: JobVal, failed: JobVal, r: JobVal, now: int)
    requires j.cur + 1 == failed.cur < |j.targets| == |failed.targets| && j.started
    requires j.targets[failed.cur].state == Pending && failed.targets[failed.cur].started == Some(now)
    requires failed == JobVal(j.targets[failed.cur := failed.targets[failed.cur]], failed.cur, true)
    requires Forward(failed, r, now)
    ensures Forward(j, r, now)
  {
  }

  lemma StartKeeps(c: JobConfig, j: JobVal, now: int)
    requires c.sequential && InTurn(c, j) && !j.started
    ensures var r := StartJob(c, j, now); InTurn(c, r) && r.started && StartedBy(r, now)
  {
    var begun := j.(started := true);
    if |j.targets| > 0 {
      match c.SendError(0)
      case None =>
      case Some(msg) =>
        var failed := begun.(targets := begun.targets[0 := FailStep(Begin(c.LineOf(0), now), msg, now)]);
        AdvanceKeeps(c, failed, now);
    }
  }

  lemma FeedJobKeeps(c: JobConfig, j: JobVal, i: nat, clean: Bytes, now: int)
    requires c.sequential && InTurn(c, j) && j.started && i < |j.targets|
    ensures var r := FeedJob(c, j, i, clean, now); InTurn(c, r) && r.started && Forward(j, r, now)
  {
    var t := FeedStep(j.targets[i], c.patterns[i], clean, now);
    FeedKeeps(j.targets[i], c.patterns[i], clean, now);
    var fed := j.(targets := j.targets[i := t]);
    if i == j.cur {
      if t.Final() {
        AdvanceKeeps(c, fed, now);
      }
    } else {
      assert t == j.targets[i];
    }
  }

  lemma SweepOneKeeps(c: JobConfig, j: JobVal, i: nat, now: int)
    requires c.sequential && InTurn(c, j) && j.started && i < |j.targets|
    ensures var r := SweepOne(c, j, i, now); InTurn(c, r) && r.started && Forward(j, r, now)
    ensures i == j.cur && Elapsed(j.targets[i], now) >= c.timeout ==> SweepOne(c, j, i, now).cur > j.cur
    ensures i != j.cur ==> SweepOne(c, j, i, now) == j
  {
    if i == j.cur && Elapsed(j.targets[i], now) >= c.timeout {
      AdvanceKeeps(c, j.(targets := j.targets[i := TimeoutStep(j.targets[i], now)]), now);
    }
  }

  lemma ForwardTrans(j: JobVal, k: JobVal, r: JobVal, now: int)
    requires Forward(j, k, now) && Forward(k, r, now)
    ensures Forward(j, r, now)
  {
  }

  lemma {:induction false} SweepKeeps(c: JobConfig, j: JobVal, i: nat, now: int)
    requires c.sequential && InTurn(c, j) && j.started && i <= |j.targets|
    ensures var r := SweepFrom(c, j, i, now); InTurn(c, r) && r.started && Forward(j, r, now)
    ensures i <= j.cur < |j.targets| && Elapsed(j.targets[j.cur], now) >= c.timeout ==>
              SweepFrom(c, j, i, now).cur > j.cur
    decreases |j.targets| - i
  {
    if i < |j.targets| {
      var k := SweepOne(c, j, i, now);
      SweepOneKeeps(c, j, i, now);
      SweepKeeps(c, k, i + 1, now);
      ForwardTrans(j, k, SweepFrom(c, k, i + 1, now), now);
    }
  }

  /** Whenever no call is in progress, the job is done exactly when the turn has passed the last target. */
  lemma DoneIffPastEnd(c: JobConfig, j: JobVal)
    requires InTurn(c, j) && j.started
    ensures j.Done() <==> j.cur == |j.targets|
  {
  }

  // ------------------------------------------------------------------ whole runs

  datatype Event = Output(target: nat, clean: Bytes, now: int) | Sweep(now: int)

  function Apply(c: JobConfig, j: JobVal, e: Event): (r: JobVal)
    requires Fits(c, j)
    ensures Fits(c, r)
  {
    match e
    case Output(i, clean, now) => if i < |j.targets| then FeedJob(c, j, i, clean, now) else j
    case Sweep(now) => SweepFrom(c, j, 0, now)
  }

  function RunFrom(c: JobConfig, j: JobVal, events: seq<Event>): (r: JobVal)
    requires Fits(c, j)
    ensures Fits(c, r)
  {
    if events == [] then j else Apply(c, RunFrom(c, j, events[..|events| - 1]), events[|events| - 1])
  }

  /** Time never goes back, starting at t0. */
  ghost predicate Timely(events: seq<Event>, t0: int) {
    && (forall i :: 0 <= i < |events| ==> events[i].now >= t0)
    && (forall i, k :: 0 <= i < k < |events| ==> events[i].now <= events[k].now)
  }

  function Sweeps(events: seq<Event>): nat {
    if events == [] then 0
    else Sweeps(events[..|events| - 1]) + if events[|events| - 1].Sweep? then 1 else 0
  }

  /** Time of the last sweep, t0 when there was none. */
  function LastSweep(events: seq<Event>, t0: int): int {
    if events == [] then t0
    else if events[|events| - 1].Sweep? then events[|events| - 1].now
    else LastSweep(events[..|events| - 1], t0)
  }

  /** Each sweep comes at least one timeout after the one before (the first after t0). */
  ghost predicate Spaced(events: seq<Event>, t0: int, timeout: int) {
    events == []
    || (var init, e := events[..|events| - 1], events[|events| - 1];
        Spaced(init, t0, timeout) && (e.Sweep? ==> e.now >= LastSweep(init, t0) + timeout))
  }

  /** After k sweeps, the last one at `last`: k targets are through, or the current one had its turn since. */
  ghost predicate Progress(c: JobConfig, j: JobVal, k: nat, last: int, now: int) {
    && InTurn(c, j) && j.started && StartedBy(j, now)
    && j.cur >= (if k < |j.targets| then k else |j.targets|)
    && (j.cur <= k && j.cur < |j.targets| ==> j.targets[j.cur].started.value <= last)
  }

  lemma ProgressOutput(c: JobConfig, j: JobVal, e: Event, k: nat, last: int, before: int)
    requires c.sequential && Progress(c, j, k, last, before) && before <= e.now && e.Output?
    ensures Progress(c, Apply(c, j, e), k, last, e.now)
  {
    hide AdvancedSeq, StartedTarget, FeedJob;
    if e.target < |j.targets| {
      FeedJobKeeps(c, j, e.target, e.clean, e.now);
    }
  }

  lemma ProgressSweep(c: JobConfig, j: JobVal, e: Event, k: nat, last: int, before: int)
    requires c.sequential && c.timeout > 0 && Progress(c, j, k, last, before)
    requires before <= e.now && e.Sweep? && e.now >= last + c.timeout
    ensures Progress(c, Apply(c, j, e), k + 1, e.now, e.now)
  {
    hide SweepFrom;
    SweepKeeps(c, j, 0, e.now);
  }

  /**
   * A sequential job always finishes: whatever output arrives in between, k sweeps
   * at least one timeout apart leave at least min(k, n) targets final.
   */
  lemma {:induction false} SequentialFinishes(c: JobConfig, j: JobVal, events: seq<Event>, t0: int)
    requires c.sequential && c.timeout > 0 && InTurn(c, j) && !j.started
    requires Timely(events, t0) && Spaced(events, t0, c.timeout)
    ensures Progress(c, RunFrom(c, StartJob(c, j, t0), events), Sweeps(events), LastSweep(events, t0),
                     if events == [] then t0 else events[|events| - 1].now)
  {
    hide StartedBy, StartJob, Apply;
    if events == [] {
      StartProgress(c, j, t0);
    } else {
      var init, e := events[..|events| - 1], events[|events| - 1];
      SequentialFinishes(c, j, init, t0);
      var r := RunFrom(c, StartJob(c, j, t0), init);
      var before := if init == [] then t0 else init[|init| - 1].now;
      if e.Sweep? {
        ProgressSweep(c, r, e, Sweeps(init), LastSweep(init, t0), before);
      } else {
        ProgressOutput(c, r, e, Sweeps(init), LastSweep(init, t0), before);
      }
    }
  }

  lemma StartProgress(c: JobConfig, j: JobVal, t0: int)
    requires c.sequential && InTurn(c, j) && !j.started
    ensures Progress(c, StartJob(c, j, t0), 0, t0, t0)
  {
    StartKeeps(c, j, t0);
  }

  // --------------------------------------------------------------- parallel jobs

  /** Every target was begun, at or before t0, or is final. */
  ghost predicate AllBegun(c: JobConfig, j: JobVal, t0: int) {
    && Fits(c, j)
    && forall i :: 0 <= i < |j.targets| ==> BegunBy(j.targets[i], t0)
  }

  predicate BegunBy(t: Target, t0: int) {
    t.state != Pending && t.started.Some? && t.started.value <= t0
  }

  lemma {:induction false} StartAllBegins(c: JobConfig, j: JobVal, i: nat, t0: int)
    requires !c.sequential && Fits(c, j) && i <= |j.targets|
    requires forall k :: 0 <= k < i ==> BegunBy(j.targets[k], t0)
    ensures AllBegun(c, StartAll(c, j, i, t0), t0)
    ensures |StartAll(c, j, i, t0).targets| == |j.targets|
    decreases |j.targets| - i
  {
    if i < |j.targets| {
      StartAllBegins(c, StartedTarget(c, j, i, t0), i + 1, t0);
    }
  }

  lemma {:induction false} SweepEnds(c: JobConfig, j: JobVal, i: nat, t0: int, now: int)
    requires !c.sequential && AllBegun(c, j, t0) && i <= |j.targets|
    ensures var r := SweepFrom(c, j, i, now);
            && AllBegun(c, r, t0)
            && (forall k :: 0 <= k < |j.targets| && j.targets[k].Final() ==> r.targets[k].Final())
            && (now >= t0 + c.timeout ==> forall k :: i <= k < |j.targets| ==> r.targets[k].Final())
    decreases |j.targets| - i
  {
    if i < |j.targets| {
      var k := SweepOne(c, j, i, now);
      assert now >= t0 + c.timeout ==> k.targets[i].Final();
      SweepEnds(c, k, i + 1, t0, now);
    }
  }

  /** A parallel job is done after one sweep that comes a timeout or more after the start. */
  lemma {:induction false} ParallelFinishes(c: JobConfig, j: JobVal, events: seq<Event>, t0: int)
    requires !c.sequential && Fits(c, j) && !j.started
    ensures var r := RunFrom(c, StartJob(c, j, t0), events);
            && AllBegun(c, r, t0)
            && ((exists k :: 0 <= k < |events| && events[k].Sweep? && events[k].now >= t0 + c.timeout) ==> r.Done())
  {
    if events == [] {
      StartAllBegins(c, j.(started := true), 0, t0);
    } else {
      var init, e := events[..|events| - 1], events[|events| - 1];
      ParallelFinishes(c, j, init, t0);
      ParallelStep(c, RunFrom(c, StartJob(c, j, t0), init), e, t0);
      assert forall k :: 0 <= k < |init| ==> events[k] == init[k];
    }
  }

  lemma ParallelStep(c: JobConfig, j: JobVal, e: Event, t0: int)
    requires !c.sequential && AllBegun(c, j, t0)
    ensures AllBegun(c, Apply(c, j, e), t0)
    ensures j.Done() || (e.Sweep? && e.now >= t0 + c.timeout) ==> Apply(c, j, e).Done()
  {
    if e.Sweep? {
      SweepEnds(c, j, 0, t0, e.now);
    } else if e.target < |j.targets| {
      FeedKeeps(j.targets[e.target], c.patterns[e.target], e.clean, e.now);
    }
  }
}
