/** Whole runs of the scrollback: any interleaving of its operations, a grep beside them, and `f9 grep`. */
module ScrollbackRuns {
  import opened Wrappers
  import opened ByteLines
  import opened FlatLogs
  import opened Grep
  import opened GrepReport
  import opened Scrollback

  /** The operations of a run; the compressor's two halves happen when they can. */
  datatype Op = Write(p: Bytes) | Take | Commit | Cap(n: int) | Read(lo: int, hi: int) | Search(re: Regexp, opts: GrepOpts)

  function Writes(ops: seq<Op>): seq<Bytes> {
    if ops == [] then []
    else
      var op := ops[|ops| - 1];
      if op.Write? then Writes(ops[..|ops| - 1]) + [op.p] else Writes(ops[..|ops| - 1])
  }

  /** The log after more appends. */
  function Grown(log: FlatLog, ps: seq<Bytes>, limit: nat): FlatLog {
    if ps == [] then log else Append(Grown(log, ps[..|ps| - 1], limit), ps[|ps| - 1], limit)
  }

  lemma GrownSnoc(log: FlatLog, ps: seq<Bytes>, p: Bytes, limit: nat)
    ensures Grown(log, ps + [p], limit) == Append(Grown(log, ps, limit), p, limit)
  {
    assert (ps + [p])[..|ps|] == ps;
  }

  lemma WritesSnoc(ops: seq<Op>, op: Op)
    ensures Writes(ops + [op]) == if op.Write? then Writes(ops) + [op.p] else Writes(ops)
  {
    assert (ops + [op])[..|ops|] == ops;
  }

  /** What a read is answered: the slice of the flat log, or which bound was violated. */
  ghost predicate Answers(log: FlatLog, firstAvail: nat, lo: int, hi: int, r: Result<seq<Bytes>, LinesError>) {
    r == if lo < 0 || hi < lo then Err(InvalidRange)
         else if lo < firstAvail then Err(Evicted)
         else if hi > |log.Texts()| then Err(BeyondEnd)
         else Ok(log.Texts()[lo..hi])
  }

  /** What one operation may have done to the sealed chunks: nothing is lost but by an eviction over a cap. */
  twostate predicate Keeps(ring: Ring, op: Op)
    reads ring
  {
    match op
    case Write(p) =>
      CutsTo(old(ring.Stocked()).(active := old(ring.active) + p), ring.Stocked(), ring.chunkSize, ring.codec,
             |ring.log.Texts()|, ring.maxBytes, ring.maxLines)
    case Commit =>
      if old(ring.compressing).Some?
      then exists event :: ring.CommitsFrom(old(ring.sealed), old(ring.compressing).value, event)
      else ring.Stocked() == old(ring.Stocked())
    case Cap(n) =>
      && ring.maxBytes == (if n <= 0 then old(ring.maxBytes) else n)
      && if n <= 0 then ring.sealed == old(ring.sealed) else ring.KeptOf(old(ring.sealed))
    case _ => ring.sealed == old(ring.sealed) && ring.firstAvail == old(ring.firstAvail)
  }

  /** One operation, and what the log and the chunks are afterwards. */
  method Perform(ring: Ring, op: Op) returns (ghost answer: Option<Result<seq<Bytes>, LinesError>>)
    requires ring.Valid() && !ring.closed
    modifies ring
    ensures ring.Valid() && !ring.closed && ring.firstAvail >= old(ring.firstAvail)
    ensures ring.log == if op.Write? then Append(old(ring.log), op.p, ring.Limit()) else old(ring.log)
    ensures op.Read? ==> answer.Some? && Answers(old(ring.log), old(ring.firstAvail), op.lo, op.hi, answer.value)
    ensures Keeps(ring, op) && (!op.Cap? ==> ring.maxBytes == old(ring.maxBytes))
  {
    hide Ring.Consistent, Ring.Settled, FlatLogs.Append, FlatLog.Texts, CutsTo, Ring.CommitsFrom, Ring.KeptOf, Ring.Roomy,
         Ring.CapsRespected;
    answer := None;
    match op
    case Write(p) =>
      var events := ring.Append(p);
    case Take =>
      if ring.compressing.None? && |ring.sealCh| > 0 {
        ring.CompressorTake();
      }
    case Commit =>
      if ring.compressing.Some? {
        var event := ring.CompressorCommit();
      }
    case Cap(n) =>
      ring.SetMaxBytes(n);
    case Read(lo, hi) =>
      var r := ring.Lines(lo, hi);
      answer := Some(r);
    case Search(re, opts) =>
      var it := ring.Grep(Some(re), opts);
  }

  /** In every run the log is the flat log of the bytes written, and what is available only shrinks from the front. */
  method PerformAll(ring: Ring, ops: seq<Op>)
    requires ring.Valid() && !ring.closed
    modifies ring
    ensures ring.Valid() && !ring.closed && ring.firstAvail >= old(ring.firstAvail)
    ensures ring.log == Grown(old(ring.log), Writes(ops), ring.Limit())
  {
    hide Ring.Consistent, Ring.Settled, FlatLogs.Append;
    ghost var log := ring.log;
    for i := 0 to |ops|
      invariant ring.Valid() && !ring.closed && ring.firstAvail >= old(ring.firstAvail)
      invariant ring.log == Grown(log, Writes(ops[..i]), ring.Limit())
    {
      assert ops[..i + 1] == ops[..i] + [ops[i]];
      WritesSnoc(ops[..i], ops[i]);
      if ops[i].Write? {
        GrownSnoc(log, Writes(ops[..i]), ops[i].p, ring.Limit());
      }
      ghost var answer := Perform(ring, ops[i]);
    }
    assert ops[..|ops|] == ops;
  }

  /** Takes every match the iterator has left. */
  method Collect(it: GrepIter) returns (ms: seq<Match>)
    requires it.Valid()
    modifies it
    ensures ms == old(it.Remaining())
  {
    hide GrepFrom, GrepIter.Streaming, GrepIter.LooksBehind;
    ms := [];
    ghost var all := it.Remaining();
    while true
      invariant it.Valid() && ms + it.Remaining() == all
      decreases |it.Remaining()|
    {
      ghost var rest := it.Remaining();
      var m, ok := it.Next();
      if !ok {
        break;
      }
      assert rest == [m] + it.Remaining();
      ms := ms + [m];
    }
  }

  /** What happens next beside a grep: the ring does something, or the grep is asked for a match. */
  datatype Turn = Does(op: Op) | Pull

  /** A grep delivers the naive grep of the lines there were when it began, whatever the ring does between its matches. */
  method GrepMeanwhile(ring: Ring, re: Regexp, opts: GrepOpts, turns: seq<Turn>) returns (ms: seq<Match>)
    requires ring.Valid() && !ring.closed
    modifies ring
    ensures ring.Valid() && old(ring.firstAvail) <= |old(ring.log).Texts()|
    ensures ms == NaiveGrep(old(ring.log).Texts()[old(ring.firstAvail)..], old(ring.firstAvail),
                            EffectiveRegexp(re, opts.ignoreCase, ring.compile), opts)
  {
    hide Ring.Consistent, Ring.Settled, FlatLogs.Append, FlatLog.Texts, NaiveGrep, EffectiveRegexp, Ring.Roomy,
         GrepIter.Streaming, GrepIter.LooksBehind, GrepFrom;
    var found := ring.Grep(Some(re), opts);
    var it := found.value;
    ghost var all := it.Remaining();
    ms := [];
    for i := 0 to |turns|
      invariant ring.Valid() && !ring.closed && fresh(it) && it.Valid()
      invariant ms + it.Remaining() == all
    {
      match turns[i]
      case Does(op) =>
        ghost var answer := Perform(ring, op);
      case Pull =>
        ghost var rest := it.Remaining();
        var m, ok := it.Next();
        if ok {
          assert rest == [m] + it.Remaining();
          ms := ms + [m];
        }
    }
    var rest := Collect(it);
    ms := ms + rest;
  }

  /** Turns of the background compressor: true takes a chunk, false commits one, when it can. */
  method Background(ring: Ring, work: seq<bool>)
    requires ring.Valid() && !ring.closed
    modifies ring
    ensures ring.Valid() && !ring.closed && ring.log == old(ring.log) && ring.maxBytes == old(ring.maxBytes)
    ensures ring.firstAvail >= old(ring.firstAvail)
    ensures ring.Roomy(old(ring.firstAvail)) ==> ring.firstAvail == old(ring.firstAvail)
  {
    hide Ring.Consistent, Ring.Settled, RoomFor;
    for i := 0 to |work|
      invariant ring.Valid() && !ring.closed && ring.log == old(ring.log) && ring.maxBytes == old(ring.maxBytes)
      invariant ring.firstAvail >= old(ring.firstAvail)
      invariant ring.Roomy(old(ring.firstAvail)) ==> ring.firstAvail == old(ring.firstAvail)
    {
      if work[i] && ring.compressing.None? && |ring.sealCh| > 0 {
        ring.CompressorTake();
      } else if !work[i] && ring.compressing.Some? {
        var event := ring.CompressorCommit();
      }
    }
  }

  /** Room for the lines of a whole recording is room for those of its beginning. */
  lemma {:induction false} RoomBefore(ps: seq<Bytes>, i: nat, limit: nat, codec: Codec, maxBytes: int, maxLines: int)
    requires limit > 0 && i <= |ps| && RoomFor(Replay(ps, limit).Texts(), 0, codec, maxBytes, maxLines)
    ensures RoomFor(Replay(ps[..i], limit).Texts(), 0, codec, maxBytes, maxLines)
    decreases |ps|
  {
    hide FlatLogs.Append, FlatLog.Texts, Mass, Overhead;
    if i == |ps| {
      assert ps[..i] == ps;
    } else {
      var init := ps[..|ps| - 1];
      var k: nat :| Overhead(codec, k) && Mass(Replay(ps, limit).Texts()[0..], k + 1) <= maxBytes;
      ReplayKeeps(init, 0, limit);
      AppendMass(Replay(init, limit), ps[|ps| - 1], limit, k + 1);
      assert Replay(ps, limit).Texts()[0..] == Replay(ps, limit).Texts();
      assert Replay(init, limit).Texts()[0..] == Replay(init, limit).Texts();
      RoomBefore(init, i, limit, codec, maxBytes, maxLines);
      assert init[..i] == ps[..i];
    }
  }

  /**
   * `f9 grep`: fills a fresh ring with a recording read in pieces, the compressor at work in between,
   * and prints the merged matches; nothing is lost of a recording with room within the caps.
   */
  method CmdGrep(codec: Codec, compile: string -> Option<Regexp>, recording: seq<Bytes>, work: seq<seq<bool>>,
                 re: Regexp, opts: GrepOpts)
    returns (out: seq<OutLine>, count: nat, ghost base: nat)
    requires codec.Lossless() && |work| == |recording|
    ensures var log := Replay(recording, FORCED_LINE_SPLIT);
            && base <= |log.Texts()|
            && (RoomFor(log.Texts(), 0, codec, DEFAULT_BYTES, DEFAULT_LINES) ==> base == 0)
            && var lines := log.Texts()[base..];
               var hits := Capped(HitsFrom(lines, 0, EffectiveRegexp(re, opts.ignoreCase, compile), opts), opts.maxMatches, 0);
               && count == |hits|
               && out == Job(lines, base, hits, Pos(opts.after), Pos(opts.before)).Report(|lines|)
  {
    hide Ring.Consistent, Ring.Settled, FlatLogs.Append, FlatLog.Texts, EffectiveRegexp, HitsFrom, Capped, Job.Report,
         GrepIter.Streaming, GrepIter.LooksBehind, GrepFrom, RoomFor;
    var ring := Filled(codec, compile, recording, work);
    var it := ring.Grep(Some(re), opts);
    base := ring.firstAvail;
    out, count := PrintMatches(it.value, opts.after, opts.before);
  }

  const DEFAULT_BYTES: int := 0x2000_0000
  const DEFAULT_LINES: int := 5_000_000

  /** A ring with default caps that has taken in a recording. */
  method Filled(codec: Codec, compile: string -> Option<Regexp>, recording: seq<Bytes>, work: seq<seq<bool>>) returns (ring: Ring)
    requires codec.Lossless() && |work| == |recording|
    ensures fresh(ring) && ring.Valid() && !ring.closed && ring.compile == compile
    ensures ring.log == Replay(recording, FORCED_LINE_SPLIT)
    ensures RoomFor(ring.log.Texts(), 0, codec, DEFAULT_BYTES, DEFAULT_LINES) ==> ring.firstAvail == 0
  {
    hide Ring.Consistent, Ring.Settled, FlatLogs.Append, FlatLog.Texts, RoomFor;
    ring := new Ring(Config(0, 0, 0), codec, compile);
    ghost var room := RoomFor(Replay(recording, FORCED_LINE_SPLIT).Texts(), 0, codec, DEFAULT_BYTES, DEFAULT_LINES);
    for i := 0 to |recording|
      invariant ring.Valid() && !ring.closed && fresh(ring)
      invariant ring.log == Replay(recording[..i], FORCED_LINE_SPLIT)
      invariant ring.Limit() == FORCED_LINE_SPLIT && ring.compile == compile && ring.codec == codec
      invariant ring.maxBytes == DEFAULT_BYTES && ring.maxLines == DEFAULT_LINES
      invariant room ==> ring.firstAvail == 0
    {
      assert recording[..i + 1] == recording[..i] + [recording[i]];
      ReplaySnoc(recording[..i], recording[i], FORCED_LINE_SPLIT);
      if room {
        RoomBefore(recording, i + 1, FORCED_LINE_SPLIT, codec, DEFAULT_BYTES, DEFAULT_LINES);
      }
      var events := ring.Append(recording[i]);
      Background(ring, work[i]);
    }
    assert recording[..|recording|] == recording;
  }

  lemma ReplaySnoc(ps: seq<Bytes>, p: Bytes, limit: nat)
    ensures Replay(ps + [p], limit) == FlatLogs.Append(Replay(ps, limit), p, limit)
  {
    assert (ps + [p])[..|ps|] == ps;
  }
}
