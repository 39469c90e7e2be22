/** The chunked, background-compressed, evicting scrollback ring. */
module Scrollback {
  import opened Wrappers
  import opened ByteLines
  import opened FlatLogs
  import opened Grep

  const FORCED_LINE_SPLIT: nat := 0x40_0000
  const QUEUE_CAP: nat := 8
  const CACHE_CAP: nat := 4

  datatype Config = Config(chunkSize: int, maxLines: int, maxBytes: int)

  /** What an OnSeal callback receives. */
  datatype SealEvent = SealEvent(chunk: Bytes, firstLine: nat, lastLine: nat)

  datatype LinesError = InvalidRange | Evicted | BeyondEnd | BadChunk

  // ----------------------------------------------------------------- chunks

  /** A sealed chunk. Its first line number identifies it in the queue and the cache. */
  datatype Chunk = Chunk(raw: Option<Bytes>, comp: Option<Bytes>, rawLen: nat, firstLine: nat, lines: nat) {

    function View(): ChunkView {
      ChunkView(raw, comp)
    }

    /** Bytes the chunk is charged for. */
    function Size(): nat {
      if comp.Some? then |comp.value| else rawLen
    }

    /** Exactly one of raw and comp is set; it yields rawLen bytes, and comp is what the encoder makes of them. */
    ghost predicate Sound(codec: Codec) {
      && (raw.Some? <==> comp.None?)
      && View().Readable(codec)
      && |View().Content(codec)| == rawLen > 0
      && (comp.Some? ==> comp.value == codec.enc(View().Content(codec)))
    }

    /** The chunk splits into exactly the recorded lines of the log. */
    ghost predicate Holds(codec: Codec, texts: seq<Bytes>)
      requires Sound(codec)
    {
      && lines > 0 && firstLine + lines <= |texts|
      && AllLines(View().Content(codec)) == texts[firstLine..firstLine + lines]
    }
  }

  function Compressed(c: Chunk, codec: Codec): Chunk
    requires c.raw.Some?
  {
    c.(raw := None, comp := Some(codec.enc(c.raw.value)))
  }

  function TotalSize(chunks: seq<Chunk>): nat {
    if chunks == [] then 0 else chunks[0].Size() + TotalSize(chunks[1..])
  }

  /** Chunks not compressed yet, by first line, oldest first. */
  function Raws(chunks: seq<Chunk>): seq<nat> {
    if chunks == [] then [] else RawMark(chunks[0]) + Raws(chunks[1..])
  }

  function RawMark(c: Chunk): seq<nat> {
    if c.comp.None? then [c.firstLine] else []
  }

  /** First line of chunk i, or of the active bytes after the last chunk. */
  function StartOf(chunks: seq<Chunk>, activeFirst: nat, i: nat): nat
    requires i <= |chunks|
  {
    if i < |chunks| then chunks[i].firstLine else activeFirst
  }

  /** The chunks tile [firstAvail, activeFirst) with no gap and no overlap. */
  ghost predicate Tiled(chunks: seq<Chunk>, firstAvail: nat, activeFirst: nat) {
    && StartOf(chunks, activeFirst, 0) == firstAvail
    && forall i :: 0 <= i < |chunks| ==> Adjacent(chunks, activeFirst, i)
  }

  /** Chunk i ends where the next one, or the active bytes, begin. */
  ghost predicate Adjacent(chunks: seq<Chunk>, activeFirst: nat, i: nat)
    requires i < |chunks|
  {
    chunks[i].firstLine + chunks[i].lines == StartOf(chunks, activeFirst, i + 1) <= activeFirst
  }

  /** The ring holds a chunk at line k whose content is b. */
  ghost predicate ContentIs(chunks: seq<Chunk>, codec: Codec, k: nat, b: Bytes) {
    exists i :: 0 <= i < |chunks| && chunks[i].Sound(codec) && chunks[i].firstLine == k
      && b == chunks[i].View().Content(codec)
  }

  ghost predicate ChunksHold(chunks: seq<Chunk>, codec: Codec, texts: seq<Bytes>) {
    forall i :: 0 <= i < |chunks| ==> chunks[i].Sound(codec) && chunks[i].Holds(codec, texts)
  }

  ghost predicate ActiveHolds(active: Bytes, ends: seq<nat>, activeFirst: nat, log: FlatLog) {
    && activeFirst <= |log.done|
    && Complete(active) == DoneTexts(log.done)[activeFirst..]
    && Tail(active) == log.partial
    && ends == Ends(active, 0)
  }

  /** Over one of the caps with the first i chunks gone. */
  ghost predicate OverCaps(chunks: seq<Chunk>, i: nat, activeFirst: nat, activeBytes: nat, end: nat,
                           maxBytes: int, maxLines: int)
    requires i <= |chunks|
  {
    || activeBytes + TotalSize(chunks[i..]) > maxBytes
    || end - StartOf(chunks, activeFirst, i) > maxLines
  }

  /** Eviction leaves `rest` of `all`: what is gone was compressed and went while over a cap, and it stops for a reason. */
  ghost predicate EvictionLeaves(all: seq<Chunk>, rest: seq<Chunk>, activeFirst: nat, activeBytes: nat, end: nat,
                          maxBytes: int, maxLines: int) {
    exists d: nat :: d <= |all| && rest == all[d..] && EvictsTo(all, d, activeFirst, activeBytes, end, maxBytes, maxLines)
  }

  ghost predicate EvictsTo(all: seq<Chunk>, d: nat, activeFirst: nat, activeBytes: nat, end: nat,
                           maxBytes: int, maxLines: int)
    requires d <= |all|
  {
    && (forall i :: 0 <= i < d ==>
          all[i].comp.Some? && OverCaps(all, i, activeFirst, activeBytes, end, maxBytes, maxLines))
    && (d == |all| || all[d].comp.None? || !OverCaps(all, d, activeFirst, activeBytes, end, maxBytes, maxLines))
  }

  /** There is only one outcome of an eviction, and within both caps it takes nothing. */
  lemma EvictionOnce(all: seq<Chunk>, rest: seq<Chunk>, other: seq<Chunk>, activeFirst: nat, activeBytes: nat, end: nat,
                    maxBytes: int, maxLines: int)
    requires EvictionLeaves(all, rest, activeFirst, activeBytes, end, maxBytes, maxLines)
    requires EvictionLeaves(all, other, activeFirst, activeBytes, end, maxBytes, maxLines)
    ensures rest == other
    ensures !OverCaps(all, 0, activeFirst, activeBytes, end, maxBytes, maxLines) ==> rest == all
  {
    hide OverCaps;
    var d: nat :| d <= |all| && rest == all[d..] && EvictsTo(all, d, activeFirst, activeBytes, end, maxBytes, maxLines);
    var e: nat :| e <= |all| && other == all[e..] && EvictsTo(all, e, activeFirst, activeBytes, end, maxBytes, maxLines);
    assert d >= e && e >= d;
  }

  /** What sealing works on. */
  datatype Stock = Stock(sealed: seq<Chunk>, queue: seq<nat>, active: Bytes, activeFirst: nat)

  /**
   * One cut of at least a full chunk, at its last newline or, without one, of all from the forced length on: the part
   * cut off becomes a raw chunk in the queue or, behind a full queue, a compressed one.
   */
  ghost predicate Cut(a: Stock, b: Stock, full: nat, codec: Codec, end: nat, maxBytes: int, maxLines: int) {
    && |b.active| < |a.active| && a.activeFirst < b.activeFirst && |a.active| >= full
    && NoNL(b.active)
    && (a.active[|a.active| - |b.active| - 1] != NL ==> NoNL(a.active) && b.active == [] && |a.active| >= FORCED_LINE_SPLIT)
    && var cut := |a.active| - |b.active|;
       var s := Chunk(Some(a.active[..cut]), None, cut, a.activeFirst, b.activeFirst - a.activeFirst);
       && b.active == a.active[cut..]
       && if |a.queue| < QUEUE_CAP then b.queue == a.queue + [s.firstLine] && b.sealed == a.sealed + [s]
          else b.queue == a.queue
               && EvictionLeaves(a.sealed + [Compressed(s, codec)], b.sealed, b.activeFirst, |b.active|, end, maxBytes, maxLines)
  }

  /** Each stock comes from the one before by one cut. */
  ghost predicate Cutting(stocks: seq<Stock>, full: nat, codec: Codec, end: nat, maxBytes: int, maxLines: int) {
    forall i :: 0 < i < |stocks| ==> Cut(stocks[i - 1], stocks[i], full, codec, end, maxBytes, maxLines)
  }

  /** From one stock to another in at most two cuts. */
  ghost predicate CutsTo(a: Stock, b: Stock, full: nat, codec: Codec, end: nat, maxBytes: int, maxLines: int) {
    exists stocks: seq<Stock> :: 0 < |stocks| <= 3 && stocks[0] == a && stocks[|stocks| - 1] == b
      && Cutting(stocks, full, codec, end, maxBytes, maxLines)
  }

  /** Where a cut may be. */
  ghost predicate CutHere(active: Bytes, cut: nat, full: nat) {
    && 0 < cut <= |active| && |active| >= full && NoNL(active[cut..])
    && (active[cut - 1] != NL ==> NoNL(active) && cut == |active| && |active| >= FORCED_LINE_SPLIT)
  }

  lemma CutIs(a: Stock, b: Stock, s: Chunk, full: nat, codec: Codec, end: nat, maxBytes: int, maxLines: int)
    requires s.lines > 0 && 0 < s.rawLen <= |a.active| && b.activeFirst == a.activeFirst + s.lines
    requires s == Chunk(Some(a.active[..s.rawLen]), None, s.rawLen, a.activeFirst, s.lines)
    requires b.active == a.active[s.rawLen..] && CutHere(a.active, s.rawLen, full)
    requires if |a.queue| < QUEUE_CAP then b.queue == a.queue + [s.firstLine] && b.sealed == a.sealed + [s]
             else b.queue == a.queue
                  && EvictionLeaves(a.sealed + [Compressed(s, codec)], b.sealed, b.activeFirst, |b.active|, end, maxBytes, maxLines)
    ensures Cut(a, b, full, codec, end, maxBytes, maxLines)
  {
    hide EvictionLeaves;
  }

  lemma CuttingOn(stocks: seq<Stock>, b: Stock, full: nat, codec: Codec, end: nat, maxBytes: int, maxLines: int)
    requires Cutting(stocks, full, codec, end, maxBytes, maxLines)
    requires stocks != [] && Cut(stocks[|stocks| - 1], b, full, codec, end, maxBytes, maxLines)
    ensures Cutting(stocks + [b], full, codec, end, maxBytes, maxLines)
  {
    hide Cut;
  }

  /** The event carries exactly the lines it names. */
  ghost predicate Announces(e: SealEvent, codec: Codec, texts: seq<Bytes>) {
    && e.firstLine <= e.lastLine < |texts|
    && codec.dec(e.chunk).Some? && AllLines(codec.dec(e.chunk).value) == texts[e.firstLine..e.lastLine + 1]
  }

  /** The bytes of some lines, each with w more. */
  function Mass(lines: seq<Bytes>, w: nat): nat {
    if lines == [] then 0 else |lines[0]| + w + Mass(lines[1..], w)
  }

  /** Compressing makes nothing more than k bytes longer. */
  ghost predicate Overhead(codec: Codec, k: nat) {
    forall b: Bytes :: |codec.enc(b)| <= |b| + k
  }

  /** The lines from `first` on are within both caps, even if every line were compressed on its own. */
  ghost predicate RoomFor(texts: seq<Bytes>, first: nat, codec: Codec, maxBytes: int, maxLines: int) {
    first <= |texts| && |texts| - first <= maxLines
    && exists k: nat :: Overhead(codec, k) && Mass(texts[first..], k + 1) <= maxBytes
  }

  lemma {:induction false} TotalSizeConcat(a: seq<Chunk>, b: seq<Chunk>)
    ensures TotalSize(a + b) == TotalSize(a) + TotalSize(b)
  {
    if a == [] {
      assert a + b == b;
    } else {
      TotalSizeConcat(a[1..], b);
      assert (a + b)[1..] == a[1..] + b;
    }
  }

  lemma {:induction false} RawsConcat(a: seq<Chunk>, b: seq<Chunk>)
    ensures Raws(a + b) == Raws(a) + Raws(b)
  {
    hide RawMark;
    if a == [] {
      assert a + b == b;
    } else {
      var m, rest := RawMark(a[0]), a[1..];
      RawsConcat(rest, b);
      assert (a + b)[1..] == rest + b;
      assert Raws(a + b) == m + Raws(rest + b) && Raws(a) == m + Raws(rest);
      Regroup(m, Raws(rest), Raws(b));
    }
  }

  lemma Regroup(a: seq<nat>, b: seq<nat>, c: seq<nat>)
    ensures a + (b + c) == (a + b) + c
  {
  }

  lemma PushSums(chunks: seq<Chunk>, c: Chunk)
    ensures TotalSize(chunks + [c]) == TotalSize(chunks) + c.Size()
    ensures Raws(chunks + [c]) == Raws(chunks) + RawMark(c)
  {
    TotalSizeConcat(chunks, [c]);
    RawsConcat(chunks, [c]);
  }

  /** Compressing chunk i: what it is charged changes, nothing else. */
  lemma ReplaceChunk(chunks: seq<Chunk>, i: nat, c: Chunk)
    requires i < |chunks|
    ensures TotalSize(chunks[i := c]) == TotalSize(chunks) - chunks[i].Size() + c.Size()
    ensures Raws(chunks[i := c]) == Raws(chunks[..i]) + RawMark(c) + Raws(chunks[i + 1..])
  {
    var init, rest := chunks[..i], chunks[i + 1..];
    assert chunks == init + ([chunks[i]] + rest);
    assert chunks[i := c] == init + ([c] + rest);
    TotalSizeConcat(init, [chunks[i]] + rest);
    TotalSizeConcat(init, [c] + rest);
    RawsConcat(init, [c] + rest);
    assert ([chunks[i]] + rest)[1..] == rest && ([c] + rest)[1..] == rest;
  }

  lemma TiledDrop(chunks: seq<Chunk>, firstAvail: nat, activeFirst: nat)
    requires Tiled(chunks, firstAvail, activeFirst) && chunks != []
    ensures Tiled(chunks[1..], firstAvail + chunks[0].lines, activeFirst)
  {
    var rest := chunks[1..];
    assert Adjacent(chunks, activeFirst, 0);
    forall i | 0 <= i < |rest| ensures Adjacent(rest, activeFirst, i) {
      assert Adjacent(chunks, activeFirst, i + 1);
    }
  }

  lemma TiledPush(chunks: seq<Chunk>, firstAvail: nat, activeFirst: nat, c: Chunk)
    requires Tiled(chunks, firstAvail, activeFirst) && c.firstLine == activeFirst
    ensures Tiled(chunks + [c], firstAvail, activeFirst + c.lines)
  {
    var all, end := chunks + [c], activeFirst + c.lines;
    forall i | 0 <= i < |all| ensures Adjacent(all, end, i) {
      assert i < |chunks| ==> Adjacent(chunks, activeFirst, i);
    }
  }

  lemma TiledReplace(chunks: seq<Chunk>, firstAvail: nat, activeFirst: nat, i: nat, c: Chunk)
    requires Tiled(chunks, firstAvail, activeFirst) && i < |chunks|
    requires c.firstLine == chunks[i].firstLine && c.lines == chunks[i].lines
    ensures Tiled(chunks[i := c], firstAvail, activeFirst)
  {
    var all := chunks[i := c];
    forall j | 0 <= j < |all| ensures Adjacent(all, activeFirst, j) {
      assert Adjacent(chunks, activeFirst, j);
    }
  }

  /** Chunks lie in increasing line order. */
  ghost predicate Ascending(chunks: seq<Chunk>) {
    forall i, j :: 0 <= i < j < |chunks| ==> chunks[i].firstLine < chunks[j].firstLine
  }

  lemma TiledAscends(chunks: seq<Chunk>, firstAvail: nat, activeFirst: nat)
    requires Tiled(chunks, firstAvail, activeFirst)
    requires forall k :: 0 <= k < |chunks| ==> chunks[k].lines > 0
    ensures Ascending(chunks)
  {
    forall i, j | 0 <= i < j < |chunks| ensures chunks[i].firstLine < chunks[j].firstLine {
      TiledAscendsAt(chunks, firstAvail, activeFirst, i, j);
    }
  }

  lemma {:induction false} TiledAscendsAt(chunks: seq<Chunk>, firstAvail: nat, activeFirst: nat, i: nat, j: nat)
    requires Tiled(chunks, firstAvail, activeFirst) && i < j < |chunks|
    requires forall k :: 0 <= k < |chunks| ==> chunks[k].lines > 0
    ensures chunks[i].firstLine < chunks[j].firstLine
    decreases j - i
  {
    assert Adjacent(chunks, activeFirst, j - 1);
    if i < j - 1 {
      TiledAscendsAt(chunks, firstAvail, activeFirst, i, j - 1);
    }
  }

  lemma ContentAfterDrop(chunks: seq<Chunk>, codec: Codec, k: nat, b: Bytes)
    requires ContentIs(chunks, codec, k, b) && chunks[0].firstLine != k
    ensures ContentIs(chunks[1..], codec, k, b)
  {
    var i :| 0 <= i < |chunks| && chunks[i].Sound(codec) && chunks[i].firstLine == k
      && b == chunks[i].View().Content(codec);
    assert chunks[1..][i - 1] == chunks[i];
  }

  lemma ContentAfterReplace(chunks: seq<Chunk>, codec: Codec, i: nat, c: Chunk, k: nat, b: Bytes)
    requires ContentIs(chunks, codec, k, b) && i < |chunks| && chunks[i].Sound(codec) && c.Sound(codec)
    requires c.firstLine == chunks[i].firstLine && c.View().Content(codec) == chunks[i].View().Content(codec)
    ensures ContentIs(chunks[i := c], codec, k, b)
  {
    var j :| 0 <= j < |chunks| && chunks[j].Sound(codec) && chunks[j].firstLine == k
      && b == chunks[j].View().Content(codec);
    assert chunks[i := c][j] == if j == i then c else chunks[j];
  }

  lemma ContentAfterPush(chunks: seq<Chunk>, codec: Codec, c: Chunk, k: nat, b: Bytes)
    requires ContentIs(chunks, codec, k, b)
    ensures ContentIs(chunks + [c], codec, k, b)
  {
    var j :| 0 <= j < |chunks| && chunks[j].Sound(codec) && chunks[j].firstLine == k
      && b == chunks[j].View().Content(codec);
    assert (chunks + [c])[j] == chunks[j];
  }

  /** The number of lines in the active bytes, from the newline index alone. */
  lemma ActiveLineCount(active: Bytes, ends: seq<nat>, activeFirst: nat, log: FlatLog)
    requires ActiveHolds(active, ends, activeFirst, log)
    ensures ends != [] ==> ends[|ends| - 1] + 1 <= |active|
    ensures var tailStart := if ends == [] then 0 else ends[|ends| - 1] + 1;
            |log.Texts()| == activeFirst + |ends| + if |active| > tailStart then 1 else 0
  {
    EndsCut(active);
    if ends == [] {
      NoNLSplit(active);
    }
  }

  /** The head of the queue names the oldest raw chunk, and only that one. */
  lemma {:induction false} OldestRaw(chunks: seq<Chunk>) returns (i: nat)
    requires Raws(chunks) != []
    ensures i < |chunks| && chunks[i].comp.None? && chunks[i].firstLine == Raws(chunks)[0]
    ensures Raws(chunks[..i]) + Raws(chunks[i + 1..]) == Raws(chunks)[1..]
    decreases |chunks|
  {
    if chunks[0].comp.None? {
      i := 0;
    } else {
      var rest := chunks[1..];
      i := OldestRaw(rest);
      assert rest[i + 1..] == chunks[i + 2..];
      var init := chunks[..i + 1];
      assert init[0] == chunks[0] && init[1..] == rest[..i];
      i := i + 1;
    }
  }

  lemma ChunksHoldLonger(chunks: seq<Chunk>, codec: Codec, texts: seq<Bytes>, more: seq<Bytes>)
    requires ChunksHold(chunks, codec, texts) && texts <= more
    ensures ChunksHold(chunks, codec, more)
  {
    forall i | 0 <= i < |chunks| ensures chunks[i].Holds(codec, more) {
      var c := chunks[i];
      assert c.Holds(codec, texts);
      assert more[c.firstLine..c.firstLine + c.lines] == texts[c.firstLine..c.firstLine + c.lines];
    }
  }

  /** The bytes before `cut` are whole lines of the log and those after it are its unterminated rest. */
  ghost predicate CleanCut(active: Bytes, cut: nat, lines: nat, activeFirst: nat, log: FlatLog) {
    && 0 < cut <= |active| && 0 < lines
    && activeFirst + lines == |log.done|
    && AllLines(active[..cut]) == DoneTexts(log.done)[activeFirst..]
    && ActiveHolds(active[cut..], [], activeFirst + lines, log)
  }

  lemma {:induction false} LastEndIsNL(b: Bytes)
    requires Ends(b, 0) != []
    ensures var e := Ends(b, 0)[|Ends(b, 0)| - 1]; e < |b| && b[e] == NL
  {
    if b[|b| - 1] != NL {
      LastEndIsNL(b[..|b| - 1]);
    }
  }

  lemma CutAtLastNewline(active: Bytes, ends: seq<nat>, activeFirst: nat, log: FlatLog, full: nat)
    requires ActiveHolds(active, ends, activeFirst, log) && ends != [] && |active| >= full
    ensures CleanCut(active, ends[|ends| - 1] + 1, |ends|, activeFirst, log)
    ensures CutHere(active, ends[|ends| - 1] + 1, full)
  {
    hide Ends, Complete, Tail;
    EndsCut(active);
    LastEndIsNL(active);
    TailHasNoNL(active);
    NoNLSplit(Tail(active));
    assert |DoneTexts(log.done)| == |log.done|;
  }

  lemma CutForced(active: Bytes, activeFirst: nat, log: FlatLog, full: nat)
    requires ActiveHolds(active, [], activeFirst, log) && |active| >= FORCED_LINE_SPLIT && |active| >= full
    ensures CutHere(active, |active|, full)
    ensures active == log.partial && NoNL(active)
    ensures CleanCut(active, |active|, 1, activeFirst, FlatLog(log.done + [Line(active, true)], []))
  {
    EndsCut(active);
    NoNLSplit(active);
    NoNLSplit([]);
    assert active[..|active|] == active;
    assert DoneTexts(log.done + [Line(active, true)]) == DoneTexts(log.done) + [active];
  }

  /** Indexing the newlines of p extends the invariant of the active bytes. */
  lemma ExtendHolds(active: Bytes, p: Bytes, ends: seq<nat>, activeFirst: nat, log: FlatLog)
    requires ActiveHolds(active, ends, activeFirst, log)
    ensures ActiveHolds(active + p, Ends(active + p, 0), activeFirst, Extend(log, p))
    ensures DoneTexts(log.done) <= DoneTexts(Extend(log, p).done)
  {
    hide Complete, Tail, Ends;
    CompleteConcat(active, p);
    var more := Complete(log.partial + p);
    assert DoneTexts(Extend(log, p).done) == DoneTexts(log.done) + more;
  }

  lemma ActiveEnds(active: Bytes, ends: seq<nat>, activeFirst: nat, log: FlatLog)
    requires ActiveHolds(active, ends, activeFirst, log)
    ensures ends == Ends(active, 0)
  {
  }

  lemma NextNewline(b: Bytes, j: nat, off: nat)
    requires j < |b| && b[j] == NL && NoNL(b[..j])
    ensures Ends(b, off) == [off + j] + Ends(b[j + 1..], off + j + 1)
  {
    hide Complete, Tail;
    var head := b[..j + 1];
    assert head[..j] == b[..j] && b == head + b[j + 1..];
    NoNLSplit(b[..j]);
    EndsConcat(head, b[j + 1..], off);
  }

  /** The retained lines end with those of the active bytes. */
  lemma ActiveLinesAre(active: Bytes, ends: seq<nat>, activeFirst: nat, log: FlatLog)
    requires ActiveHolds(active, ends, activeFirst, log)
    ensures log.Texts()[activeFirst..] == AllLines(active)
    ensures DoneTexts(log.done) <= log.Texts()
  {
    hide Complete, Tail, Ends;
  }

  function Views(chunks: seq<Chunk>): (vs: seq<ChunkView>)
    ensures |vs| == |chunks|
  {
    seq(|chunks|, i requires 0 <= i < |chunks| => chunks[i].View())
  }

  /** The lines of all chunks are the lines of the log they tile. */
  lemma {:induction false} ChunkLinesAre(chunks: seq<Chunk>, firstAvail: nat, activeFirst: nat, codec: Codec, texts: seq<Bytes>)
    requires Tiled(chunks, firstAvail, activeFirst) && ChunksHold(chunks, codec, texts) && activeFirst <= |texts|
    ensures AllReadable(Views(chunks), codec) && firstAvail <= activeFirst
    ensures ChunkLines(Views(chunks), codec) == texts[firstAvail..activeFirst]
    decreases |chunks|
  {
    hide AllLines;
    forall k | 0 <= k < |chunks| ensures Views(chunks)[k].Readable(codec) {
      assert chunks[k].Sound(codec);
    }
    if chunks != [] {
      var c, rest := chunks[0], chunks[1..];
      assert c.Sound(codec) && c.Holds(codec, texts);
      TiledDrop(chunks, firstAvail, activeFirst);
      ChunkLinesAre(rest, firstAvail + c.lines, activeFirst, codec, texts);
      assert Views(chunks)[1..] == Views(rest);
      assert texts[firstAvail..activeFirst]
          == texts[firstAvail..firstAvail + c.lines] + texts[firstAvail + c.lines..activeFirst];
    }
  }

  /** Compressing a raw chunk announces exactly its lines. */
  lemma Announced(chunks: seq<Chunk>, i: nat, codec: Codec, texts: seq<Bytes>)
    requires codec.Lossless() && ChunksHold(chunks, codec, texts) && i < |chunks| && chunks[i].raw.Some?
    ensures var c := chunks[i];
            Announces(SealEvent(codec.enc(c.raw.value), c.firstLine, c.firstLine + c.lines - 1), codec, texts)
  {
    hide AllLines;
    assert chunks[i].Sound(codec) && chunks[i].Holds(codec, texts);
  }

  /** A forced split changes no line. */
  lemma ForcedTexts(log: FlatLog, next: FlatLog)
    requires next == log || (log.partial != [] && next == FlatLog(log.done + [Line(log.partial, true)], []))
    ensures next.Texts() == log.Texts() && DoneTexts(log.done) <= DoneTexts(next.done)
  {
    assert next != log ==> DoneTexts(next.done) == DoneTexts(log.done) + [log.partial];
  }

  lemma StillAnnounced(events: seq<SealEvent>, codec: Codec, log: FlatLog, next: FlatLog)
    requires DoneTexts(log.done) <= DoneTexts(next.done)
    requires forall e :: e in events ==> Announces(e, codec, DoneTexts(log.done))
    ensures forall e :: e in events ==> Announces(e, codec, DoneTexts(next.done))
  {
    hide AllLines;
    var a, b := DoneTexts(log.done), DoneTexts(next.done);
    forall e | e in events ensures Announces(e, codec, b) {
      assert b[e.firstLine..e.lastLine + 1] == a[e.firstLine..e.lastLine + 1];
    }
  }

  // ------------------------------------------------------------- room for all lines

  lemma {:induction false} MassConcat(a: seq<Bytes>, b: seq<Bytes>, w: nat)
    ensures Mass(a + b, w) == Mass(a, w) + Mass(b, w)
  {
    if a == [] {
      assert a + b == b;
    } else {
      MassConcat(a[1..], b, w);
      assert (a + b)[1..] == a[1..] + b;
    }
  }

  lemma {:induction false} MassMore(lines: seq<Bytes>, w: nat, k: nat)
    requires lines != []
    ensures Mass(lines, w) + k <= Mass(lines, w + k)
  {
    if |lines| > 1 {
      MassMore(lines[1..], w, k);
    }
  }

  /** Bytes weigh no more than their lines with their newlines. */
  lemma {:induction false} MassOfBytes(b: Bytes)
    ensures |b| <= Mass(AllLines(b), 1)
    ensures |b| == Mass(Complete(b), 1) + |Tail(b)|
  {
    if b != [] {
      var init := b[..|b| - 1];
      MassOfBytes(init);
      if b[|b| - 1] == NL {
        MassConcat(Complete(init), [Tail(init)], 1);
      }
    }
    MassConcat(Complete(b), Trailing(Tail(b)), 1);
  }

  /** A chunk, raw or compressed, weighs no more than its lines. */
  lemma ChunkMass(c: Chunk, codec: Codec, texts: seq<Bytes>, k: nat)
    requires Overhead(codec, k) && c.Sound(codec) && c.Holds(codec, texts)
    ensures c.Size() <= Mass(texts[c.firstLine..c.firstLine + c.lines], k + 1)
  {
    hide AllLines, Mass;
    var b := c.View().Content(codec);
    MassOfBytes(b);
    MassMore(AllLines(b), 1, k);
  }

  lemma {:induction false} ChunksMass(chunks: seq<Chunk>, firstAvail: nat, activeFirst: nat, codec: Codec, texts: seq<Bytes>, k: nat)
    requires Tiled(chunks, firstAvail, activeFirst) && ChunksHold(chunks, codec, texts) && activeFirst <= |texts|
    requires Overhead(codec, k)
    ensures firstAvail <= activeFirst && TotalSize(chunks) <= Mass(texts[firstAvail..activeFirst], k + 1)
    decreases |chunks|
  {
    hide AllLines, Mass, Chunk.Size, Overhead;
    if chunks != [] {
      var c, rest := chunks[0], chunks[1..];
      assert c.Sound(codec) && c.Holds(codec, texts);
      TiledDrop(chunks, firstAvail, activeFirst);
      ChunksMass(rest, firstAvail + c.lines, activeFirst, codec, texts, k);
      ChunkMass(c, codec, texts, k);
      MassConcat(texts[firstAvail..firstAvail + c.lines], texts[firstAvail + c.lines..activeFirst], k + 1);
      assert texts[firstAvail..activeFirst]
          == texts[firstAvail..firstAvail + c.lines] + texts[firstAvail + c.lines..activeFirst];
    }
  }

  /** With room for all lines no cap is exceeded. */
  lemma WithinCaps(chunks: seq<Chunk>, firstAvail: nat, active: Bytes, ends: seq<nat>, activeFirst: nat, codec: Codec,
                   log: FlatLog, maxBytes: int, maxLines: int)
    requires Tiled(chunks, firstAvail, activeFirst) && ChunksHold(chunks, codec, DoneTexts(log.done))
    requires ActiveHolds(active, ends, activeFirst, log)
    requires RoomFor(log.Texts(), firstAvail, codec, maxBytes, maxLines)
    ensures !OverCaps(chunks, 0, activeFirst, |active|, |log.Texts()|, maxBytes, maxLines)
  {
    hide AllLines, Mass, Overhead, ActiveHolds, FlatLog.Texts, TotalSize;
    var texts := log.Texts();
    var k: nat :| Overhead(codec, k) && Mass(texts[firstAvail..], k + 1) <= maxBytes;
    ActiveLinesAre(active, ends, activeFirst, log);
    ActiveFirstIn(active, ends, activeFirst, log);
    ChunksHoldLonger(chunks, codec, DoneTexts(log.done), texts);
    ChunksMass(chunks, firstAvail, activeFirst, codec, texts, k);
    MassOfBytes(active);
    MassOver(AllLines(active), 1, k);
    MassConcat(texts[firstAvail..activeFirst], texts[activeFirst..], k + 1);
    assert texts[firstAvail..] == texts[firstAvail..activeFirst] + texts[activeFirst..];
    assert chunks[0..] == chunks;
  }

  lemma ActiveFirstIn(active: Bytes, ends: seq<nat>, activeFirst: nat, log: FlatLog)
    requires ActiveHolds(active, ends, activeFirst, log)
    ensures activeFirst <= |log.done| <= |log.Texts()|
  {
  }

  lemma {:induction false} MassOver(lines: seq<Bytes>, w: nat, k: nat)
    ensures Mass(lines, w) <= Mass(lines, w + k)
  {
    if lines != [] {
      MassOver(lines[1..], w, k);
    }
  }

  lemma {:induction false} AllLinesGrow(a: Bytes, b: Bytes, w: nat)
    ensures Mass(AllLines(a), w) <= Mass(AllLines(a + b), w) && |AllLines(a)| <= |AllLines(a + b)|
    decreases |b|
  {
    hide Complete, Tail, Mass;
    if b == [] {
      assert a + b == a;
    } else {
      var init, x := a + b[..|b| - 1], b[|b| - 1];
      AllLinesGrow(a, b[..|b| - 1], w);
      assert a + b == init + [x];
      OneByte(init, x);
      OneByteMass(Complete(init), Tail(init), x, w);
    }
  }

  lemma OneByteMass(lines: seq<Bytes>, t: Bytes, x: Byte, w: nat)
    ensures Mass(lines + Trailing(t), w) <= Mass((lines + [t]) + Trailing([]), w)
    ensures Mass(lines + Trailing(t), w) <= Mass(lines + Trailing(t + [x]), w)
  {
    MassConcat(lines, Trailing(t), w);
    MassConcat(lines, [t], w);
    MassConcat(lines, [t + [x]], w);
    assert (lines + [t]) + Trailing([]) == lines + [t];
  }

  /** Appending makes the lines neither fewer nor lighter. */
  lemma AppendMass(log: FlatLog, p: Bytes, limit: nat, w: nat)
    requires NoNL(log.partial) && limit > 0
    ensures var r := FlatLogs.Append(log, p, limit);
            Mass(log.Texts(), w) <= Mass(r.Texts(), w) && |log.Texts()| <= |r.Texts()|
  {
    hide Complete, Tail, Mass;
    var e := Extend(log, p);
    NoNLSplit(log.partial);
    AllLinesGrow(log.partial, p, w);
    assert AllLines(log.partial) == Trailing(log.partial);
    assert e.Texts() == DoneTexts(log.done) + AllLines(log.partial + p) by {
      assert DoneTexts(e.done) == DoneTexts(log.done) + Complete(log.partial + p);
    }
    MassConcat(DoneTexts(log.done), Trailing(log.partial), w);
    MassConcat(DoneTexts(log.done), AllLines(log.partial + p), w);
    ForcedTexts(e, FlatLogs.Append(log, p, limit));
  }

  /** x brought into [lo, hi]. */
  function Clip(lo: int, x: int, hi: int): int {
    if x < lo then lo else if x > hi then hi else x
  }

  /** Appends those of the lines first, first + 1, ... that lie in [from, to). */
  method CopyRange(sofar: seq<Bytes>, lines: seq<Bytes>, first: nat, from: nat, to: nat, ghost texts: seq<Bytes>)
    returns (out: seq<Bytes>)
    requires from <= to <= |texts| && first + |lines| <= |texts|
    requires lines == texts[first..first + |lines|]
    requires sofar == texts[from..Clip(from, first, to)]
    ensures out == texts[from..Clip(from, first + |lines|, to)]
  {
    out := sofar;
    var i := 0;
    while i < |lines|
      invariant 0 <= i <= |lines|
      invariant out == texts[from..Clip(from, first + i, to)]
    {
      var g := first + i;
      if g >= from && g < to {
        out := out + [lines[i]];
      }
      i := i + 1;
    }
  }

  // ------------------------------------------------------------------- the ring

  class Ring {
    const chunkSize: nat
    const maxLines: int
    const codec: Codec
    const compile: string -> Option<Regexp>
    var maxBytes: int
    var sealed: seq<Chunk>
    var active: Bytes
    var activeEnds: seq<nat>
    var firstAvail: nat
    var activeFirst: nat
    var totalBytes: int
    var closed: bool
    var cacheKeys: seq<nat>
    var cache: map<nat, Bytes>
    var sealCh: seq<nat>              // the channel to the compressor
    var compressing: Option<nat>      // taken from the channel, not committed yet

    ghost var log: FlatLog

    constructor (cfg: Config, codec: Codec, compile: string -> Option<Regexp>)
      requires codec.Lossless()
      ensures Valid() && log == EMPTY && firstAvail == 0 && totalBytes == 0 && !closed
      ensures this.codec == codec && this.compile == compile
      ensures chunkSize == (if cfg.chunkSize <= 0 then 0x10_0000 else cfg.chunkSize)
      ensures maxLines == (if cfg.maxLines <= 0 then 5_000_000 else cfg.maxLines)
      ensures maxBytes == (if cfg.maxBytes <= 0 then 0x2000_0000 else cfg.maxBytes)
    {
      chunkSize := if cfg.chunkSize <= 0 then 0x10_0000 else cfg.chunkSize;
      maxLines := if cfg.maxLines <= 0 then 5_000_000 else cfg.maxLines;
      maxBytes := if cfg.maxBytes <= 0 then 0x2000_0000 else cfg.maxBytes;
      this.codec, this.compile := codec, compile;
      sealed, active, activeEnds, firstAvail, activeFirst, totalBytes := [], [], [], 0, 0, 0;
      closed, cacheKeys, cache, sealCh, compressing := false, [], map[], [], None;
      log := EMPTY;
    }

    /** The length at which an unterminated line is split. */
    ghost function Limit(): nat {
      if chunkSize > FORCED_LINE_SPLIT then chunkSize else FORCED_LINE_SPLIT
    }

    /** Chunks waiting for compression, in the order they will be compressed. */
    ghost function Queue(): seq<nat>
      reads `compressing, `sealCh
    {
      (if compressing.Some? then [compressing.value] else []) + sealCh
    }

    /** The sealed chunks and the active bytes together are the retained part of the log. */
    ghost predicate Represents()
      reads `sealed, `active, `activeEnds, `firstAvail, `activeFirst, `totalBytes, `log
    {
      && codec.Lossless() && chunkSize > 0
      && Tiled(sealed, firstAvail, activeFirst)
      && ChunksHold(sealed, codec, DoneTexts(log.done))
      && ActiveHolds(active, activeEnds, activeFirst, log)
      && totalBytes == |active| + TotalSize(sealed)
    }

    /** Exactly the raw chunks wait for compression, oldest first. */
    ghost predicate Queued()
      reads `compressing, `sealCh, `sealed
    {
      |sealCh| <= QUEUE_CAP && Queue() == Raws(sealed)
    }

    /** At most four entries, each the true content of a chunk still in the ring. */
    ghost predicate Cached()
      reads `cacheKeys, `cache, `sealed
    {
      && |cacheKeys| <= CACHE_CAP
      && forall k :: k in cache ==> k in cacheKeys && ContentIs(sealed, codec, k, cache[k])
    }

    ghost predicate Consistent()
      reads this
    {
      Represents() && Queued() && Cached()
    }

    /** Less than a chunk is active, or one unterminated line below the forced limit. */
    ghost predicate Settled()
      reads `active
    {
      |active| < chunkSize || (NoNL(active) && |active| < FORCED_LINE_SPLIT)
    }

    ghost predicate Valid()
      reads this
    {
      Consistent() && Settled()
    }

    /** What Lines and Grep may still see. */
    ghost function Retained(): seq<Bytes>
      reads this
      requires firstAvail <= |log.Texts()|
    {
      log.Texts()[firstAvail..]
    }

    /** Both caps hold, or nothing may be evicted: no chunk, or the oldest is still raw. */
    ghost predicate CapsRespected()
      reads this
    {
      || (totalBytes <= maxBytes && |log.Texts()| - firstAvail <= maxLines)
      || sealed == []
      || sealed[0].comp.None?
    }

    method ActiveLines() returns (n: nat)
      requires ActiveHolds(active, activeEnds, activeFirst, log)
      ensures activeFirst + n == |log.Texts()|
    {
      ActiveLineCount(active, activeEnds, activeFirst, log);
      n := |activeEnds|;
      var tailStart := 0;
      if n > 0 {
        tailStart := activeEnds[n - 1] + 1;
      }
      if |active| > tailStart {
        n := n + 1;
      }
    }

    /** The lines from `first` on fit both caps whatever is compressed. */
    ghost predicate Roomy(first: nat)
      reads `log, `maxBytes
    {
      RoomFor(log.Texts(), first, codec, maxBytes, maxLines)
    }

    lemma NoneDropped()
      requires Represents()
      ensures Roomy(firstAvail) ==> !OverCaps(sealed, 0, activeFirst, |active|, |log.Texts()|, maxBytes, maxLines)
    {
      hide ActiveHolds, Tiled, ChunksHold, RoomFor, OverCaps;
      if Roomy(firstAvail) {
        WithinCaps(sealed, firstAvail, active, activeEnds, activeFirst, codec, log, maxBytes, maxLines);
      }
    }

    ghost function Stocked(): Stock
      reads `sealed, `sealCh, `active, `activeFirst
    {
      Stock(sealed, sealCh, active, activeFirst)
    }

    /** What is sealed now is what eviction leaves of `all`. */
    ghost predicate KeptOf(all: seq<Chunk>)
      reads `sealed, `active, `activeFirst, `log, `maxBytes
    {
      EvictionLeaves(all, sealed, activeFirst, |active|, |log.Texts()|, maxBytes, maxLines)
    }

    /** Drops oldest compressed chunks while over either cap, and no more than that. */
    method Evict()
      requires Consistent()
      modifies `sealed, `totalBytes, `firstAvail, `cache
      ensures Consistent() && CapsRespected()
      ensures KeptOf(old(sealed)) && firstAvail >= old(firstAvail)
      ensures Roomy(old(firstAvail)) ==> firstAvail == old(firstAvail)
      ensures sealed == old(sealed) ==> firstAvail == old(firstAvail)
    {
      hide Chunk.Sound, Chunk.Holds, Complete, Tail, Ends, TotalSize, FlatLog.Texts, Raws, RoomFor;
      NoneDropped();
      ghost var dropped := 0;
      var n := ActiveLines();
      var retained := activeFirst - firstAvail + n;
      while |sealed| > 0
        invariant Consistent()
        invariant retained == |log.Texts()| - firstAvail
        invariant dropped <= |old(sealed)| && sealed == old(sealed)[dropped..] && firstAvail >= old(firstAvail)
        invariant dropped == 0 ==> firstAvail == old(firstAvail)
        invariant forall i :: 0 <= i < dropped ==>
                    old(sealed)[i].comp.Some?
                    && OverCaps(old(sealed), i, activeFirst, |active|, |log.Texts()|, maxBytes, maxLines)
      {
        var head := sealed[0];
        assert StartOf(old(sealed), activeFirst, dropped) == firstAvail;
        if head.comp.None? {
          return;
        }
        if totalBytes <= maxBytes && retained <= maxLines {
          return;
        }
        DropHead();
        retained := retained - head.lines;
        dropped := dropped + 1;
      }
    }

    method DropHead()
      requires Consistent() && |sealed| > 0 && sealed[0].comp.Some?
      modifies `sealed, `totalBytes, `firstAvail, `cache
      ensures Consistent()
      ensures sealed == old(sealed)[1..] && firstAvail == old(firstAvail) + old(sealed)[0].lines
    {
      hide Chunk.Sound, Chunk.Holds, ActiveHolds, Tiled, ContentIs;
      var head := sealed[0];
      TiledDrop(sealed, firstAvail, activeFirst);
      totalBytes := totalBytes - |head.comp.value|;
      firstAvail := firstAvail + head.lines;
      cache := cache - {head.firstLine};
      sealed := sealed[1..];
      forall k | k in cache ensures ContentIs(sealed, codec, k, cache[k]) {
        ContentAfterDrop(old(sealed), codec, k, cache[k]);
      }
    }

    /** Changes the byte cap at runtime and evicts at once if over. */
    method SetMaxBytes(n: int)
      requires Valid()
      modifies `maxBytes, `sealed, `totalBytes, `firstAvail, `cache
      ensures Valid() && maxBytes == (if n <= 0 then old(maxBytes) else n)
      ensures if n <= 0 then sealed == old(sealed) else KeptOf(old(sealed)) && CapsRespected()
      ensures firstAvail >= old(firstAvail) && (sealed == old(sealed) ==> firstAvail == old(firstAvail))
    {
      if n <= 0 {
        return;
      }
      maxBytes := n;
      Evict();
    }

    /** Compresses one chunk that has left the queue, re-accounts it and evicts. */
    method CompressLocked(i: nat) returns (event: SealEvent)
      requires Represents() && Cached() && i < |sealed| && sealed[i].raw.Some?
      requires |sealCh| <= QUEUE_CAP && Queue() == Raws(sealed[..i]) + Raws(sealed[i + 1..])
      modifies `sealed, `totalBytes, `firstAvail, `cache
      ensures Consistent() && CapsRespected() && firstAvail >= old(firstAvail)
      ensures Roomy(old(firstAvail)) ==> firstAvail == old(firstAvail)
      ensures var c := old(sealed)[i];
              && event == SealEvent(codec.enc(c.raw.value), c.firstLine, c.firstLine + c.lines - 1)
              && KeptOf(old(sealed)[i := Compressed(c, codec)])
    {
      hide Represents, Cached, ContentIs, Tiled, ChunksHold, ActiveHolds, TotalSize, Raws, FlatLog.Texts, Roomy;
      var s := sealed[i];
      var comp := codec.enc(s.raw.value);
      StoreCompressed(i, comp);
      Evict();
      event := SealEvent(comp, s.firstLine, s.firstLine + s.lines - 1);
    }

    /** Replaces the raw bytes of chunk i by their compressed form. */
    method StoreCompressed(i: nat, comp: Bytes)
      requires Represents() && Cached() && i < |sealed| && sealed[i].raw.Some?
      requires comp == codec.enc(sealed[i].raw.value)
      requires |sealCh| <= QUEUE_CAP && Queue() == Raws(sealed[..i]) + Raws(sealed[i + 1..])
      modifies `sealed, `totalBytes
      ensures Consistent() && sealed == old(sealed)[i := Compressed(old(sealed)[i], codec)]
      ensures sealed[i].lines > 0
    {
      hide ActiveHolds, Tiled, ContentIs, TotalSize, Raws;
      var s := sealed[i];
      assert s.Sound(codec) && s.Holds(codec, DoneTexts(log.done));
      var c := s.(raw := None, comp := Some(comp));
      ReplaceChunk(sealed, i, c);
      TiledReplace(sealed, firstAvail, activeFirst, i, c);
      forall k | k in cache ensures ContentIs(sealed[i := c], codec, k, cache[k]) {
        ContentAfterReplace(sealed, codec, i, c, k, cache[k]);
      }
      sealed := sealed[i := c];
      totalBytes := totalBytes + |comp| - s.rawLen;
    }

    /** Background compressor, first half: takes the next chunk off the channel. */
    method CompressorTake()
      requires Valid() && compressing.None? && |sealCh| > 0
      modifies `sealCh, `compressing
      ensures Valid() && compressing == Some(old(sealCh)[0]) && sealCh == old(sealCh)[1..]
    {
      hide Represents, Cached, Settled;
      compressing := Some(sealCh[0]);
      sealCh := sealCh[1..];
    }


    /** Background compressor, second half: commits the compressed bytes under the lock. */
    method CompressorCommit() returns (event: SealEvent)
      requires Valid() && compressing.Some?
      modifies `compressing, `sealed, `totalBytes, `firstAvail, `cache
      ensures Valid() && CapsRespected() && compressing.None?
      ensures CommitsFrom(old(sealed), old(compressing).value, event)
      ensures Announces(event, codec, DoneTexts(log.done))
      ensures firstAvail >= old(firstAvail) && (Roomy(old(firstAvail)) ==> firstAvail == old(firstAvail))
    {
      hide Represents, Cached, Raws, Roomy, Announces;
      var i := TakenChunk();
      Announced(sealed, i, codec, DoneTexts(log.done)) by { AllHold(); }
      compressing := None;
      event := CompressLocked(i);
      assert KeptOf(old(sealed)[i := Compressed(old(sealed)[i], codec)]);
    }

    /** One raw chunk of `was`, the one that begins at `first`, was compressed and announced, and the rest evicted. */
    ghost predicate CommitsFrom(was: seq<Chunk>, first: nat, event: SealEvent)
      reads `sealed, `active, `activeFirst, `log, `maxBytes
    {
      exists i :: 0 <= i < |was| && was[i].raw.Some? && was[i].firstLine == first
        && event.chunk == codec.enc(was[i].raw.value) && event.firstLine == first
        && event.lastLine == first + was[i].lines - 1
        && KeptOf(was[i := Compressed(was[i], codec)])
    }

    lemma AllHold()
      requires Represents()
      ensures codec.Lossless() && ChunksHold(sealed, codec, DoneTexts(log.done))
    {
    }

    /** The chunk the compressor works on: the oldest raw one, and still in the ring. */
    method TakenChunk() returns (i: nat)
      requires Valid() && compressing.Some?
      ensures i < |sealed| && sealed[i].raw.Some? && sealed[i].firstLine == compressing.value
      ensures Raws(sealed[..i]) + Raws(sealed[i + 1..]) == sealCh
    {
      hide Represents, Queued, Cached, Raws;
      ghost var j := OldestInQueue();
      Ascends();
      i :| i < |sealed| && sealed[i].firstLine == compressing.value;
      assert i == j;
    }

    lemma OldestInQueue() returns (i: nat)
      requires Consistent() && compressing.Some?
      ensures i < |sealed| && sealed[i].raw.Some? && sealed[i].firstLine == compressing.value
      ensures Raws(sealed[..i]) + Raws(sealed[i + 1..]) == sealCh
    {
      hide Tiled, ActiveHolds, TotalSize, Cached, Raws;
      assert Raws(sealed) == [compressing.value] + sealCh;
      i := OldestRaw(sealed);
      assert sealed[i].Sound(codec);
    }

    /** Appends bytes: the flat log grows by them, and full chunks are cut off. */
    method Append(p: Bytes) returns (events: seq<SealEvent>)
      requires Valid()
      modifies `sealed, `active, `activeEnds, `activeFirst, `firstAvail, `totalBytes, `cache, `sealCh, `log
      ensures Valid()
      ensures log == if old(closed) then old(log) else FlatLogs.Append(old(log), p, Limit())
      ensures if old(closed) then Stocked() == old(Stocked())
              else CutsTo(old(Stocked()).(active := old(active) + p), Stocked(), chunkSize, codec, |log.Texts()|, maxBytes, maxLines)
      ensures |old(sealCh)| + 2 <= QUEUE_CAP ==> events == [] && firstAvail == old(firstAvail)
      ensures forall e :: e in events ==> Announces(e, codec, DoneTexts(log.done))
      ensures firstAvail >= old(firstAvail) && (Roomy(old(firstAvail)) ==> firstAvail == old(firstAvail))
    {
      hide Represents, Queued, Cached, Settled, Extend, Force, Limit, Announces, Roomy, Cutting;
      events := [];
      if |p| == 0 {
        assert p == [];
        AppendNothing();
        NoCut(Stocked());
        return;
      }
      if closed {
        return;
      }
      IndexNewlines(p);
      ghost var stocks;
      events, stocks := MaybeSeal();
    }

    lemma NoCut(a: Stock)
      ensures CutsTo(a.(active := a.active + []), a, chunkSize, codec, |log.Texts()|, maxBytes, maxLines)
    {
      assert a.(active := a.active + []) == a;
      var stocks := [a];
      assert 0 < |stocks| <= 3 && stocks[0] == a.(active := a.active + []) && stocks[|stocks| - 1] == a
        && Cutting(stocks, chunkSize, codec, |log.Texts()|, maxBytes, maxLines);
    }

    /** Appending nothing changes nothing. */
    lemma AppendNothing()
      requires Valid()
      ensures FlatLogs.Append(log, [], Limit()) == log
    {
      hide Tiled, ChunksHold, TotalSize, Cached, Queued, Complete, Tail, Ends, Trailing;
      TailHasNoNL(active);
      NoNLSplit(log.partial);
      assert log.partial + [] == log.partial;
      if NoNL(active) {
        NoNLSplit(active);
      }
    }

    lemma ActivePart()
      requires Consistent()
      ensures chunkSize > 0 && ActiveHolds(active, activeEnds, activeFirst, log)
    {
    }

    /** Copies p behind the active bytes and indexes its newlines. */
    method IndexNewlines(p: Bytes)
      requires Consistent()
      modifies `active, `activeEnds, `totalBytes, `log
      ensures Consistent() && log == Extend(old(log), p) && active == old(active) + p
    {
      hide ChunksHold, ActiveHolds, ContentIs, Tiled, TotalSize, Raws, Complete, Tail, Ends, Extend;
      assert activeEnds == Ends(active, 0) by {
        ActiveEnds(active, activeEnds, activeFirst, log);
      }
      NoNLSplit([]);
      var base := |active|;
      EndsConcat(active, p, 0);
      active := active + p;
      var i := 0;
      while i < |p|
        modifies `activeEnds
        invariant 0 <= i <= |p|
        invariant activeEnds + Ends(p[i..], base + i) == Ends(active, 0)
      {
        var j := IndexNL(p[i..]);
        if j < 0 {
          NoNLSplit(p[i..]);
          break;
        }
        NextNewline(p[i..], j, base + i);
        assert p[i..][j + 1..] == p[i + j + 1..];
        activeEnds := activeEnds + [base + i + j];
        i := i + j + 1;
      }
      assert i >= |p| ==> p[i..] == [];
      totalBytes := totalBytes + |p|;
      log := Extend(log, p);
      ExtendHolds(old(active), p, old(activeEnds), activeFirst, old(log));
      ChunksHoldLonger(sealed, codec, DoneTexts(old(log).done), DoneTexts(log.done));
      assert activeEnds == Ends(active, 0);
    }

    /** Cuts full chunks at the last newline, in at most two cuts. */
    method MaybeSeal() returns (events: seq<SealEvent>, ghost stocks: seq<Stock>)
      requires Consistent()
      modifies `sealed, `active, `activeEnds, `activeFirst, `firstAvail, `totalBytes, `cache, `sealCh, `log
      ensures Valid() && log == Force(old(log), Limit())
      ensures 0 < |stocks| <= 3 && stocks[0] == old(Stocked()) && stocks[|stocks| - 1] == Stocked()
      ensures Cutting(stocks, chunkSize, codec, |log.Texts()|, maxBytes, maxLines)
      ensures var total := |old(sealCh)| + |stocks| - 1;
              && (total <= QUEUE_CAP ==> firstAvail == old(firstAvail))
              && |events| == if total <= QUEUE_CAP then 0 else total - QUEUE_CAP
      ensures forall e :: e in events ==> Announces(e, codec, DoneTexts(log.done))
      ensures firstAvail >= old(firstAvail) && (Roomy(old(firstAvail)) ==> firstAvail == old(firstAvail))
    {
      hide Represents, Queued, Cached, Complete, Tail, Ends, Announces, RoomFor, FlatLog.Texts, Cut, Cutting, CutHere,
           CapsRespected, ActiveHolds;
      QueueBound();
      events, stocks := [], [Stocked()];
      assert Cutting(stocks, chunkSize, codec, |log.Texts()|, maxBytes, maxLines) by { OneStock(stocks); }
      while |active| >= chunkSize
        invariant Consistent()
        invariant log == old(log) || (log == Force(old(log), Limit()) && active == [])
        invariant |stocks| == 1 || (|stocks| == 2 && activeEnds == []) || (|stocks| == 3 && active == [])
        invariant stocks[0] == old(Stocked()) && stocks[|stocks| - 1] == Stocked()
        invariant Cutting(stocks, chunkSize, codec, |log.Texts()|, maxBytes, maxLines)
        invariant var total := |old(sealCh)| + |stocks| - 1;
                  && |sealCh| == (if total <= QUEUE_CAP then total else QUEUE_CAP)
                  && |events| == total - |sealCh|
                  && (total <= QUEUE_CAP ==> firstAvail == old(firstAvail))
        invariant forall e :: e in events ==> Announces(e, codec, DoneTexts(log.done))
        invariant log.Texts() == old(log).Texts() && firstAvail >= old(firstAvail)
        invariant Roomy(old(firstAvail)) ==> firstAvail == old(firstAvail)
        decreases |active|
      {
        ActivePart();
        var cut, lines;
        ghost var next := log;
        var n := |activeEnds|;
        if n > 0 {
          CutAtLastNewline(active, activeEnds, activeFirst, log, chunkSize);
          cut, lines := activeEnds[n - 1] + 1, n;
        } else if |active| >= FORCED_LINE_SPLIT {
          CutForced(active, activeFirst, log, chunkSize);
          cut, lines := |active|, 1;
          next := FlatLog(log.done + [Line(active, true)], []);
        } else {
          NothingToForce();
          return;
        }
        assert 0 < cut <= |active|;
        ForcedTexts(log, next);
        StillAnnounced(events, codec, log, next);
        var notify := SealChunk(cut, lines, next);
        events := events + notify;
        CuttingOn(stocks, Stocked(), chunkSize, codec, |log.Texts()|, maxBytes, maxLines);
        stocks := stocks + [Stocked()];
      }
      NothingToForce();
    }

    /** Less than a chunk, or an unterminated line below the forced length, is not split. */
    lemma NothingToForce()
      requires Consistent()
      requires |active| < chunkSize || (activeEnds == [] && |active| < FORCED_LINE_SPLIT)
      ensures log == Force(log, Limit()) && (activeEnds == [] ==> NoNL(active))
    {
      hide ChunksHold, Tiled, TotalSize, Cached, Queued;
      EndsCut(active);
      TailHasNoNL(active);
      NoNLSplit(Tail(active));
    }

    lemma OneStock(stocks: seq<Stock>)
      requires |stocks| == 1
      ensures Cutting(stocks, chunkSize, codec, |log.Texts()|, maxBytes, maxLines)
    {
    }

    lemma QueueBound()
      requires Consistent()
      ensures |sealCh| <= QUEUE_CAP
    {
    }

    /** Turns the first `cut` active bytes into a sealed chunk; compresses inline only when the compressor is backlogged. */
    method SealChunk(cut: nat, lines: nat, ghost next: FlatLog) returns (notify: seq<SealEvent>)
      requires Consistent() && log.done <= next.done
      requires CleanCut(active, cut, lines, activeFirst, next) && CutHere(active, cut, chunkSize)
      modifies `sealed, `active, `activeEnds, `activeFirst, `firstAvail, `totalBytes, `cache, `sealCh, `log
      ensures Consistent() && log == next
      ensures active == old(active)[cut..] && activeEnds == [] && activeFirst == old(activeFirst) + lines
      ensures Cut(old(Stocked()), Stocked(), chunkSize, codec, |log.Texts()|, maxBytes, maxLines)
      ensures if |old(sealCh)| < QUEUE_CAP then
                |sealCh| == |old(sealCh)| + 1 && notify == [] && firstAvail == old(firstAvail)
              else
                sealCh == old(sealCh) && CapsRespected()
                && notify == [SealEvent(codec.enc(old(active)[..cut]), old(activeFirst), old(activeFirst) + lines - 1)]
                && Announces(notify[0], codec, DoneTexts(next.done))
      ensures firstAvail >= old(firstAvail) && (Roomy(old(firstAvail)) ==> firstAvail == old(firstAvail))
    {
      hide Represents, Cached, ActiveHolds, Roomy, Announces, EvictionLeaves, Cut, Raws, CapsRespected, Tail, Complete;
      var s := Chunk(Some(active[..cut]), None, cut, activeFirst, lines);
      PushChunk(s, cut, next);
      if |sealCh| < QUEUE_CAP {
        sealCh := sealCh + [s.firstLine];
        notify := [];
      } else {
        var event := CompressNewest(s, old(sealed));
        notify := [event];
      }
      CutIs(old(Stocked()), Stocked(), s, chunkSize, codec, |log.Texts()|, maxBytes, maxLines);
    }

    /** Compresses the chunk just sealed, inline. */
    method CompressNewest(s: Chunk, ghost before: seq<Chunk>) returns (event: SealEvent)
      requires Represents() && Cached() && sealed == before + [s] && s.raw.Some? && s.lines > 0
      requires |sealCh| <= QUEUE_CAP && Queue() == Raws(before)
      modifies `sealed, `totalBytes, `firstAvail, `cache
      ensures Consistent() && CapsRespected() && KeptOf(before + [Compressed(s, codec)])
      ensures event == SealEvent(codec.enc(s.raw.value), s.firstLine, s.firstLine + s.lines - 1)
      ensures Announces(event, codec, DoneTexts(log.done))
      ensures firstAvail >= old(firstAvail) && (Roomy(old(firstAvail)) ==> firstAvail == old(firstAvail))
    {
      hide Represents, Cached, Roomy, Announces, EvictionLeaves, CapsRespected;
      var i := |sealed| - 1;
      assert sealed[..i] == before && sealed[i + 1..] == [] && Raws([]) == [];
      Announced(sealed, i, codec, DoneTexts(log.done)) by { AllHold(); }
      assert sealed[i := Compressed(s, codec)] == before + [Compressed(s, codec)];
      event := CompressLocked(i);
    }

    method PushChunk(s: Chunk, cut: nat, ghost next: FlatLog)
      requires Consistent() && log.done <= next.done && CleanCut(active, cut, s.lines, activeFirst, next)
      requires s == Chunk(Some(active[..cut]), None, cut, activeFirst, s.lines)
      modifies `sealed, `active, `activeEnds, `activeFirst, `log
      ensures Represents() && Cached()
      ensures sealed == old(sealed) + [s] && log == next
      ensures active == old(active)[cut..] && activeEnds == [] && activeFirst == old(activeFirst) + s.lines
      ensures Raws(old(sealed)) == Queue() && Raws(sealed) == Queue() + [s.firstLine]
    {
      hide ActiveHolds, Tiled, ContentIs, TotalSize, Raws;
      var texts, more := DoneTexts(log.done), DoneTexts(next.done);
      ChunksHoldLonger(sealed, codec, texts, more);
      assert more[activeFirst..activeFirst + s.lines] == more[activeFirst..];
      assert s.Sound(codec) && s.Holds(codec, more);
      TiledPush(sealed, firstAvail, activeFirst, s);
      PushSums(sealed, s);
      forall k | k in cache ensures ContentIs(sealed + [s], codec, k, cache[k]) {
        ContentAfterPush(sealed, codec, s, k, cache[k]);
      }
      sealed := sealed + [s];
      active := active[cut..];
      activeEnds := [];
      activeFirst := activeFirst + s.lines;
      log := next;
    }

    method Len() returns (lines: int, bytes: int)
      requires Valid()
      ensures lines == |Retained()| && bytes == totalBytes
    {
      RetainedIs();
      var n := ActiveLines();
      lines, bytes := activeFirst - firstAvail + n, totalBytes;
    }

    method FirstLine() returns (n: nat)
      ensures n == firstAvail
    {
      n := firstAvail;
    }

    method Close()
      requires Valid()
      modifies `closed
      ensures Valid() && closed
    {
      closed := true;
    }

    lemma RetainedIs()
      requires Consistent()
      ensures firstAvail <= activeFirst <= |log.Texts()|
      ensures AllReadable(Views(sealed), codec)
      ensures Retained() == ChunkLines(Views(sealed), codec) + AllLines(active)
    {
      hide ChunksHold, Tiled, ActiveHolds, AllLines, ChunkLines, FlatLog.Texts, Cached, Queued;
      var texts := DoneTexts(log.done);
      assert activeFirst <= |texts| by {
        ActiveCount();
      }
      ChunkLinesAre(sealed, firstAvail, activeFirst, codec, texts);
      ActiveLinesAre(active, activeEnds, activeFirst, log);
      assert texts[firstAvail..activeFirst] == log.Texts()[firstAvail..activeFirst];
      assert log.Texts()[firstAvail..] == log.Texts()[firstAvail..activeFirst] + log.Texts()[activeFirst..];
    }

    lemma ActiveCount()
      requires Consistent()
      ensures activeFirst <= |log.done|
    {
    }

    /** The lines [from, to) of the flat log, or which bound was violated. */
    method Lines(from: int, to: int) returns (r: Result<seq<Bytes>, LinesError>)
      requires Valid()
      modifies `cacheKeys, `cache
      ensures Valid()
      ensures r == if from < 0 || to < from then Err(InvalidRange)
                   else if from < firstAvail then Err(Evicted)
                   else if to > |log.Texts()| then Err(BeyondEnd)
                   else Ok(log.Texts()[from..to])
    {
      hide ChunksHold, Tiled, ActiveHolds, AllLines, TotalSize, Cached, Queued, Settled, FlatLog.Texts, Chunk.Sound;
      if from < 0 || to < from {
        return Err(InvalidRange);
      }
      if from < firstAvail {
        return Err(Evicted);
      }
      var n := ActiveLines();
      var end := activeFirst + n;
      if to > end {
        return Err(BeyondEnd);
      }
      FirstChunk();
      var out: seq<Bytes> := [];
      var k := 0;
      while k < |sealed|
        modifies `cacheKeys, `cache
        invariant Valid() && 0 <= k <= |sealed|
        invariant out == log.Texts()[from..Clip(from, StartOf(sealed, activeFirst, k), to)]
      {
        var s := sealed[k];
        ChunkAt(k);
        if s.firstLine + s.lines <= from {
          k := k + 1;
          continue;
        }
        if s.firstLine >= to {
          return Ok(out);
        }
        var raw := RawOf(k);
        if raw.Err? {
          return Err(BadChunk);
        }
        var lines := SplitLines(raw.value);
        out := CopyRange(out, lines, s.firstLine, from, to, log.Texts());
        k := k + 1;
      }
      if to > activeFirst {
        var lines := SplitLines(active);
        ActiveLinesAre(active, activeEnds, activeFirst, log);
        out := CopyRange(out, lines, activeFirst, from, to, log.Texts());
      }
      r := Ok(out);
    }

    lemma FirstChunk()
      requires Consistent()
      ensures StartOf(sealed, activeFirst, 0) == firstAvail
    {
    }

    /** Chunk k holds the lines of the log from its first line to the start of the next chunk. */
    lemma ChunkAt(k: nat)
      requires Consistent() && k < |sealed|
      ensures var s := sealed[k];
              && s.Sound(codec) && s.firstLine + s.lines == StartOf(sealed, activeFirst, k + 1) <= |log.Texts()|
              && AllLines(s.View().Content(codec)) == log.Texts()[s.firstLine..s.firstLine + s.lines]
    {
      hide Complete, Tail, Ends, AllLines, TotalSize, Cached, Queued;
      var s, texts := sealed[k], DoneTexts(log.done);
      assert s.Sound(codec) && s.Holds(codec, texts);
      assert Adjacent(sealed, activeFirst, k);
      ActiveLinesAre(active, activeEnds, activeFirst, log);
      assert texts[s.firstLine..s.firstLine + s.lines] == log.Texts()[s.firstLine..s.firstLine + s.lines];
    }

    /** The raw bytes of a sealed chunk, through the decompress cache. */
    method RawOf(i: nat) returns (r: Result<Bytes, LinesError>)
      requires Consistent() && i < |sealed|
      modifies `cacheKeys, `cache
      ensures Consistent() && sealed[i].Sound(codec) && r == Ok(sealed[i].View().Content(codec))
    {
      hide Represents, Queued, ContentIs, AllLines, FlatLog.Texts;
      var s := sealed[i];
      ChunkAt(i);
      if s.raw.Some? {
        return Ok(s.raw.value);
      }
      if s.firstLine in cache {
        CacheTells(i);
        return Ok(cache[s.firstLine]);
      }
      var b := codec.dec(s.comp.value);
      if b.None? {
        return Err(BadChunk);
      }
      assert ContentIs(sealed, codec, s.firstLine, b.value) by {
        ContentHere(i);
      }
      cache := cache[s.firstLine := b.value];
      cacheKeys := cacheKeys + [s.firstLine];
      while |cacheKeys| > CACHE_CAP
        modifies `cacheKeys, `cache
        invariant forall k :: k in cache ==> k in cacheKeys && ContentIs(sealed, codec, k, cache[k])
        decreases |cacheKeys|
      {
        var oldest := cacheKeys[0];
        cacheKeys := cacheKeys[1..];
        cache := cache - {oldest};
      }
      r := Ok(b.value);
    }

    lemma ContentHere(i: nat)
      requires i < |sealed| && sealed[i].Sound(codec)
      ensures ContentIs(sealed, codec, sealed[i].firstLine, sealed[i].View().Content(codec))
    {
    }

    lemma CacheTells(i: nat)
      requires Consistent() && i < |sealed| && sealed[i].firstLine in cache
      ensures sealed[i].Sound(codec) && cache[sealed[i].firstLine] == sealed[i].View().Content(codec)
    {
      var k := sealed[i].firstLine;
      assert ContentIs(sealed, codec, k, cache[k]);
      Ascends();
    }

    lemma Ascends()
      requires Consistent()
      ensures Ascending(sealed)
    {
      forall k | 0 <= k < |sealed| ensures sealed[k].lines > 0 {
        assert sealed[k].Sound(codec) && sealed[k].Holds(codec, DoneTexts(log.done));
      }
      TiledAscends(sealed, firstAvail, activeFirst);
    }

    /** A grep over a snapshot: the iterator will deliver the naive grep of the retained lines. */
    method Grep(re: Option<Regexp>, opts: GrepOpts) returns (r: Option<GrepIter>)
      requires Valid()
      ensures r.Some? <==> re.Some?
      ensures r.Some? ==>
                && fresh(r.value) && r.value.Valid()
                && firstAvail <= |log.Texts()|
                && r.value.all == Retained() && r.value.base == firstAvail && r.value.opts == opts
                && r.value.re == EffectiveRegexp(re.value, opts.ignoreCase, compile)
                && r.value.Position() == 0 && r.value.matches == 0
                && r.value.Remaining()
                   == NaiveGrep(Retained(), firstAvail, EffectiveRegexp(re.value, opts.ignoreCase, compile), opts)
    {
      if re.None? {
        return None;
      }
      var pattern := EffectiveRegexp(re.value, opts.ignoreCase, compile);
      var views: seq<ChunkView> := [];
      var i := 0;
      while i < |sealed|
        invariant 0 <= i <= |sealed| && views == Views(sealed[..i])
      {
        views := views + [sealed[i].View()];
        i := i + 1;
      }
      assert sealed[..i] == sealed;
      RetainedIs();
      var it := new GrepIter(pattern, opts, codec, views, active, firstAvail);
      r := Some(it);
    }
  }
}
