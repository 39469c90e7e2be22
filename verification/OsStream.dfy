/** The detector's line evidence depends on the bytes of the stream, not on how it was cut into chunks. */
module OsStream {
  import opened Wrappers
  import opened ByteLines
  import opened OsDetect

  /** The line rules that fired, and whether the marker went by. */
  datatype LineState = LineState(fired: seq<bool>, passed: bool)

  function LineStateOf(ev: Evidence): LineState { LineState(ev.line, ev.passed) }

  // ------------------------------------------------------------- what fires when

  /** Line j, trimmed, contains the marker. */
  predicate Marks(cfg: Config, lines: seq<Bytes>, j: nat)
    requires j < |lines|
  {
    TrimLine(lines[j]) != [] && cfg.marker.Some? && Contains(TrimLine(lines[j]), cfg.marker.value)
  }

  ghost predicate MarkedBefore(cfg: Config, lines: seq<Bytes>, n: nat)
    requires n <= |lines|
  {
    exists j: nat :: j < n && Marks(cfg, lines, j)
  }

  /** Line j counts as the target's for the rule. */
  ghost predicate Counts(cfg: Config, lines: seq<Bytes>, j: nat, r: Rule)
    requires j < |lines|
  {
    if !cfg.relay then true
    else if cfg.marker.None? then !r.hostBanner
    else MarkedBefore(cfg, lines, j)
  }

  ghost predicate FiresOn(cfg: Config, lines: seq<Bytes>, j: nat, r: Rule)
    requires j < |lines|
  {
    TrimLine(lines[j]) != [] && Counts(cfg, lines, j, r) && r.hits(TrimLine(lines[j]))
  }

  /** The line evidence of a list of lines, said outright. */
  ghost predicate LineMeaning(cfg: Config, lines: seq<Bytes>, s: LineState) {
    && |s.fired| == |cfg.line|
    && (forall i :: 0 <= i < |cfg.line| ==> (s.fired[i] <==> exists j: nat :: j < |lines| && FiresOn(cfg, lines, j, cfg.line[i])))
    && (s.passed <==> cfg.relay && MarkedBefore(cfg, lines, |lines|))
  }

  lemma {:induction false} LineRulesExact(cfg: Config, ev: Evidence, line: Bytes, n: nat)
    requires Fits(cfg, ev) && n <= |cfg.line|
    ensures var r := LineRules(cfg, ev, line, n);
            forall i :: 0 <= i < |cfg.line| ==>
              (r.line[i] <==> ev.line[i] || (i < n && !(Hop(cfg, ev) && cfg.line[i].hostBanner) && cfg.line[i].hits(line)))
  {
    hide AddWeights;
    if n > 0 {
      LineRulesExact(cfg, ev, line, n - 1);
    }
  }

  lemma {:induction false} PromptRulesExact(cfg: Config, ev: Evidence, text: Bytes, n: nat)
    requires Fits(cfg, ev) && n <= |cfg.prompt|
    ensures var r := PromptRules(cfg, ev, text, n);
            forall i :: 0 <= i < |cfg.prompt| ==>
              (r.prompt[i] <==> ev.prompt[i]
                                || (i < n && !(Hop(cfg, ev) && cfg.prompt[i].hostBanner) && cfg.prompt[i].hits(text)))
  {
    hide AddWeights;
    if n > 0 {
      PromptRulesExact(cfg, ev, text, n - 1);
    }
  }

  lemma {:induction false} VersionRulesExact(cfg: Config, ev: Evidence, v: Bytes, n: nat)
    requires Fits(cfg, ev) && n <= |cfg.version|
    ensures var r := VersionRules(cfg, ev, v, n);
            forall i :: 0 <= i < |cfg.version| ==> (r.version[i] <==> ev.version[i] || (i < n && cfg.version[i].hits(v)))
  {
    hide AddWeights;
    if n > 0 {
      VersionRulesExact(cfg, ev, v, n - 1);
    }
  }

  lemma MarkedInit(cfg: Config, lines: seq<Bytes>, line: Bytes)
    ensures forall n: nat :: n <= |lines| ==> (MarkedBefore(cfg, lines + [line], n) <==> MarkedBefore(cfg, lines, n))
  {
    hide TrimLine, Contains;
    forall j: nat | j < |lines| ensures Marks(cfg, lines + [line], j) <==> Marks(cfg, lines, j) {
      assert (lines + [line])[j] == lines[j];
    }
  }

  lemma MarkedSnoc(cfg: Config, lines: seq<Bytes>, line: Bytes)
    ensures MarkedBefore(cfg, lines + [line], |lines| + 1)
       <==> MarkedBefore(cfg, lines, |lines|) || Marks(cfg, lines + [line], |lines|)
  {
    hide Marks;
    MarkedInit(cfg, lines, line);
    assert MarkedBefore(cfg, lines + [line], |lines|) <==> MarkedBefore(cfg, lines, |lines|);
  }

  lemma FiresInit(cfg: Config, lines: seq<Bytes>, line: Bytes, j: nat, r: Rule)
    requires j < |lines|
    ensures FiresOn(cfg, lines + [line], j, r) <==> FiresOn(cfg, lines, j, r)
  {
    hide TrimLine, MarkedBefore;
    MarkedInit(cfg, lines, line);
    assert (lines + [line])[j] == lines[j];
  }

  lemma FiresSnoc(cfg: Config, lines: seq<Bytes>, line: Bytes, r: Rule)
    ensures (exists j: nat :: j < |lines + [line]| && FiresOn(cfg, lines + [line], j, r))
       <==> (exists j: nat :: j < |lines| && FiresOn(cfg, lines, j, r)) || FiresOn(cfg, lines + [line], |lines|, r)
  {
    hide FiresOn;
    forall j: nat | j < |lines| ensures FiresOn(cfg, lines + [line], j, r) <==> FiresOn(cfg, lines, j, r) {
      FiresInit(cfg, lines, line, j, r);
    }
    if exists j: nat :: j < |lines| && FiresOn(cfg, lines, j, r) {
      var j: nat :| j < |lines| && FiresOn(cfg, lines, j, r);
      assert j < |lines + [line]| && FiresOn(cfg, lines + [line], j, r);
    }
  }

  /** One more line: the step of the scanner is the step of the meaning. */
  lemma LineStep(cfg: Config, lines: seq<Bytes>, line: Bytes, ev: Evidence)
    requires Fits(cfg, ev) && LineMeaning(cfg, lines, LineStateOf(ev))
    ensures LineMeaning(cfg, lines + [line], LineStateOf(LineSeen(cfg, ev, TrimLine(line))))
  {
    hide TrimLine, Contains, MarkedBefore, LineRules, FiresOn;
    var more, t := lines + [line], TrimLine(line);
    assert more[|lines|] == line;
    MarkedInit(cfg, lines, line);
    MarkedSnoc(cfg, lines, line);
    LineRulesExact(cfg, ev, t, |cfg.line|);
    NoMarker(cfg, lines, |lines|);
    assert forall i :: 0 <= i < |cfg.line| ==>
             (ev.line[i] <==> exists j: nat :: j < |lines| && FiresOn(cfg, lines, j, cfg.line[i]));
    forall i | 0 <= i < |cfg.line|
      ensures LineSeen(cfg, ev, t).line[i] <==> exists j: nat :: j < |more| && FiresOn(cfg, more, j, cfg.line[i])
    {
      FiresSnoc(cfg, lines, line, cfg.line[i]);
      FiresLast(cfg, lines, line, cfg.line[i]);
    }
  }

  lemma NoMarker(cfg: Config, lines: seq<Bytes>, n: nat)
    requires n <= |lines|
    ensures cfg.marker.None? ==> !MarkedBefore(cfg, lines, n)
  {
  }

  lemma FiresLast(cfg: Config, lines: seq<Bytes>, line: Bytes, r: Rule)
    ensures FiresOn(cfg, lines + [line], |lines|, r)
       <==> TrimLine(line) != [] && r.hits(TrimLine(line))
            && (if !cfg.relay then true else if cfg.marker.None? then !r.hostBanner else MarkedBefore(cfg, lines, |lines|))
  {
    hide TrimLine, MarkedBefore;
    MarkedInit(cfg, lines, line);
    assert (lines + [line])[|lines|] == line;
  }

  /** From a fresh detector the lines seen leave exactly the evidence their meaning says. */
  lemma {:induction false} LinesExact(cfg: Config, lines: seq<Bytes>)
    requires Fits(cfg, Fresh(cfg))
    ensures LineMeaning(cfg, lines, LineStateOf(LinesSeen(cfg, Fresh(cfg), lines)))
  {
    hide LineMeaning, LineSeen, TrimLine;
    if lines == [] {
      NoLines(cfg);
    } else {
      var init, line := lines[..|lines| - 1], lines[|lines| - 1];
      LinesExact(cfg, init);
      LineStep(cfg, init, line, LinesSeen(cfg, Fresh(cfg), init));
      assert init + [line] == lines;
    }
  }

  lemma NoLines(cfg: Config)
    requires Fits(cfg, Fresh(cfg))
    ensures LineMeaning(cfg, [], LineStateOf(Fresh(cfg)))
  {
  }

  // ------------------------------------------------------------------ the chunks

  function ObservedAll(cfg: Config, chunks: seq<Bytes>): (r: Detection)
    requires Fits(cfg, Fresh(cfg))
    ensures Fits(cfg, r.ev)
  {
    if chunks == [] then Detection(Fresh(cfg), [], 0, false)
    else Observed(cfg, ObservedAll(cfg, chunks[..|chunks| - 1]), chunks[|chunks| - 1])
  }

  function Stream(chunks: seq<Bytes>): Bytes {
    if chunks == [] then [] else Stream(chunks[..|chunks| - 1]) + chunks[|chunks| - 1]
  }

  /** The chunks looked at: up to the one that exceeds the budget, included. */
  function Heeded(chunks: seq<Bytes>): (r: seq<Bytes>)
    ensures r <= chunks
  {
    if chunks == [] || |Stream(chunks[..|chunks| - 1])| <= OBSERVE_BUDGET then chunks
    else Heeded(chunks[..|chunks| - 1])
  }

  /** The partial line carried on after these chunks. */
  function Carried(chunks: seq<Bytes>): Bytes {
    if chunks == [] then []
    else LastBytes(Tail(Carried(chunks[..|chunks| - 1]) + chunks[|chunks| - 1]), MAX_TAIL)
  }

  /** The lines handed to the matcher by these chunks. */
  function Scanned(chunks: seq<Bytes>): seq<Bytes> {
    if chunks == [] then []
    else
      var init := chunks[..|chunks| - 1];
      Scanned(init) + Complete(Carried(init) + chunks[|chunks| - 1])
  }

  /** Line evidence of the next lines does not depend on scores or prompts. */
  lemma {:induction false} LinesFrom(cfg: Config, a: Evidence, b: Evidence, lines: seq<Bytes>)
    requires Fits(cfg, a) && Fits(cfg, b) && LineStateOf(a) == LineStateOf(b)
    ensures LineStateOf(LinesSeen(cfg, a, lines)) == LineStateOf(LinesSeen(cfg, b, lines))
  {
    hide TrimLine, LineRules;
    if lines != [] {
      var init, t := lines[..|lines| - 1], TrimLine(lines[|lines| - 1]);
      LinesFrom(cfg, a, b, init);
      var x, y := LinesSeen(cfg, a, init), LinesSeen(cfg, b, init);
      LineRulesExact(cfg, x, t, |cfg.line|);
      LineRulesExact(cfg, y, t, |cfg.line|);
      assert LineRules(cfg, x, t, |cfg.line|).line == LineRules(cfg, y, t, |cfg.line|).line;
    }
  }

  lemma {:induction false} LinesConcat(cfg: Config, ev: Evidence, a: seq<Bytes>, b: seq<Bytes>)
    requires Fits(cfg, ev)
    ensures LinesSeen(cfg, ev, a + b) == LinesSeen(cfg, LinesSeen(cfg, ev, a), b)
    decreases |b|
  {
    hide TrimLine, LineSeen;
    if b == [] {
      assert a + b == a;
    } else {
      LinesConcat(cfg, ev, a, b[..|b| - 1]);
      assert (a + b)[..|a + b| - 1] == a + b[..|b| - 1];
    }
  }

  /** The line evidence is that of the lines handed to the matcher; until the budget is used up the partial line is kept. */
  ghost predicate TakenIn(cfg: Config, d: Detection, chunks: seq<Bytes>) {
    && Fits(cfg, d.ev)
    && LineStateOf(d.ev) == LineStateOf(LinesSeen(cfg, Fresh(cfg), Scanned(Heeded(chunks))))
    && (d.done <==> |Stream(chunks)| > OBSERVE_BUDGET)
    && (!d.done ==> d.observed == |Stream(chunks)| && d.tail == Carried(chunks) && Heeded(chunks) == chunks)
  }

  lemma ChunkStep(cfg: Config, d: Detection, chunks: seq<Bytes>, p: Bytes)
    requires Fits(cfg, Fresh(cfg)) && TakenIn(cfg, d, chunks) && !d.done
    ensures TakenIn(cfg, Observed(cfg, d, p), chunks + [p])
  {
    hide Tail, Complete, LinesSeen, PromptSeen, TrimSpaces, Fresh;
    var data := d.tail + p;
    assert (chunks + [p])[..|chunks|] == chunks;
    LinesConcat(cfg, Fresh(cfg), Scanned(chunks), Complete(data));
    LinesFrom(cfg, d.ev, LinesSeen(cfg, Fresh(cfg), Scanned(chunks)), Complete(data));
  }

  /** In every run, however long the lines and the stream. */
  lemma {:induction false} ChunksTakenIn(cfg: Config, chunks: seq<Bytes>)
    requires Fits(cfg, Fresh(cfg))
    ensures TakenIn(cfg, ObservedAll(cfg, chunks), chunks)
  {
    hide Observed, Carried, Scanned, Fresh;
    if chunks == [] {
      NothingTakenIn(cfg);
    } else {
      var init, p := chunks[..|chunks| - 1], chunks[|chunks| - 1];
      var d := ObservedAll(cfg, init);
      ChunksTakenIn(cfg, init);
      assert init + [p] == chunks;
      if d.done {
        DoneStays(cfg, d, p);
      } else {
        ChunkStep(cfg, d, init, p);
      }
    }
  }

  lemma DoneStays(cfg: Config, d: Detection, p: Bytes)
    requires Fits(cfg, d.ev) && d.done
    ensures Observed(cfg, d, p) == d
  {
  }

  lemma NothingTakenIn(cfg: Config)
    requires Fits(cfg, Fresh(cfg))
    ensures TakenIn(cfg, ObservedAll(cfg, []), [])
  {
  }

  /** Always: the line rules that fired and the marker's passing are what the lines handed to the matcher say. */
  lemma ScannedMeaning(cfg: Config, chunks: seq<Bytes>)
    requires Fits(cfg, Fresh(cfg))
    ensures LineMeaning(cfg, Scanned(Heeded(chunks)), LineStateOf(ObservedAll(cfg, chunks).ev))
  {
    hide LineMeaning, LinesSeen, Fresh, Scanned, Heeded;
    ChunksTakenIn(cfg, chunks);
    LinesExact(cfg, Scanned(Heeded(chunks)));
  }

  // ------------------------------------------------------------------- prompts

  /** What stands where a prompt would, after these chunks: the partial line, cleaned, without trailing spaces. */
  function PromptText(cfg: Config, chunks: seq<Bytes>): Bytes {
    TrimSpaces(cfg.clean(LastBytes(Tail(Stream(chunks)), MAX_TAIL)))
  }

  /** The rule may fire on a prompt after these lines. */
  ghost predicate PromptCounts(cfg: Config, lines: seq<Bytes>, r: Rule) {
    if !cfg.relay then true
    else if cfg.marker.None? then !r.hostBanner
    else MarkedBefore(cfg, lines, |lines|)
  }

  /** After the first n chunks the rule sees its prompt. */
  ghost predicate PromptAt(cfg: Config, chunks: seq<Bytes>, n: nat, r: Rule)
    requires n <= |chunks|
  {
    && PromptText(cfg, chunks[..n]) != []
    && PromptCounts(cfg, Scanned(chunks[..n]), r) && r.hits(PromptText(cfg, chunks[..n]))
  }

  ghost predicate PromptsSeen(cfg: Config, chunks: seq<Bytes>, r: Rule) {
    exists n: nat :: 0 < n <= |chunks| && PromptAt(cfg, chunks, n, r)
  }

  /** One more chunk can only add the prompt after it. */
  lemma PromptsSnoc(cfg: Config, chunks: seq<Bytes>, p: Bytes, r: Rule)
    ensures PromptsSeen(cfg, chunks + [p], r)
       <==> PromptsSeen(cfg, chunks, r) || PromptAt(cfg, chunks + [p], |chunks| + 1, r)
  {
    hide PromptText, PromptCounts, Scanned;
    var more := chunks + [p];
    forall n: nat | n <= |chunks| ensures PromptAt(cfg, more, n, r) <==> PromptAt(cfg, chunks, n, r) {
      assert more[..n] == chunks[..n];
    }
    if n: nat :| 0 < n <= |chunks| && PromptAt(cfg, chunks, n, r) {
      assert PromptAt(cfg, more, n, r);
    }
  }

  lemma {:induction false} LinesKeepPrompts(cfg: Config, ev: Evidence, lines: seq<Bytes>)
    requires Fits(cfg, ev)
    ensures LinesSeen(cfg, ev, lines).prompt == ev.prompt
  {
    hide LineRules, TrimLine;
    if lines != [] {
      LinesKeepPrompts(cfg, ev, lines[..|lines| - 1]);
    }
  }

  /** One chunk that is looked at: a rule newly fires exactly when it may and its prompt is there. */
  lemma PromptStep(cfg: Config, init: seq<Bytes>, p: Bytes, i: nat)
    requires Fits(cfg, Fresh(cfg)) && |Stream(init)| <= OBSERVE_BUDGET && i < |cfg.prompt|
    ensures ObservedAll(cfg, init + [p]).ev.prompt[i]
       <==> ObservedAll(cfg, init).ev.prompt[i] || PromptAt(cfg, init + [p], |init| + 1, cfg.prompt[i])
  {
    hide Tail, Complete, LinesSeen, PromptRules, TrimSpaces, Fresh, Scanned, MarkedBefore, Stream, Carried;
    var d, all := ObservedAll(cfg, init), init + [p];
    assert all[..|init|] == init && all[..|init| + 1] == all;
    HeededNext(init, p);
    ChunksTakenIn(cfg, init);
    ScannedMeaning(cfg, all);
    NoMarker(cfg, Scanned(all), |Scanned(all)|);
    CarriedIs(all);
    CarriedNext(init, p);
    var mid := LinesSeen(cfg, d.ev, Complete(d.tail + p));
    var text := PromptText(cfg, all);
    LinesKeepPrompts(cfg, d.ev, Complete(d.tail + p));
    PromptRulesExact(cfg, mid, text, |cfg.prompt|);
    assert ObservedAll(cfg, all).ev == PromptSeen(cfg, mid, text);
  }

  lemma CarriedNext(init: seq<Bytes>, p: Bytes)
    ensures Carried(init + [p]) == LastBytes(Tail(Carried(init) + p), MAX_TAIL)
  {
    assert (init + [p])[..|init|] == init;
  }

  /**
   * In every run a prompt rule has fired exactly when, after some chunk that was looked at, the partial line,
   * cleaned and without trailing spaces, was not empty, the rule might fire in that phase, and it matched.
   */
  lemma {:induction false} PromptMeaning(cfg: Config, chunks: seq<Bytes>, i: nat)
    requires Fits(cfg, Fresh(cfg)) && i < |cfg.prompt|
    ensures ObservedAll(cfg, chunks).ev.prompt[i] <==> PromptsSeen(cfg, Heeded(chunks), cfg.prompt[i])
  {
    hide Observed, PromptAt, Scanned, Stream, Heeded;
    if chunks == [] {
      NothingHeeded();
    } else {
      var init, p := chunks[..|chunks| - 1], chunks[|chunks| - 1];
      assert init + [p] == chunks;
      PromptMeaning(cfg, init, i);
      ChunksTakenIn(cfg, init);
      HeededNext(init, p);
      if |Stream(init)| > OBSERVE_BUDGET {
        DoneStays(cfg, ObservedAll(cfg, init), p);
      } else {
        PromptStep(cfg, init, p, i);
        PromptsSnoc(cfg, init, p, cfg.prompt[i]);
      }
    }
  }

  lemma NothingHeeded()
    ensures Heeded([]) == []
  {
  }

  lemma HeededNext(init: seq<Bytes>, p: Bytes)
    ensures Heeded(init + [p]) == if |Stream(init)| <= OBSERVE_BUDGET then init + [p] else Heeded(init)
  {
    assert (init + [p])[..|init|] == init;
  }

  // ------------------------------------------------- which lines reach the matcher

  /** Cutting the carried line first makes no difference to what is carried next. */
  lemma {:induction false} TailOfCut(t: Bytes, p: Bytes)
    requires NoNL(t)
    ensures LastBytes(Tail(LastBytes(t, MAX_TAIL) + p), MAX_TAIL) == LastBytes(Tail(t + p), MAX_TAIL)
    ensures |Complete(LastBytes(t, MAX_TAIL) + p)| == |Complete(t + p)|
    ensures Tail(LastBytes(t, MAX_TAIL) + p) == Tail(t + p)
            || (Complete(t + p) == [] && Tail(t + p) == t + p && Tail(LastBytes(t, MAX_TAIL) + p) == LastBytes(t, MAX_TAIL) + p)
    decreases |p|
  {
    hide Complete, Tail;
    var c := LastBytes(t, MAX_TAIL);
    if p == [] {
      assert t + p == t && c + p == c;
      NoNLSplit(t);
      NoNLSplit(c);
    } else {
      var init, x := p[..|p| - 1], p[|p| - 1];
      TailOfCut(t, init);
      assert t + p == (t + init) + [x] && c + p == (c + init) + [x];
      OneByte(t + init, x);
      OneByte(c + init, x);
      assert (t + init) + [x] == t + p;
    }
  }

  lemma {:induction false} CarriedIs(chunks: seq<Bytes>)
    ensures Carried(chunks) == LastBytes(Tail(Stream(chunks)), MAX_TAIL) && |Carried(chunks)| <= MAX_TAIL
    ensures |Scanned(chunks)| == |Complete(Stream(chunks))|
  {
    hide Tail, Complete;
    NoNLSplit([]);
    if chunks != [] {
      var init, p := chunks[..|chunks| - 1], chunks[|chunks| - 1];
      CarriedIs(init);
      TailIsSuffix(Stream(init));
      TailOfCut(Tail(Stream(init)), p);
      CompleteConcat(Stream(init), p);
    }
  }

  /** Finished lines of at most `most` bytes. */
  ghost predicate ShortLines(lines: seq<Bytes>, most: nat) {
    forall i :: 0 <= i < |lines| ==> |lines[i]| <= most
  }

  /** With short finished lines the matcher gets them whole. */
  lemma {:induction false} ScannedWhole(chunks: seq<Bytes>)
    requires ShortLines(Complete(Stream(chunks)), MAX_TAIL)
    ensures Scanned(chunks) == Complete(Stream(chunks))
  {
    hide Tail, Complete;
    NoNLSplit([]);
    if chunks != [] {
      var init, p := chunks[..|chunks| - 1], chunks[|chunks| - 1];
      var t := Tail(Stream(init));
      CompleteConcat(Stream(init), p);
      ShortParts(Complete(Stream(init)), Complete(t + p), MAX_TAIL);
      ScannedWhole(init);
      CarriedIs(init);
      TailIsSuffix(Stream(init));
      CutUnseen(t, p);
    }
  }

  lemma ShortParts(a: seq<Bytes>, b: seq<Bytes>, most: nat)
    requires ShortLines(a + b, most)
    ensures ShortLines(a, most) && ShortLines(b, most)
  {
    forall i | 0 <= i < |a| ensures |a[i]| <= most {
      assert (a + b)[i] == a[i];
    }
    forall i | 0 <= i < |b| ensures |b[i]| <= most {
      assert (a + b)[|a| + i] == b[i];
    }
  }

  /** The cut is seen only when the line it shortened is finished. */
  lemma CutUnseen(t: Bytes, p: Bytes)
    requires NoNL(t) && ShortLines(Complete(t + p), MAX_TAIL)
    ensures Complete(LastBytes(t, MAX_TAIL) + p) == Complete(t + p)
  {
    hide Complete, Tail;
    if |t| > MAX_TAIL {
      FirstLine(t, p);
      assert NoNL(p);
      NoNLSplit(t + p);
      NoNLSplit(LastBytes(t, MAX_TAIL) + p);
    }
  }

  /** If p has a newline, the first line of t + p has t in it. */
  lemma FirstLine(t: Bytes, p: Bytes)
    requires NoNL(t)
    ensures NoNL(p) || (Complete(t + p) != [] && |Complete(t + p)[0]| >= |t|)
  {
    if !NoNL(p) {
      var j := FirstNL(p);
      assert t + p == (t + p[..j]) + [NL] + p[j + 1..];
      LineFirst(t + p[..j], p[j + 1..]);
    }
  }

  lemma FirstNL(p: Bytes) returns (j: nat)
    requires !NoNL(p)
    ensures j < |p| && p[j] == NL && NoNL(p[..j])
  {
    j := 0;
    while p[j] != NL
      invariant j < |p| && NoNL(p[..j]) && exists i :: j <= i < |p| && p[i] == NL
      decreases |p| - j
    {
      j := j + 1;
    }
  }

  /** Every finished line is short, and none is finished after the byte that exceeds the budget. */
  ghost predicate CutProof(s: Bytes) {
    ShortLines(Complete(s), MAX_TAIL) && (|s| > OBSERVE_BUDGET ==> NoNL(s[OBSERVE_BUDGET + 1..]))
  }

  /** What is looked at is a prefix of the stream, and all of it or more than the budget. */
  lemma {:induction false} HeededPrefix(chunks: seq<Bytes>)
    ensures Stream(Heeded(chunks)) <= Stream(chunks)
    ensures Stream(Heeded(chunks)) == Stream(chunks) || |Stream(Heeded(chunks))| > OBSERVE_BUDGET
  {
    if chunks != [] && |Stream(chunks[..|chunks| - 1])| > OBSERVE_BUDGET {
      HeededPrefix(chunks[..|chunks| - 1]);
    }
  }

  /** However such a stream is cut, the matcher gets exactly its finished lines. */
  lemma AnyCut(chunks: seq<Bytes>)
    requires CutProof(Stream(chunks))
    ensures Scanned(Heeded(chunks)) == Complete(Stream(chunks))
  {
    hide Tail, Complete, Scanned, Heeded, Stream;
    var s, h := Stream(chunks), Stream(Heeded(chunks));
    HeededPrefix(chunks);
    if h != s {
      var rest := s[|h|..];
      assert s == h + rest && NoNL(rest) by {
        assert rest == s[OBSERVE_BUDGET + 1..][|h| - (OBSERVE_BUDGET + 1)..];
      }
      NoMoreLines(h, rest);
    }
    ScannedWhole(Heeded(chunks));
  }

  lemma NoMoreLines(a: Bytes, rest: Bytes)
    requires NoNL(rest)
    ensures Complete(a + rest) == Complete(a)
  {
    CompleteConcat(a, rest);
    TailIsSuffix(a);
    NoNLSplit(Tail(a) + rest);
  }

  /** The stream byte by byte. */
  function ByteByByte(s: Bytes): seq<Bytes> {
    seq(|s|, i requires 0 <= i < |s| => [s[i]])
  }

  lemma ByteByByteInit(s: Bytes, n: nat)
    requires n <= |s|
    ensures ByteByByte(s)[..n] == ByteByByte(s[..n])
  {
  }

  lemma {:induction false} ByteStream(s: Bytes)
    ensures Stream(ByteByByte(s)) == s
  {
    if s != [] {
      ByteByByteInit(s, |s| - 1);
      ByteStream(s[..|s| - 1]);
      assert s == s[..|s| - 1] + [s[|s| - 1]];
    }
  }

  /** Byte by byte, no line handed to the matcher is longer than the carried tail may be. */
  lemma {:induction false} ByteLinesShort(s: Bytes)
    ensures ShortLines(Scanned(ByteByByte(s)), MAX_TAIL)
  {
    hide Tail, Complete;
    if s != [] {
      var init := ByteByByte(s[..|s| - 1]);
      ByteByByteInit(s, |s| - 1);
      ByteLinesShort(s[..|s| - 1]);
      CarriedIs(init);
      TailIsSuffix(Stream(init));
      NoNLSplit(Carried(init));
      OneByte(Carried(init), s[|s| - 1]);
    }
  }

  /** Byte by byte, exactly the byte that exceeds the budget is the last one looked at. */
  lemma {:induction false} ByteHeeded(s: Bytes)
    ensures Heeded(ByteByByte(s)) == ByteByByte(if |s| > OBSERVE_BUDGET then s[..OBSERVE_BUDGET + 1] else s)
  {
    if s != [] {
      ByteByByteInit(s, |s| - 1);
      ByteStream(s[..|s| - 1]);
      if |s| - 1 > OBSERVE_BUDGET {
        ByteHeeded(s[..|s| - 1]);
        assert s[..|s| - 1][..OBSERVE_BUDGET + 1] == s[..OBSERVE_BUDGET + 1];
      } else {
        assert |s| > OBSERVE_BUDGET ==> s[..OBSERVE_BUDGET + 1] == s;
      }
    }
  }

  lemma InOnePiece(s: Bytes)
    ensures Stream([s]) == s && Heeded([s]) == [s] && Scanned([s]) == Complete(s)
  {
    assert [s][..0] == [] && [] + s == s;
  }

  /** A newline is one more finished line. */
  lemma {:induction false} MoreLines(a: Bytes, rest: Bytes)
    requires !NoNL(rest)
    ensures |Complete(a + rest)| > |Complete(a)|
  {
    CompleteConcat(a, rest);
    TailIsSuffix(a);
    FirstLine(Tail(a), rest);
  }

  /** A stream that is not proof against cutting is scanned differently whole and byte by byte. */
  lemma CutsDiffer(s: Bytes)
    requires !CutProof(s)
    ensures Scanned(Heeded([s])) != Scanned(Heeded(ByteByByte(s)))
  {
    hide Tail, Complete, Scanned, Heeded, Stream, ByteByByte;
    InOnePiece(s);
    ByteHeeded(s);
    var h := if |s| > OBSERVE_BUDGET then s[..OBSERVE_BUDGET + 1] else s;
    ByteLinesShort(h);
    ByteStream(h);
    CarriedIs(ByteByByte(h));
    if ShortLines(Complete(s), MAX_TAIL) {
      assert s == h + s[OBSERVE_BUDGET + 1..];
      MoreLines(h, s[OBSERVE_BUDGET + 1..]);
    }
  }

  /**
   * All ways of cutting a stream hand the matcher the same lines exactly when its finished lines are
   * at most maxTail bytes long and none is finished after the byte that exceeds the budget.
   */
  lemma CutsAgreeIff(s: Bytes)
    ensures (forall a, b :: Stream(a) == s && Stream(b) == s ==> Scanned(Heeded(a)) == Scanned(Heeded(b))) <==> CutProof(s)
  {
    hide Scanned, Heeded, Stream, CutProof;
    if CutProof(s) {
      forall a, b | Stream(a) == s && Stream(b) == s ensures Scanned(Heeded(a)) == Scanned(Heeded(b)) {
        AnyCut(a);
        AnyCut(b);
      }
    } else {
      CutsDiffer(s);
      InOnePiece(s);
      ByteStream(s);
    }
  }

  /** Of such a stream the line evidence is what its finished lines say, however it is cut. */
  lemma StreamMeaning(cfg: Config, chunks: seq<Bytes>)
    requires Fits(cfg, Fresh(cfg)) && CutProof(Stream(chunks))
    ensures LineMeaning(cfg, Complete(Stream(chunks)), LineStateOf(ObservedAll(cfg, chunks).ev))
  {
    hide LineMeaning, LinesSeen, Fresh, Complete, Stream, Scanned, Heeded, CutProof;
    AnyCut(chunks);
    ScannedMeaning(cfg, chunks);
  }

  /** Two ways of cutting it leave the same line evidence. */
  lemma ChunkingIrrelevant(cfg: Config, a: seq<Bytes>, b: seq<Bytes>)
    requires Fits(cfg, Fresh(cfg)) && Stream(a) == Stream(b) && CutProof(Stream(a))
    ensures LineStateOf(ObservedAll(cfg, a).ev) == LineStateOf(ObservedAll(cfg, b).ev)
  {
    hide LinesSeen, Fresh, Complete, Stream, Scanned, Heeded, CutProof;
    AnyCut(a);
    AnyCut(b);
    ChunksTakenIn(cfg, a);
    ChunksTakenIn(cfg, b);
  }

  // ---------------------------------------------------- what a cut can lose

  /** One rule, looking for one hint; no prompts, no relay. */
  function OneHint(hint: Bytes): Config {
    Config([], [HintRule(hint, [], false)], [], (b: Bytes) => b, false, None)
  }

  /** Some line, trimmed, has the hint. */
  ghost predicate HasHint(lines: seq<Bytes>, hint: Bytes) {
    exists j: nat :: j < |lines| && LineHas(lines, j, hint)
  }

  predicate LineHas(lines: seq<Bytes>, j: nat, hint: Bytes)
    requires j < |lines|
  {
    TrimLine(lines[j]) != [] && Contains(TrimLine(lines[j]), hint)
  }

  /** The rule fires exactly when a line handed to the matcher has its hint. */
  lemma HintFires(hint: Bytes, chunks: seq<Bytes>)
    ensures Fits(OneHint(hint), Fresh(OneHint(hint)))
    ensures ObservedAll(OneHint(hint), chunks).ev.line[0] <==> HasHint(Scanned(Heeded(chunks)), hint)
  {
    hide ObservedAll, Scanned, Heeded, Contains, TrimLine;
    var cfg, lines := OneHint(hint), Scanned(Heeded(chunks));
    ScannedMeaning(cfg, chunks);
    forall j: nat | j < |lines| ensures FiresOn(cfg, lines, j, cfg.line[0]) <==> LineHas(lines, j, hint) {
    }
    if HasHint(lines, hint) {
      var j: nat :| j < |lines| && LineHas(lines, j, hint);
      assert FiresOn(cfg, lines, j, cfg.line[0]);
    }
  }

  lemma {:induction false} TrimShorter(b: Bytes)
    ensures |TrimLine(b)| <= |b|
  {
    if b != [] {
      TrimShorter(b[..|b| - 1]);
    }
  }

  /**
   * Every stream with a finished line whose text is longer than maxTail loses evidence to a cut: the
   * hint that is this text fires when the stream comes whole and not when it comes byte by byte.
   */
  lemma LongLinesMatter(s: Bytes, i: nat) returns (cfg: Config)
    requires i < |Complete(s)| && |TrimLine(Complete(s)[i])| > MAX_TAIL
    ensures cfg == OneHint(TrimLine(Complete(s)[i])) && Fits(cfg, Fresh(cfg)) && Stream([s]) == Stream(ByteByByte(s)) == s
    ensures ObservedAll(cfg, [s]).ev.line[0] && !ObservedAll(cfg, ByteByByte(s)).ev.line[0]
  {
    hide Tail, Complete, Scanned, Heeded, Stream, ByteByByte, TrimLine, Contains, OneHint, ObservedAll;
    var hint := TrimLine(Complete(s)[i]);
    cfg := OneHint(hint);
    HintFires(hint, [s]);
    HintFires(hint, ByteByByte(s));
    InOnePiece(s);
    ByteStream(s);
    ContainsSelf(hint);
    assert LineHas(Complete(s), i, hint);
    ByteHeeded(s);
    var h := if |s| > OBSERVE_BUDGET then s[..OBSERVE_BUDGET + 1] else s;
    var lines := Scanned(ByteByByte(h));
    ByteLinesShort(h);
    forall j: nat | j < |lines| ensures !LineHas(lines, j, hint) {
      TrimShorter(lines[j]);
      ContainsLonger(TrimLine(lines[j]), hint);
    }
  }

  lemma ContainsSelf(b: Bytes)
    ensures Contains(b, b)
  {
    assert OccursAt(b, b, 0);
  }

  lemma ContainsLonger(b: Bytes, hint: Bytes)
    requires |hint| > |b|
    ensures !Contains(b, hint)
  {
  }

  // ---------------------------------------------------------------------- relays

  /** Lines without the marker are nothing to a marked relay. */
  lemma {:induction false} Unmarked(cfg: Config, ev: Evidence, lines: seq<Bytes>)
    requires Fits(cfg, ev) && Hop(cfg, ev) && cfg.marker.Some?
    requires forall j: nat :: j < |lines| ==> !Marks(cfg, lines, j)
    ensures LinesSeen(cfg, ev, lines) == ev
  {
    hide TrimLine, Contains, LineRules, Marks;
    if lines != [] {
      var init := lines[..|lines| - 1];
      forall j: nat | j < |init| ensures !Marks(cfg, init, j) {
        MarksInit(cfg, lines, |init|, j);
      }
      Unmarked(cfg, ev, init);
      assert !Marks(cfg, lines, |lines| - 1);
      LastUnmarked(cfg, ev, lines);
    }
  }

  lemma MarksInit(cfg: Config, lines: seq<Bytes>, n: nat, j: nat)
    requires j < n <= |lines|
    ensures Marks(cfg, lines[..n], j) <==> Marks(cfg, lines, j)
  {
  }

  lemma LastUnmarked(cfg: Config, ev: Evidence, lines: seq<Bytes>)
    requires lines != [] && Fits(cfg, ev) && Hop(cfg, ev) && cfg.marker.Some? && !Marks(cfg, lines, |lines| - 1)
    ensures LineSeen(cfg, ev, TrimLine(lines[|lines| - 1])) == ev
  {
  }

  /** A marked relay gains no output evidence before its marker line. */
  lemma SilentBeforeMarker(cfg: Config, d: Detection, p: Bytes)
    requires Fits(cfg, d.ev) && Hop(cfg, d.ev) && cfg.marker.Some?
    requires forall j: nat :: j < |Complete(d.tail + p)| ==> !Marks(cfg, Complete(d.tail + p), j)
    ensures Observed(cfg, d, p).ev == d.ev
  {
    hide Complete, Tail, TrimSpaces, Marks, LinesSeen;
    if !d.done {
      Unmarked(cfg, d.ev, Complete(d.tail + p));
    }
  }

  /** From the marker line on, the rest of the chunk is scanned as the target's. */
  lemma MarkerPasses(cfg: Config, ev: Evidence, lines: seq<Bytes>, j: nat)
    requires Fits(cfg, ev) && Hop(cfg, ev) && cfg.marker.Some?
    requires j < |lines| && Marks(cfg, lines, j) && forall k: nat :: k < j ==> !Marks(cfg, lines, k)
    ensures LinesSeen(cfg, ev, lines) == LinesSeen(cfg, ev.(passed := true), lines[j + 1..])
  {
    hide Contains, TrimLine, LineRules, Marks;
    forall k: nat | k < j ensures !Marks(cfg, lines[..j], k) {
      MarksInit(cfg, lines, j, k);
    }
    Unmarked(cfg, ev, lines[..j]);
    LinesConcat(cfg, ev, lines[..j + 1], lines[j + 1..]);
    assert lines[..j + 1] + lines[j + 1..] == lines;
    assert lines[..j + 1][..j] == lines[..j];
    MarkHit(cfg, ev, lines, j);
  }

  lemma MarkHit(cfg: Config, ev: Evidence, lines: seq<Bytes>, j: nat)
    requires j < |lines| && Fits(cfg, ev) && Hop(cfg, ev) && cfg.marker.Some? && Marks(cfg, lines, j)
    ensures LineSeen(cfg, ev, TrimLine(lines[j])) == ev.(passed := true)
  {
  }
}
