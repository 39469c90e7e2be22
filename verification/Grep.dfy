/** Streaming grep over a snapshot of the scrollback, against a naive grep of its lines. */
module Grep {
  import opened Wrappers
  import opened ByteLines

  /** The compression library: any pair of functions; see Lossless. */
  datatype Codec = Codec(enc: Bytes -> Bytes, dec: Bytes -> Option<Bytes>) {
    ghost predicate Lossless() {
      forall b: Bytes :: dec(enc(b)) == Some(b)
    }
  }

  /** A compiled pattern: its source text and the lines it matches. */
  datatype Regexp = Regexp(text: string, matches: Bytes -> bool)

  datatype GrepOpts = GrepOpts(invert: bool, ignoreCase: bool, after: int, before: int, maxMatches: int)

  datatype Match = Match(lineNo: nat, line: Bytes, before: seq<Bytes>, after: seq<Bytes>)

  /** An immutable snapshot of one chunk. */
  datatype ChunkView = ChunkView(raw: Option<Bytes>, comp: Option<Bytes>) {
    ghost predicate Readable(codec: Codec) {
      raw.Some? || (comp.Some? && codec.dec(comp.value).Some?)
    }

    ghost function Content(codec: Codec): Bytes
      requires Readable(codec)
    {
      if raw.Some? then raw.value else codec.dec(comp.value).value
    }
  }

  // ---------------------------------------------------------------- naive grep

  function Pos(x: int): nat { if x > 0 then x else 0 }

  function Min(a: int, b: int): int { if a < b then a else b }

  predicate Selected(re: Regexp, opts: GrepOpts, line: Bytes) {
    re.matches(line) != opts.invert
  }

  /** Indices at or above i of the selected lines, ascending. */
  function HitsFrom(lines: seq<Bytes>, i: nat, re: Regexp, opts: GrepOpts): seq<nat>
    requires i <= |lines|
    decreases |lines| - i
  {
    if i == |lines| then []
    else if Selected(re, opts, lines[i]) then [i] + HitsFrom(lines, i + 1, re, opts)
    else HitsFrom(lines, i + 1, re, opts)
  }

  /** The matches still allowed when `used` were already delivered (max <= 0: no limit). */
  function Capped(hits: seq<nat>, max: int, used: nat): (r: seq<nat>)
  {
    if max > 0 then hits[..Min(|hits|, Pos(max - used))] else hits
  }

  /** The match at index i with its context clipped to the lines at hand. */
  function MatchAt(lines: seq<Bytes>, base: nat, i: nat, opts: GrepOpts): Match
    requires i < |lines|
  {
    Match(base + i, lines[i],
          lines[Pos(i - Pos(opts.before))..i],
          lines[i + 1..Min(|lines|, i + 1 + Pos(opts.after))])
  }

  function MatchesAt(lines: seq<Bytes>, base: nat, hits: seq<nat>, opts: GrepOpts): (ms: seq<Match>)
    requires forall k :: 0 <= k < |hits| ==> hits[k] < |lines|
    ensures |ms| == |hits|
  {
    seq(|hits|, k requires 0 <= k < |hits| => MatchAt(lines, base, hits[k], opts))
  }

  lemma {:induction false} HitsInRange(lines: seq<Bytes>, i: nat, re: Regexp, opts: GrepOpts)
    requires i <= |lines|
    ensures forall k :: 0 <= k < |HitsFrom(lines, i, re, opts)| ==>
              i <= HitsFrom(lines, i, re, opts)[k] < |lines| && Selected(re, opts, lines[HitsFrom(lines, i, re, opts)[k]])
    decreases |lines| - i
  {
    if i < |lines| {
      HitsInRange(lines, i + 1, re, opts);
    }
  }

  /** What grep delivers from index i on, `used` matches having been delivered before. */
  function GrepFrom(lines: seq<Bytes>, base: nat, i: nat, used: nat, re: Regexp, opts: GrepOpts): seq<Match>
    requires i <= |lines|
  {
    HitsInRange(lines, i, re, opts);
    MatchesAt(lines, base, Capped(HitsFrom(lines, i, re, opts), opts.maxMatches, used), opts)
  }

  /** grep of a list of lines whose first line has absolute number base. */
  function NaiveGrep(lines: seq<Bytes>, base: nat, re: Regexp, opts: GrepOpts): seq<Match> {
    GrepFrom(lines, base, 0, 0, re, opts)
  }

  /** One line further: either it is the next match or it changes nothing. */
  lemma GrepStep(lines: seq<Bytes>, base: nat, i: nat, used: nat, re: Regexp, opts: GrepOpts)
    requires i < |lines| && (opts.maxMatches > 0 ==> used < opts.maxMatches)
    ensures GrepFrom(lines, base, i, used, re, opts)
         == if Selected(re, opts, lines[i])
            then [MatchAt(lines, base, i, opts)] + GrepFrom(lines, base, i + 1, used + 1, re, opts)
            else GrepFrom(lines, base, i + 1, used, re, opts)
  {
    HitsInRange(lines, i, re, opts);
    HitsInRange(lines, i + 1, re, opts);
    var rest := HitsFrom(lines, i + 1, re, opts);
    if Selected(re, opts, lines[i]) {
      assert Capped([i] + rest, opts.maxMatches, used) == [i] + Capped(rest, opts.maxMatches, used + 1);
    }
  }

  lemma GrepEnd(lines: seq<Bytes>, base: nat, i: nat, used: nat, re: Regexp, opts: GrepOpts)
    requires i <= |lines| && (i == |lines| || 0 < opts.maxMatches <= used)
    ensures GrepFrom(lines, base, i, used, re, opts) == []
  {
  }

  /** The hits are exactly the selected lines, each once, in ascending order. */
  lemma {:induction false} HitsExact(lines: seq<Bytes>, i: nat, re: Regexp, opts: GrepOpts)
    requires i <= |lines|
    ensures var h := HitsFrom(lines, i, re, opts);
            && (forall j, k :: 0 <= j < k < |h| ==> h[j] < h[k])
            && (forall n :: i <= n < |lines| && Selected(re, opts, lines[n]) ==> n in h)
            && (forall n :: n in h ==> i <= n < |lines| && Selected(re, opts, lines[n]))
    decreases |lines| - i
  {
    if i < |lines| {
      HitsExact(lines, i + 1, re, opts);
      HitsInRange(lines, i + 1, re, opts);
    }
  }

  /** Match m is line n: its number, its text and the lines around it, fewer at the ends. */
  predicate IsMatchAt(lines: seq<Bytes>, base: nat, m: Match, n: nat, opts: GrepOpts)
    requires n < |lines|
  {
    && m.lineNo == base + n && m.line == lines[n]
    && |m.before| == Min(Pos(opts.before), n) && m.before == lines[n - |m.before|..n]
    && |m.after| == Min(Pos(opts.after), |lines| - n - 1) && m.after == lines[n + 1..n + 1 + |m.after|]
  }

  lemma MatchAtIs(lines: seq<Bytes>, base: nat, i: nat, opts: GrepOpts)
    requires i < |lines|
    ensures var m := MatchAt(lines, base, i, opts);
            m.lineNo == base + i && m.line == lines[i] && IsMatchAt(lines, base, m, i, opts)
  {
  }

  lemma CappedIs(hits: seq<nat>, max: int)
    ensures Capped(hits, max, 0) <= hits
    ensures |Capped(hits, max, 0)| == if 0 < max < |hits| then max else |hits|
  {
  }

  /**
   * grep, said outright: every match is a line the pattern matches (with -v: does not match), with its context;
   * they come in ascending order; a line like that is left out only behind the last match the maximum allows.
   */
  lemma GrepExact(lines: seq<Bytes>, base: nat, re: Regexp, opts: GrepOpts)
    ensures var ms := NaiveGrep(lines, base, re, opts);
            && (forall j, k :: 0 <= j < k < |ms| ==> ms[j].lineNo < ms[k].lineNo)
            && (opts.maxMatches > 0 ==> |ms| <= opts.maxMatches)
            && (forall k :: 0 <= k < |ms| ==>
                  && base <= ms[k].lineNo < base + |lines|
                  && IsMatchAt(lines, base, ms[k], ms[k].lineNo - base, opts)
                  && (re.matches(ms[k].line) <==> !opts.invert))
            && (forall n :: 0 <= n < |lines| && (re.matches(lines[n]) <==> !opts.invert) ==>
                  Delivers(ms, base + n) || (|ms| == opts.maxMatches > 0 && AllBelow(ms, base + n)))
  {
    hide NaiveGrep, IsMatchAt, Delivers, AllBelow;
    var ms := NaiveGrep(lines, base, re, opts);
    var hits := GrepHits(lines, base, re, opts);
    forall n | 0 <= n < |lines| && (re.matches(lines[n]) <==> !opts.invert)
      ensures Delivers(ms, base + n) || (|ms| == opts.maxMatches > 0 && AllBelow(ms, base + n))
    {
      assert Selected(re, opts, lines[n]);
      NoneMissed(ms, hits, base, n);
    }
  }

  ghost predicate Delivers(ms: seq<Match>, lineNo: nat) {
    exists k :: 0 <= k < |ms| && ms[k].lineNo == lineNo
  }

  ghost predicate AllBelow(ms: seq<Match>, lineNo: nat) {
    forall k :: 0 <= k < |ms| ==> ms[k].lineNo < lineNo
  }

  lemma NoneMissed(ms: seq<Match>, hits: seq<nat>, base: nat, n: nat)
    requires |ms| <= |hits| && n in hits && forall k :: 0 <= k < |ms| ==> ms[k].lineNo == base + hits[k]
    requires forall j, k :: 0 <= j < k < |hits| ==> hits[j] < hits[k]
    ensures Delivers(ms, base + n) || (|ms| < |hits| && AllBelow(ms, base + n))
  {
    var k :| 0 <= k < |hits| && hits[k] == n;
    if k < |ms| {
      assert ms[k].lineNo == base + n;
    }
  }

  /** The matches belong to the first hits. */
  lemma GrepHits(lines: seq<Bytes>, base: nat, re: Regexp, opts: GrepOpts) returns (hits: seq<nat>)
    ensures forall j, k :: 0 <= j < k < |hits| ==> hits[j] < hits[k]
    ensures forall n: nat :: n in hits <==> n < |lines| && Selected(re, opts, lines[n])
    ensures var ms := NaiveGrep(lines, base, re, opts);
            && |ms| == (if 0 < opts.maxMatches < |hits| then opts.maxMatches else |hits|)
            && forall k :: 0 <= k < |ms| ==>
                 hits[k] < |lines| && ms[k].lineNo == base + hits[k] && ms[k].line == lines[hits[k]]
                 && IsMatchAt(lines, base, ms[k], hits[k], opts)
  {
    hide HitsFrom, MatchAt, IsMatchAt, Min, Capped, Selected;
    hits := HitsFrom(lines, 0, re, opts);
    HitsExact(lines, 0, re, opts);
    HitsInRange(lines, 0, re, opts);
    CappedIs(hits, opts.maxMatches);
    var ms := NaiveGrep(lines, base, re, opts);
    forall k | 0 <= k < |ms|
      ensures hits[k] < |lines| && ms[k].lineNo == base + hits[k] && ms[k].line == lines[hits[k]]
              && IsMatchAt(lines, base, ms[k], hits[k], opts)
    {
      MatchAtIs(lines, base, hits[k], opts);
    }
  }

  // ------------------------------------------------------------ the line stream

  ghost predicate AllReadable(chunks: seq<ChunkView>, codec: Codec) {
    forall k :: 0 <= k < |chunks| ==> chunks[k].Readable(codec)
  }

  ghost function ChunkLines(chunks: seq<ChunkView>, codec: Codec): seq<Bytes>
    requires AllReadable(chunks, codec)
  {
    if chunks == [] then [] else AllLines(chunks[0].Content(codec)) + ChunkLines(chunks[1..], codec)
  }

  /** The (?i) recompilation of a pattern, when asked for and possible. */
  function EffectiveRegexp(re: Regexp, ignoreCase: bool, compile: string -> Option<Regexp>): Regexp {
    if ignoreCase && !("(?i)" <= re.text) then
      match compile("(?i)" + re.text)
      case Some(re2) => re2
      case None => re
    else re
  }

  /** The pattern cannot tell apart what `fold` makes the same. */
  ghost predicate CaseBlind(re: Regexp, fold: Bytes -> Bytes) {
    forall a: Bytes, b: Bytes :: fold(a) == fold(b) ==> re.matches(a) == re.matches(b)
  }

  /** The pattern compiler ignores case exactly as its (?i) flag promises, and keeps the source text. */
  ghost predicate Compiles(compile: string -> Option<Regexp>, fold: Bytes -> Bytes) {
    forall text: string :: compile(text).Some? ==>
      compile(text).value.text == text && ("(?i)" <= text ==> CaseBlind(compile(text).value, fold))
  }

  /**
   * With -i the pattern searched for is blind to case, provided it can be compiled that way;
   * without -i, or when it cannot, it is the pattern given.
   */
  lemma CaseIgnored(re: Regexp, ignoreCase: bool, compile: string -> Option<Regexp>, fold: Bytes -> Bytes)
    requires Compiles(compile, fold) && compile(re.text) == Some(re)
    ensures var r := EffectiveRegexp(re, ignoreCase, compile);
            && (ignoreCase && ("(?i)" <= re.text || compile("(?i)" + re.text).Some?) ==> CaseBlind(r, fold))
            && (r != re ==> ignoreCase && r.text == "(?i)" + re.text && compile(r.text) == Some(r))
            && (!ignoreCase || "(?i)" <= re.text || compile("(?i)" + re.text).None? ==> r == re)
  {
    hide CaseBlind;
    var text := "(?i)" + re.text;
    assert text[..4] == "(?i)";
    assert compile(text).Some? ==> compile(text).value.text == text && CaseBlind(compile(text).value, fold);
    assert "(?i)" <= re.text ==> CaseBlind(compile(re.text).value, fold);
  }

  lemma FrontOf(all: seq<Bytes>, i: nat, look: seq<Bytes>, rest: seq<Bytes>, n: nat)
    requires i <= |all| && look + rest == all[i..] && n <= |look|
    ensures i + n <= |all| && look[..n] == all[i..i + n]
  {
    assert look[..n] == all[i..][..n];
  }

  class GrepIter {
    const re: Regexp
    const opts: GrepOpts
    const codec: Codec
    const chunks: seq<ChunkView>
    const active: Bytes
    var chunkIdx: nat
    var activeDone: bool
    var lines: seq<Bytes>
    var lineIdx: nat
    var look: seq<Bytes>
    var before: seq<Bytes>
    var globalLine: nat
    var matches: nat
    var err: bool

    ghost const all: seq<Bytes>  // the lines of the snapshot
    ghost const base: nat        // absolute number of the first

    constructor (re: Regexp, opts: GrepOpts, codec: Codec, chunks: seq<ChunkView>, active: Bytes, base: nat)
      requires AllReadable(chunks, codec)
      ensures Valid()
      ensures all == ChunkLines(chunks, codec) + AllLines(active)
      ensures this.base == base && this.re == re && this.opts == opts
      ensures Position() == 0 && matches == 0
    {
      this.re, this.opts, this.codec, this.chunks, this.active := re, opts, codec, chunks, active;
      this.chunkIdx, this.activeDone, this.lines, this.lineIdx := 0, false, [], 0;
      this.look, this.before, this.globalLine, this.matches, this.err := [], [], base, 0, false;
      this.all, this.base := ChunkLines(chunks, codec) + AllLines(active), base;
      new;
      assert chunks[0..] == chunks;
    }

    /** Lines not yet pulled from the snapshot. */
    ghost function Unpulled(): seq<Bytes>
      reads `lines, `lineIdx, `chunkIdx, `activeDone
      requires lineIdx <= |lines| && chunkIdx <= |chunks| && AllReadable(chunks, codec)
    {
      lines[lineIdx..] + ChunkLines(chunks[chunkIdx..], codec) + if activeDone then [] else AllLines(active)
    }

    /** How many lines of the snapshot were already examined. */
    ghost function Position(): int
      reads `globalLine
    {
      globalLine - base
    }

    /** The lookahead and the unpulled lines are what follows the position. */
    ghost predicate Streaming()
      reads this
    {
      && lineIdx <= |lines| && chunkIdx <= |chunks| && AllReadable(chunks, codec) && !err
      && 0 <= Position() <= |all|
      && look + Unpulled() == all[Position()..]
    }

    /** The lookbehind holds the lines just before `position`. */
    ghost predicate LooksBehind(position: int)
      reads `before
    {
      0 <= position <= |all| && before == all[Pos(position - Pos(opts.before))..position]
    }

    ghost predicate Valid()
      reads this
    {
      Streaming() && LooksBehind(Position())
    }

    /** The matches the iterator still has to deliver. */
    ghost function Remaining(): seq<Match>
      reads this
      requires Valid()
    {
      GrepFrom(all, base, Position(), matches, re, opts)
    }

    /** Delivers the next match of the naive grep, or reports the end. */
    method Next() returns (m: Match, ok: bool)
      requires Valid()
      modifies this
      ensures Valid()
      ensures ok == (old(Remaining()) != [])
      ensures ok ==> m == old(Remaining())[0] && Remaining() == old(Remaining())[1..]
      ensures !ok ==> Remaining() == []
    {
      hide GrepFrom, MatchAt, HitsFrom, MatchesAt, Capped, ChunkLines, AllLines, Selected, LooksBehind, Unpulled;
      m := Match(0, [], [], []);
      ok := false;
      if err || (opts.maxMatches > 0 && matches >= opts.maxMatches) {
        GrepEnd(all, base, Position(), matches, re, opts);
        return;
      }
      while true
        invariant Valid() && !ok
        invariant opts.maxMatches > 0 ==> matches < opts.maxMatches
        invariant Remaining() == old(Remaining())
        decreases |all| - Position()
      {
        FillLook(1);
        if err || |look| == 0 {
          GrepEnd(all, base, Position(), matches, re, opts);
          return;
        }
        GrepStep(all, base, Position(), matches, re, opts);
        m, ok := Examine();
        if ok {
          return;
        }
      }
    }

    /** Examines one line: a match with its context, or one more line to look back at. */
    method Examine() returns (m: Match, ok: bool)
      requires Valid() && look != []
      modifies this
      ensures Valid() && Position() == old(Position()) + 1
      ensures ok == Selected(re, opts, all[Position() - 1])
      ensures ok ==> m == MatchAt(all, base, Position() - 1, opts)
      ensures matches == old(matches) + if ok then 1 else 0
    {
      hide Unpulled, ChunkLines, MatchAt;
      m := Match(0, [], [], []);
      var lineNo := globalLine;
      var line := PopLook();
      ok := re.matches(line);
      if opts.invert {
        ok := !ok;
      }
      if !ok {
        PushBefore(line);
        return;
      }
      m := WithContext(lineNo, line);
      PushBefore(line);
      matches := matches + 1;
    }

    /** Moves past the first line of the lookahead. */
    method PopLook() returns (line: Bytes)
      requires Streaming() && look != []
      modifies this`look, this`globalLine
      ensures Streaming() && Position() == old(Position()) + 1
      ensures line == all[Position() - 1]
    {
      ghost var i := Position();
      line := look[0];
      assert line == all[i..][0];
      assert look[1..] + Unpulled() == all[i..][1..];
      look := look[1..];
      globalLine := globalLine + 1;
    }

    /** The match for the line just passed, with the context asked for. */
    method WithContext(lineNo: nat, line: Bytes) returns (m: Match)
      requires Streaming() && 0 < Position() && LooksBehind(Position() - 1)
      requires lineNo == globalLine - 1 && line == all[Position() - 1]
      modifies this`lines, this`lineIdx, this`chunkIdx, this`activeDone, this`err, this`look
      ensures Streaming() && m == MatchAt(all, base, Position() - 1, opts)
    {
      m := Match(lineNo, line, [], []);
      if opts.before > 0 {
        m := m.(before := before);
      }
      if opts.after > 0 {
        var after := LookAhead(opts.after);
        m := m.(after := after);
      }
    }

    /** Copies of the next a lines, or of all that are left. */
    method LookAhead(a: nat) returns (after: seq<Bytes>)
      requires Streaming()
      modifies this`lines, this`lineIdx, this`chunkIdx, this`activeDone, this`err, this`look
      ensures Streaming() && after == all[Position()..Min(|all|, Position() + a)]
    {
      hide ChunkLines, AllLines, AllReadable;
      FillLook(a);
      var n := a;
      if n > |look| {
        n := |look|;
      }
      FrontOf(all, Position(), look, Unpulled(), n);
      after := look[..n];
    }

    method PushBefore(line: Bytes)
      requires 0 < Position() <= |all| && line == all[Position() - 1] && LooksBehind(Position() - 1)
      modifies this`before
      ensures LooksBehind(Position())
    {
      if opts.before <= 0 {
        return;
      }
      before := before + [line];
      if |before| > opts.before {
        before := before[1..];
      }
    }

    /** Ensures n lines of lookahead, as far as the stream has them. */
    method FillLook(n: int)
      requires Streaming()
      modifies this`lines, this`lineIdx, this`chunkIdx, this`activeDone, this`err, this`look
      ensures Streaming()
      ensures old(look) <= look && (n <= |look| || look == all[Position()..])
    {
      hide Unpulled;
      while |look| < n
        invariant Streaming() && old(look) <= look
      {
        var line, ok := PullRaw();
        if !ok {
          return;
        }
        look := look + [line];
      }
    }

    /** Takes one line off the snapshot, decompressing chunk after chunk. */
    method PullRaw() returns (line: Bytes, ok: bool)
      requires lineIdx <= |lines| && chunkIdx <= |chunks| && AllReadable(chunks, codec) && !err
      modifies this`lines, this`lineIdx, this`chunkIdx, this`activeDone, this`err
      ensures lineIdx <= |lines| && chunkIdx <= |chunks| && !err
      ensures ok == (old(Unpulled()) != [])
      ensures ok ==> old(Unpulled()) == [line] + Unpulled()
      ensures !ok ==> Unpulled() == []
    {
      hide AllLines;
      line, ok := [], false;
      while true
        invariant lineIdx <= |lines| && chunkIdx <= |chunks| && !err && !ok
        invariant Unpulled() == old(Unpulled())
        decreases |chunks| - chunkIdx, !activeDone, |lines| - lineIdx
      {
        if lineIdx < |lines| {
          line, ok := lines[lineIdx], true;
          assert lines[lineIdx..] == [line] + lines[lineIdx + 1..];
          lineIdx := lineIdx + 1;
          return;
        }
        if chunkIdx < |chunks| {
          LoadChunk();
          if err {
            return;
          }
          continue;
        }
        if !activeDone {
          LoadActive();
          if |active| > 0 {
            continue;
          }
        }
        return;
      }
    }

    /** Splits the copy of the active bytes, the last part of the snapshot. */
    method LoadActive()
      requires lineIdx == |lines| && chunkIdx == |chunks| && AllReadable(chunks, codec) && !activeDone
      modifies this`lines, this`lineIdx, this`activeDone
      ensures lineIdx <= |lines| && activeDone && (active == [] ==> lineIdx == |lines|)
      ensures Unpulled() == old(Unpulled())
    {
      hide Complete, Tail;
      NoNLSplit([]);
      activeDone := true;
      if |active| > 0 {
        lines := SplitLines(active);
        lineIdx := 0;
      }
    }

    /** Decompresses the next chunk if need be and splits it into lines. */
    method LoadChunk()
      requires lineIdx == |lines| && chunkIdx < |chunks| && AllReadable(chunks, codec) && !err
      modifies this`lines, this`lineIdx, this`chunkIdx, this`err
      ensures lineIdx == 0 && chunkIdx == old(chunkIdx) + 1 && !err
      ensures Unpulled() == old(Unpulled())
    {
      hide Complete, Tail;
      var v := chunks[chunkIdx];
      assert chunks[chunkIdx..][0] == v && chunks[chunkIdx..][1..] == chunks[chunkIdx + 1..];
      chunkIdx := chunkIdx + 1;
      var raw := v.raw;
      if raw.None? {
        raw := codec.dec(v.comp.value);
      }
      err := raw.None?;
      if !err {
        lines := SplitLines(raw.value);
        lineIdx := 0;
      }
    }
  }
}
