/** The printing loop of `f9 grep`: overlapping context windows are merged. */
module GrepReport {
  import opened ByteLines
  import opened Grep

  /** "--", or a numbered line with ':' (isMatch) or '-'. */
  datatype OutLine = Sep | Row(no: nat, isMatch: bool, text: Bytes)

  /** What there is to print: lines from `base` on, the hits among them and the context asked for. */
  datatype Job = Job(lines: seq<Bytes>, base: nat, hits: seq<nat>, after: nat, before: nat) {

    ghost predicate Valid() {
      && (forall k :: 0 <= k < |hits| ==> hits[k] < |lines|)
      && (forall j, k :: 0 <= j < k < |hits| ==> hits[j] < hits[k])
    }

    predicate WithContext() { after > 0 || before > 0 }

    /** Line n lies in the window of some match. */
    ghost predicate Covered(n: int) {
      exists h :: h in hits && h - before <= n <= h + after
    }

    /** Line n lies in the window after an earlier match. */
    ghost predicate Trails(n: int) {
      exists h :: h in hits && h < n <= h + after
    }

    ghost function RowOf(n: nat): OutLine
      requires n < |lines|
    {
      Row(base + n + 1, n in hits && !Trails(n), lines[n])
    }

    /** What an ideal printer has written when it is about to print line n. */
    ghost function BeforeRow(n: nat): seq<OutLine>
      requires n <= |lines|
      decreases n, 1
    {
      if WithContext() && Report(n) != [] && !Covered(n - 1) then Report(n) + [Sep] else Report(n)
    }

    /** The ideal output for the first n lines: the covered ones in order, gaps marked. */
    ghost function Report(n: nat): seq<OutLine>
      requires n <= |lines|
      decreases n, 0
    {
      if n == 0 then []
      else if Covered(n - 1) then BeforeRow(n - 1) + [RowOf(n - 1)]
      else Report(n - 1)
    }

    lemma {:induction false} SkipUncovered(n: nat, m: nat)
      requires n <= m <= |lines| && forall i :: n <= i < m ==> !Covered(i)
      ensures Report(m) == Report(n)
    {
      if n < m {
        SkipUncovered(n, m - 1);
      }
    }

    /** First and one-past-last line of the window of hit k. */
    function From(k: nat): nat
      requires k < |hits|
    {
      Pos(hits[k] - before)
    }

    function To(k: nat): nat
      requires k < |hits| && hits[k] < |lines|
    {
      Min(|lines|, hits[k] + 1 + after)
    }

    /** Lines already settled once k matches were printed. */
    function Settled(k: nat): nat
      requires k <= |hits| && forall j :: 0 <= j < |hits| ==> hits[j] < |lines|
    {
      if k == 0 then 0 else To(k - 1)
    }

    /** Between what is settled and the next window nothing is covered. */
    lemma GapUncovered(k: nat, n: nat)
      requires Valid() && k <= |hits| && Settled(k) <= n < |lines| && (k < |hits| ==> n < From(k))
      ensures !Covered(n)
    {
      forall h | h in hits ensures !(h - before <= n <= h + after) {
        var j :| 0 <= j < |hits| && hits[j] == h;
      }
    }

    /** The last line of a window is covered. */
    lemma LastCovered(k: nat)
      requires Valid() && k < |hits|
      ensures 0 < Settled(k + 1) && Covered(Settled(k + 1) - 1) && From(k) <= hits[k] < To(k)
      ensures Settled(k) <= Settled(k + 1)
    {
      assert hits[k] in hits;
    }

    /** A covered line is written right after what precedes it. */
    lemma RowStep(n: nat)
      requires n < |lines| && Covered(n)
      ensures BeforeRow(n + 1) == Report(n + 1) == BeforeRow(n) + [RowOf(n)]
    {
    }

    /** In the unsettled part of a window only the hit itself is printed as a match. */
    lemma WindowRow(k: nat, n: nat)
      requires Valid() && k < |hits| && Settled(k) <= n && From(k) <= n < To(k)
      ensures Covered(n) && RowOf(n) == Row(base + n + 1, n == hits[k], lines[n])
    {
      assert hits[k] in hits;
      forall h | h in hits ensures n == hits[k] ==> !(h < n <= h + after) {
        var j :| 0 <= j < |hits| && hits[j] == h;
      }
      forall h | h in hits ensures n < hits[k] ==> h != n {
        var j :| 0 <= j < |hits| && hits[j] == h;
      }
    }
  }

  ghost predicate Ascends(out: seq<OutLine>) {
    forall i, j :: 0 <= i < j < |out| && out[i].Row? && out[j].Row? ==> out[i].no < out[j].no
  }

  /** "--" stands exactly at the gaps between consecutive rows, and only with context on. */
  ghost predicate GapsMarked(out: seq<OutLine>, withContext: bool) {
    && (forall i :: 0 <= i < |out| && out[i].Sep? ==>
          withContext && 0 < i < |out| - 1 && out[i - 1].Row? && out[i + 1].Row? && out[i - 1].no + 1 < out[i + 1].no)
    && (forall i :: 0 < i < |out| && withContext && out[i - 1].Row? && out[i].Row? ==> out[i - 1].no + 1 == out[i].no)
  }

  ghost function Rows(out: seq<OutLine>): set<OutLine> {
    set o | o in out && o.Row?
  }

  lemma RowsOfConcat(a: seq<OutLine>, b: seq<OutLine>)
    ensures Rows(a + b) == Rows(a) + Rows(b)
  {
  }

  /** The printed rows are the union of the windows: one row for every covered line. */
  lemma {:induction false} ReportRows(job: Job, n: nat)
    requires n <= |job.lines|
    ensures Rows(job.Report(n)) == set k | 0 <= k < n && job.Covered(k) :: job.RowOf(k)
  {
    hide Job.Covered, Job.RowOf;
    if n > 0 {
      ReportRows(job, n - 1);
      if job.Covered(n - 1) {
        job.RowStep(n - 1);
        var prev, row := job.BeforeRow(n - 1), job.RowOf(n - 1);
        RowsOfConcat(prev, [row]);
        RowsOfConcat(job.Report(n - 1), [Sep]);
        assert Rows([row]) == {row} by { IsRow(job, n - 1); }
        assert Rows([Sep]) == {};
      }
    }
  }

  lemma IsRow(job: Job, n: nat)
    requires n < |job.lines|
    ensures job.RowOf(n).Row? && job.RowOf(n).no == job.base + n + 1
  {
  }

  /** Line k lies in the window of a match. */
  ghost predicate InWindow(job: Job, k: nat) {
    exists h :: h in job.hits && h - job.before <= k <= h + job.after
  }

  /** Line k is a match that was not printed already as context behind an earlier one. */
  ghost predicate MarkedRow(job: Job, k: nat) {
    k in job.hits && forall h :: h in job.hits && h < k ==> h + job.after < k
  }

  /** What is printed, row by row: the lines in windows, numbered from one, a match marked unless it is behind an earlier one. */
  lemma ReportSays(job: Job, no: nat, isMatch: bool, text: Bytes)
    ensures Row(no, isMatch, text) in job.Report(|job.lines|) <==>
              exists k :: 0 <= k < |job.lines| && text == job.lines[k] && no == job.base + k + 1
                && InWindow(job, k) && (isMatch <==> MarkedRow(job, k))
  {
    hide Job.Report;
    var n := |job.lines|;
    ReportRows(job, n);
    var row := Row(no, isMatch, text);
    assert row in job.Report(n) <==> row in Rows(job.Report(n));
    forall k: nat | k < n ensures job.Covered(k) <==> InWindow(job, k) {
    }
    forall k: nat | k < n ensures job.RowOf(k) == Row(job.base + k + 1, MarkedRow(job, k), job.lines[k]) {
      assert job.Trails(k) <==> !(forall h :: h in job.hits && h < k ==> h + job.after < k);
    }
    if k :| 0 <= k < n && text == job.lines[k] && no == job.base + k + 1 && InWindow(job, k)
            && (isMatch <==> MarkedRow(job, k)) {
      assert row == job.RowOf(k);
    }
  }

  /** Line numbers strictly increase, and "--" appears exactly at the gaps. */
  lemma {:induction false} ReportOrder(job: Job, n: nat)
    requires n <= |job.lines|
    ensures Ascends(job.Report(n)) && GapsMarked(job.Report(n), job.WithContext())
    ensures LastRow(job, n)
  {
    hide Job.Covered, Ascends, GapsMarked;
    if n > 0 {
      ReportOrder(job, n - 1);
      var prev := job.Report(n - 1);
      if job.Covered(n - 1) {
        job.RowStep(n - 1);
        var row := job.RowOf(n - 1);
        forall o | o in prev && o.Row? ensures o.no < row.no {
          ReportRows(job, n - 1);
          assert o in Rows(prev);
        }
        PushRow(prev, job.WithContext(), row, job.BeforeRow(n - 1) != prev);
        assert job.Report(n) == prev + (if job.BeforeRow(n - 1) != prev then [Sep] else []) + [row];
      }
    } else {
      NoRows(job.WithContext());
    }
  }

  lemma NoRows(ctx: bool)
    ensures Ascends([]) && GapsMarked([], ctx)
  {
  }

  /** The output ends with a row: line n - 1 when that is covered, an earlier one otherwise. */
  ghost predicate LastRow(job: Job, n: nat)
    requires n <= |job.lines|
  {
    var out := job.Report(n);
    && (out != [] ==> out[|out| - 1].Row?)
    && (n > 0 && job.Covered(n - 1) ==> out != [] && out[|out| - 1].no == job.base + n)
    && (n > 0 && !job.Covered(n - 1) && out != [] ==> out[|out| - 1].no < job.base + n)
  }

  lemma PushRow(prev: seq<OutLine>, ctx: bool, row: OutLine, gap: bool)
    requires Ascends(prev) && GapsMarked(prev, ctx) && (prev != [] ==> prev[|prev| - 1].Row?)
    requires row.Row? && forall o :: o in prev && o.Row? ==> o.no < row.no
    requires gap <==> ctx && prev != [] && prev[|prev| - 1].no + 1 < row.no
    ensures var out := prev + (if gap then [Sep] else []) + [row];
            Ascends(out) && GapsMarked(out, ctx)
  {
    var out := prev + (if gap then [Sep] else []) + [row];
    forall i, j | 0 <= i < j < |out| && out[i].Row? && out[j].Row? ensures out[i].no < out[j].no {
      if i < |prev| {
        assert out[i] == prev[i] && prev[i] in prev;
      }
    }
    assert prev != [] ==> prev[|prev| - 1] in prev;
    PushGaps(prev, ctx, row, gap);
  }

  lemma PushGaps(prev: seq<OutLine>, ctx: bool, row: OutLine, gap: bool)
    requires GapsMarked(prev, ctx) && row.Row?
    requires prev != [] ==> prev[|prev| - 1].Row? && prev[|prev| - 1].no < row.no
    requires gap <==> ctx && prev != [] && prev[|prev| - 1].no + 1 < row.no
    ensures GapsMarked(prev + (if gap then [Sep] else []) + [row], ctx)
  {
    var out := prev + (if gap then [Sep] else []) + [row];
    forall i | 0 <= i < |prev| ensures out[i] == prev[i] {
    }
  }

  /** Progress through window k: lines below c are handled, n0 is the first that was new. */
  ghost predicate AtLine(job: Job, out: seq<OutLine>, last: int, n0: nat, last0: int, c: nat)
    requires c <= |job.lines| && n0 <= |job.lines|
  {
    && out == job.BeforeRow(if c <= n0 then n0 else c)
    && last == if c <= n0 then last0 else job.base + c - 1
  }

  /** Prints context lines a, a + 1, ..., leaving out those printed before. */
  method PrintContext(sofar: seq<OutLine>, sofarLast: int, texts: seq<Bytes>, start: nat,
                      ghost job: Job, ghost k: nat, ghost a: nat, ghost n0: nat, ghost last0: int)
    returns (out: seq<OutLine>, last: int)
    requires job.Valid() && k < |job.hits| && job.From(k) <= a <= a + |texts| <= job.To(k)
    requires start == job.base + a && texts == job.lines[a..a + |texts|]
    requires a + |texts| <= job.hits[k] || a > job.hits[k]
    requires job.Settled(k) <= n0 <= |job.lines| && (a < n0 ==> last0 == job.base + n0 - 1) && last0 < job.base + n0
    requires AtLine(job, sofar, sofarLast, n0, last0, a)
    ensures AtLine(job, out, last, n0, last0, a + |texts|)
  {
    hide Job.BeforeRow, Job.Report, Job.RowOf, Job.Covered, Job.Settled, Job.From;
    out, last := sofar, sofarLast;
    var idx := 0;
    while idx < |texts|
      invariant 0 <= idx <= |texts|
      invariant AtLine(job, out, last, n0, last0, a + idx)
    {
      var no := start + idx;
      if no <= last {
        idx := idx + 1;
        continue;
      }
      job.WindowRow(k, a + idx);
      job.RowStep(a + idx);
      out := out + [Row(no + 1, false, texts[idx])];
      last := no;
      idx := idx + 1;
    }
  }

  /** Drains the iterator and prints: exactly the ideal report of the naive grep. */
  method PrintMatches(it: GrepIter, after: int, before: int) returns (out: seq<OutLine>, count: nat)
    requires it.Valid() && it.Position() == 0 && it.matches == 0
    requires it.opts.after == after && it.opts.before == before
    modifies it
    ensures var hits := Capped(HitsFrom(it.all, 0, it.re, it.opts), it.opts.maxMatches, 0);
            && count == |hits|
            && out == Job(it.all, it.base, hits, Pos(after), Pos(before)).Report(|it.all|)
  {
    hide GrepFrom, HitsFrom, Capped, MatchAt, Job.Report, Job.BeforeRow, Job.From, GrepIter.Streaming, GrepIter.LooksBehind;
    ghost var job := JobOf(it, after, before);
    ghost var ms := it.Remaining();
    var withContext := after > 0 || before > 0;
    var last := -1;
    var printedAny := false;
    out, count := [], 0;
    while true
      invariant it.Valid() && count <= |ms| && it.Remaining() == ms[count..]
      invariant printedAny == (count > 0)
      invariant out == job.Report(job.Settled(count)) && (count > 0 ==> out != [])
      invariant last == if count == 0 then -1 else it.base + job.Settled(count) - 1
      decreases |ms| - count
    {
      var m, ok := it.Next();
      if !ok {
        break;
      }
      out, last := PrintMatch(out, last, m, withContext, printedAny, job, count);
      count := count + 1;
      printedAny := true;
    }
    Finish(job, count);
  }

  /** What a new iterator will have printed, and its matches in those terms. */
  lemma JobOf(it: GrepIter, after: int, before: int) returns (job: Job)
    requires it.Valid() && it.Position() == 0 && it.matches == 0
    requires it.opts.after == after && it.opts.before == before
    ensures var hits := Capped(HitsFrom(it.all, 0, it.re, it.opts), it.opts.maxMatches, 0);
            && job == Job(it.all, it.base, hits, Pos(after), Pos(before))
            && job.Valid() && |it.Remaining()| == |hits|
            && forall k :: 0 <= k < |hits| ==>
                 it.Remaining()[k] == Match(job.base + hits[k], job.lines[hits[k]],
                                            job.lines[job.From(k)..hits[k]], job.lines[hits[k] + 1..job.To(k)])
    ensures job.Report(0) == []
  {
    HitsExact(it.all, 0, it.re, it.opts);
    HitsInRange(it.all, 0, it.re, it.opts);
    job := Job(it.all, it.base, Capped(HitsFrom(it.all, 0, it.re, it.opts), it.opts.maxMatches, 0),
               Pos(after), Pos(before));
  }

  lemma Finish(job: Job, count: nat)
    requires job.Valid() && count == |job.hits|
    ensures job.Report(|job.lines|) == job.Report(job.Settled(count))
  {
    var n := job.Settled(count);
    forall i | n <= i < |job.lines| ensures !job.Covered(i) {
      job.GapUncovered(count, i);
    }
    job.SkipUncovered(n, |job.lines|);
  }

  /** One round of the loop: separator, leading context, the match, trailing context. */
  method PrintMatch(sofar: seq<OutLine>, sofarLast: int, m: Match, withContext: bool, printedAny: bool,
                    ghost job: Job, ghost k: nat)
    returns (out: seq<OutLine>, last: int)
    requires job.Valid() && k < |job.hits| && withContext == job.WithContext() && printedAny == (k > 0)
    requires m == Match(job.base + job.hits[k], job.lines[job.hits[k]],
                        job.lines[job.From(k)..job.hits[k]], job.lines[job.hits[k] + 1..job.To(k)])
    requires sofar == job.Report(job.Settled(k)) && (k > 0 ==> sofar != [])
    requires sofarLast == if k == 0 then -1 else job.base + job.Settled(k) - 1
    ensures out == job.Report(job.Settled(k + 1)) && out != []
    ensures last == job.base + job.Settled(k + 1) - 1
  {
    hide Job.BeforeRow, Job.Report, Job.RowOf, Job.Covered;
    out, last := sofar, sofarLast;
    job.LastCovered(k);
    var start := m.lineNo - |m.before|;
    ghost var i, d := job.hits[k], job.Settled(k);
    ghost var n0 := if job.From(k) > d then job.From(k) else d;
    ghost var last0 := last;
    BeforeFirst(job, k, n0);
    if withContext && printedAny && start > last + 1 {
      out := out + [Sep];
    }
    out, last := PrintContext(out, last, m.before, start, job, k, job.From(k), n0, last0);
    if m.lineNo > last {
      job.WindowRow(k, i);
      job.RowStep(i);
      out := out + [Row(m.lineNo + 1, true, m.line)];
      last := m.lineNo;
    }
    out, last := PrintContext(out, last, m.after, m.lineNo + 1, job, k, i + 1, n0, last0);
    EndOfWindow(job, k, n0);
  }

  lemma EndOfWindow(job: Job, k: nat, n0: nat)
    requires job.Valid() && k < |job.hits|
    requires n0 == if job.From(k) > job.Settled(k) then job.From(k) else job.Settled(k)
    ensures n0 <= job.Settled(k + 1)
    ensures job.BeforeRow(job.Settled(k + 1)) == job.Report(job.Settled(k + 1)) != []
  {
    job.LastCovered(k);
  }

  /** The first new line of window k is preceded by a separator exactly when there is a gap. */
  lemma BeforeFirst(job: Job, k: nat, n0: nat)
    requires job.Valid() && k < |job.hits| && (k > 0 ==> job.Report(job.Settled(k)) != [])
    requires n0 == if job.From(k) > job.Settled(k) then job.From(k) else job.Settled(k)
    ensures n0 <= |job.lines|
    ensures job.BeforeRow(n0) == job.Report(job.Settled(k))
              + if job.WithContext() && k > 0 && job.From(k) > job.Settled(k) then [Sep] else []
  {
    var d := job.Settled(k);
    forall i | d <= i < n0 ensures !job.Covered(i) {
      job.GapUncovered(k, i);
    }
    job.SkipUncovered(d, n0);
    if k > 0 {
      job.LastCovered(k - 1);
    }
  }
}
