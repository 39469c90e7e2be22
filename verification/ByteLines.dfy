/** Bytes, newlines and the splitting of a byte stream into lines. */
module ByteLines {

  newtype Byte = x: int | 0 <= x < 256

  type Bytes = seq<Byte>

  const NL: Byte := 10

  predicate NoNL(b: Bytes) {
    forall i :: 0 <= i < |b| ==> b[i] != NL
  }

  predicate OccursAt(hay: Bytes, needle: Bytes, i: nat) {
    i + |needle| <= |hay| && hay[i..i + |needle|] == needle
  }

  /** bytes.Contains. */
  predicate Contains(hay: Bytes, needle: Bytes) {
    exists i: nat | i <= |hay| :: OccursAt(hay, needle, i)
  }

  /** The newline-terminated lines of `b`, without their newlines. */
  function Complete(b: Bytes): seq<Bytes> {
    if b == [] then []
    else
      var init := b[..|b| - 1];
      if b[|b| - 1] == NL then Complete(init) + [Tail(init)] else Complete(init)
  }

  /** What follows the last newline of `b` (all of it when there is none). */
  function Tail(b: Bytes): Bytes {
    if b == [] || b[|b| - 1] == NL then [] else Tail(b[..|b| - 1]) + [b[|b| - 1]]
  }

  /** Positions of the newlines of `b`, shifted by `off`. */
  function Ends(b: Bytes, off: nat): seq<nat> {
    if b == [] then []
    else
      var init := b[..|b| - 1];
      if b[|b| - 1] == NL then Ends(init, off) + [off + |b| - 1] else Ends(init, off)
  }

  /** All lines of `b`; a trailing partial line counts when it is not empty. */
  function AllLines(b: Bytes): seq<Bytes> {
    Complete(b) + Trailing(Tail(b))
  }

  /** The last n bytes of b. */
  function LastBytes(b: Bytes, n: nat): Bytes {
    if |b| > n then b[|b| - n..] else b
  }

  function Trailing(t: Bytes): seq<Bytes> {
    if t == [] then [] else [t]
  }

  lemma {:induction false} TailHasNoNL(b: Bytes)
    ensures NoNL(Tail(b)) && |Tail(b)| <= |b|
  {
    if b != [] && b[|b| - 1] != NL {
      TailHasNoNL(b[..|b| - 1]);
    }
  }

  lemma {:induction false} TailIsSuffix(b: Bytes)
    ensures |Tail(b)| <= |b| && Tail(b) == b[|b| - |Tail(b)|..] && NoNL(Tail(b))
  {
    if b != [] && b[|b| - 1] != NL {
      TailIsSuffix(b[..|b| - 1]);
    }
  }

  lemma OneByte(b: Bytes, x: Byte)
    ensures Complete(b + [x]) == if x == NL then Complete(b) + [Tail(b)] else Complete(b)
    ensures Tail(b + [x]) == if x == NL then [] else Tail(b) + [x]
  {
    assert (b + [x])[..|b|] == b;
  }

  lemma {:induction false} TailAtLeast(b: Bytes, i: nat)
    requires i <= |b| && NoNL(b[i..])
    ensures |Tail(b)| >= |b| - i
  {
    if i < |b| {
      assert b[|b| - 1] == b[i..][|b| - 1 - i];
      assert forall k :: 0 <= k < |b| - 1 - i ==> b[..|b| - 1][i..][k] == b[i..][k];
      TailAtLeast(b[..|b| - 1], i);
    }
  }

  lemma {:induction false} CompleteHasNoNL(b: Bytes)
    ensures forall i :: 0 <= i < |Complete(b)| ==> NoNL(Complete(b)[i])
  {
    if b != [] {
      CompleteHasNoNL(b[..|b| - 1]);
      TailHasNoNL(b[..|b| - 1]);
    }
  }

  lemma {:induction false} NoNLSplit(b: Bytes)
    requires NoNL(b)
    ensures Complete(b) == [] && Tail(b) == b && forall off :: Ends(b, off) == []
  {
    if b != [] {
      NoNLSplit(b[..|b| - 1]);
      assert b == b[..|b| - 1] + [b[|b| - 1]];
    }
  }

  /** Splitting a longer stream only ever touches the unterminated tail. */
  lemma {:induction false} CompleteConcat(a: Bytes, b: Bytes)
    ensures Complete(a + b) == Complete(a) + Complete(Tail(a) + b)
    ensures Tail(a + b) == Tail(Tail(a) + b)
    decreases |b|
  {
    if b == [] {
      TailHasNoNL(a);
      NoNLSplit(Tail(a));
      assert a + b == a && Tail(a) + b == Tail(a);
    } else {
      var init := b[..|b| - 1];
      CompleteConcat(a, init);
      assert (a + b)[..|a + b| - 1] == a + init;
      assert (Tail(a) + b)[..|Tail(a) + b| - 1] == Tail(a) + init;
    }
  }

  lemma {:induction false} EndsConcat(a: Bytes, b: Bytes, off: nat)
    ensures Ends(a + b, off) == Ends(a, off) + Ends(b, off + |a|)
    decreases |b|
  {
    if b == [] {
      assert a + b == a;
    } else {
      var init := b[..|b| - 1];
      EndsConcat(a, init, off);
      assert (a + b)[..|a + b| - 1] == a + init;
    }
  }

  /** The last newline position separates the lines of `b` from its tail. */
  lemma {:induction false} EndsCut(b: Bytes)
    ensures |Ends(b, 0)| == |Complete(b)|
    ensures Ends(b, 0) == [] ==> NoNL(b)
    ensures Ends(b, 0) != [] ==>
      var cut := Ends(b, 0)[|Ends(b, 0)| - 1] + 1;
      && cut <= |b| && b[cut..] == Tail(b)
      && Complete(b[..cut]) == Complete(b) && Tail(b[..cut]) == []
  {
    if b != [] {
      var init := b[..|b| - 1];
      EndsCut(init);
      if b[|b| - 1] == NL {
        assert b[..|b|] == b && b[|b|..] == [];
      } else if Ends(init, 0) != [] {
        var cut := Ends(init, 0)[|Ends(init, 0)| - 1] + 1;
        assert b[..cut] == init[..cut];
        assert b[cut..] == init[cut..] + [b[|b| - 1]];
      }
    }
  }

  /** A stream that starts with a whole line. */
  lemma LineFirst(line: Bytes, rest: Bytes)
    requires NoNL(line)
    ensures Complete(line + [NL] + rest) == [line] + Complete(rest)
    ensures Tail(line + [NL] + rest) == Tail(rest)
    ensures Ends(line + [NL] + rest, 0) == [|line|] + Ends(rest, |line| + 1)
  {
    var head := line + [NL];
    assert head[..|head| - 1] == line;
    NoNLSplit(line);
    CompleteConcat(head, rest);
    assert [] + rest == rest;
    EndsConcat(head, rest, 0);
  }

  /** bytes.IndexByte(b, '\n'): -1 when there is no newline. */
  method IndexNL(b: Bytes) returns (j: int)
    ensures -1 <= j < |b|
    ensures j == -1 ==> NoNL(b)
    ensures j >= 0 ==> b[j] == NL && NoNL(b[..j])
  {
    j := 0;
    while j < |b|
      invariant 0 <= j <= |b|
      invariant NoNL(b[..j])
    {
      if b[j] == NL {
        return;
      }
      j := j + 1;
    }
    assert b[..j] == b;
    j := -1;
  }

  lemma SplitStep(b: Bytes, j: nat)
    requires j < |b| && b[j] == NL && NoNL(b[..j])
    ensures AllLines(b) == [b[..j]] + AllLines(b[j + 1..])
  {
    assert b == b[..j] + [NL] + b[j + 1..];
    LineFirst(b[..j], b[j + 1..]);
  }

  /** Splits raw into lines, dropping newlines and keeping a partial last line. */
  method SplitLines(raw: Bytes) returns (out: seq<Bytes>)
    ensures out == AllLines(raw)
  {
    hide Complete, Tail;
    out := [];
    var rest := raw;
    NoNLSplit([]);
    while |rest| > 0
      invariant out + AllLines(rest) == AllLines(raw)
    {
      var j := IndexNL(rest);
      if j < 0 {
        NoNLSplit(rest);
        out := out + [rest];
        break;
      }
      SplitStep(rest, j);
      out := out + [rest[..j]];
      rest := rest[j + 1..];
    }
  }
}
