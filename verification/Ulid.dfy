/** ULID text: the encoding loop over bits, and what it means: faithful and order-preserving. */
module Ulid {
  import opened Wrappers

  const ALPHABET := "0123456789ABCDEFGHJKMNPQRSTVWXYZ"
  const DIGITS: nat := 26

  function Pow2(k: nat): (r: nat)
    ensures r > 0
  {
    if k == 0 then 1 else 2 * Pow2(k - 1)
  }

  /** The big-endian number the bytes stand for. */
  function Value(b: seq<bv8>): nat {
    if b == [] then 0 else Value(b[..|b| - 1]) * 256 + b[|b| - 1] as nat
  }

  // ------------------------------------------------------------------ arithmetic

  lemma {:induction false} PowAdd(a: nat, b: nat)
    ensures Pow2(a + b) == Pow2(a) * Pow2(b)
  {
    if a > 0 {
      PowAdd(a - 1, b);
      assert Pow2(a + b) == 2 * Pow2(a - 1 + b);
    }
  }

  lemma DivStep(n: nat, k: nat)
    ensures n / Pow2(k + 1) == (n / Pow2(k)) / 2
  {
    PowUp(k);
    DivDiv(n, Pow2(k), 2);
  }

  lemma Distrib(a: int, x: int, y: int)
    ensures a * (x + y) == a * x + a * y
  {
  }

  lemma Assoc(a: int, b: int, c: int)
    ensures (a * b) * c == a * (b * c)
  {
  }

  lemma AtLeast(d: nat, t: int)
    ensures t >= 1 ==> d * t >= d
    ensures t <= -1 ==> d * t + d <= 0
  {
    Distrib(d, 1, t - 1);
    Distrib(d, -1, t + 1);
    NotNegative(d, t - 1);
    NotNegative(d, -t - 1);
    Negated(d, t + 1);
  }

  lemma Negated(d: int, t: int)
    ensures d * -t == -(d * t)
  {
  }

  lemma NotNegative(d: nat, t: int)
    ensures t >= 0 ==> d * t >= 0
  {
  }

  lemma Quotient(n: int, d: nat, q: int, r: nat)
    requires n == d * q + r && r < d
    ensures n / d == q && n % d == r
  {
    Distrib(d, n / d - q, q);
    AtLeast(d, n / d - q);
  }

  lemma DivDiv(n: nat, a: nat, b: nat)
    requires a > 0 && b > 0
    ensures a * b > 0 && n / (a * b) == (n / a) / b
  {
    var q, r := n / a, n % a;
    var p, s := q / b, q % b;
    Distrib(a, b * p, s);
    Assoc(a, b, p);
    Distrib(a, s, b - s);
    AtLeast(a, b - s);
    NotNegative(a, s);
    AtLeast(a, b);
    var rest := a * s + r;
    Quotient(n, a * b, p, rest);
  }

  /** One more low bit of a remainder. */
  lemma ModStep(q: nat, m: nat)
    ensures q % Pow2(m + 1) == 2 * ((q / 2) % Pow2(m)) + q % 2
  {
    var h := q / 2;
    var p, r := h / Pow2(m), h % Pow2(m);
    hide Pow2;
    PowUp(m);
    Assoc(2, Pow2(m), p);
    Quotient(q, Pow2(m + 1), p, 2 * r + q % 2);
  }

  // ------------------------------------------------------------------------ bits

  function Shr(x: bv8, k: nat): bv8
    requires k < 8
  {
    x >> k
  }

  lemma Shr0(x: bv8)
    ensures Shr(x, 0) as int == x as int / 1
  {
  }

  lemma Shr1(x: bv8)
    ensures Shr(x, 1) as int == x as int / 2
  {
  }

  lemma Shr2(x: bv8)
    ensures Shr(x, 2) as int == x as int / 4
  {
  }

  lemma Shr3(x: bv8)
    ensures Shr(x, 3) as int == x as int / 8
  {
  }

  lemma Shr4(x: bv8)
    ensures Shr(x, 4) as int == x as int / 16
  {
  }

  lemma Shr5(x: bv8)
    ensures Shr(x, 5) as int == x as int / 32
  {
  }

  lemma Shr6(x: bv8)
    ensures Shr(x, 6) as int == x as int / 64
  {
  }

  lemma Shr7(x: bv8)
    ensures Shr(x, 7) as int == x as int / 128
  {
  }

  lemma Powers()
    ensures Pow2(0) == 1 && Pow2(1) == 2 && Pow2(2) == 4 && Pow2(3) == 8 && Pow2(4) == 16
    ensures Pow2(5) == 32 && Pow2(6) == 64 && Pow2(7) == 128 && Pow2(8) == 256
  {
    assert Pow2(2) == 4 && Pow2(4) == 16 && Pow2(6) == 64;
  }

  lemma ShrIs(x: bv8, k: nat)
    requires k < 8
    ensures Shr(x, k) as int == x as int / Pow2(k)
  {
    hide Pow2, Shr;
    Powers();
    match k
    case 0 => Shr0(x);
    case 1 => Shr1(x);
    case 2 => Shr2(x);
    case 3 => Shr3(x);
    case 4 => Shr4(x);
    case 5 => Shr5(x);
    case 6 => Shr6(x);
    case 7 => Shr7(x);
  }

  lemma ShiftBit(x: bv8, k: nat)
    requires k < 8
    ensures (Shr(x, k) & 1) as int == (x as int / Pow2(k)) % 2
  {
    hide Pow2, Shr;
    ShrIs(x, k);
    LowBit(Shr(x, k));
  }

  lemma PowUp(k: nat)
    ensures Pow2(0) == 1 && Pow2(k + 1) == 2 * Pow2(k)
  {
  }

  lemma LowBit(x: bv8)
    ensures (x & 1) as int == x as int % 2
  {
  }

  lemma PushBit(v: bv8, b: bv8)
    requires v < 128 && b <= 1
    ensures ((v << 1) | b) as int == 2 * v as int + b as int
  {
  }

  /** A bit of the number is a bit of one byte. */
  lemma {:induction false} BitOfValue(b: seq<bv8>, bit: nat)
    requires bit < 8 * |b|
    ensures (Value(b) / Pow2(bit)) % 2 == (b[|b| - 1 - bit / 8] as int / Pow2(bit % 8)) % 2
    decreases |b|
  {
    var init, last := b[..|b| - 1], b[|b| - 1] as int;
    Powers();
    if bit < 8 {
      LowByte(Value(init), last, bit);
    } else {
      BitOfValue(init, bit - 8);
      PowAdd(8, bit - 8);
      DivDiv(Value(b), 256, Pow2(bit - 8));
      Quotient(Value(b), 256, Value(init), last);
    }
  }

  lemma LowByte(high: nat, low: nat, bit: nat)
    requires bit < 8
    ensures ((high * 256 + low) / Pow2(bit)) % 2 == (low / Pow2(bit)) % 2
  {
    hide Pow2;
    PowAdd(bit, 8 - bit);
    PowUp(7 - bit);
    Powers();
    Below(high, low, Pow2(bit), Pow2(7 - bit));
  }

  lemma Below(high: nat, low: nat, p: nat, h: nat)
    requires p > 0 && p * (2 * h) == 256
    ensures ((high * 256 + low) / p) % 2 == (low / p) % 2
  {
    Assoc(p, 2 * h, high);
    Distrib(p, 2 * h * high, low / p);
    Quotient(high * 256 + low, p, 2 * h * high + low / p, low % p);
    Assoc(2, h, high);
    Even(h * high, low / p);
  }

  lemma Even(x: int, y: int)
    ensures (2 * x + y) % 2 == y % 2
  {
  }

  lemma {:induction false} ValueBound(b: seq<bv8>)
    ensures Value(b) < Pow2(8 * |b|)
  {
    if b != [] {
      ValueBound(b[..|b| - 1]);
      PowAdd(8, 8 * |b| - 8);
      Powers();
    }
  }

  lemma BitBeyond(n: nat, k: nat, bit: nat)
    requires n < Pow2(k) && bit >= k
    ensures n / Pow2(bit) == 0
  {
    hide Pow2;
    PowAdd(k, bit - k);
    AtLeast(Pow2(k), Pow2(bit - k));
    Quotient(n, Pow2(bit), 0, n);
  }

  /** Bits [start, start + 5) of the 128-bit number; those from 128 on read as zero. */
  method FiveBitsAt(b: array<bv8>, start: nat) returns (v: bv8)
    requires b.Length == 16
    ensures v as int == (Value(b[..]) / Pow2(start)) % 32
  {
    hide Pow2;
    ghost var n := Value(b[..]);
    v := 0;
    var k := 4;
    Powers();
    while k >= 0
      invariant -1 <= k <= 4
      invariant v as int == (n / Pow2(start + k + 1)) % Pow2(4 - k)
    {
      var bit := start + k;
      var val: bv8 := 0;
      if bit < 128 {
        val := Shr(b[15 - bit / 8], bit % 8) & 1;
        ShiftBit(b[15 - bit / 8], bit % 8);
        BitOfValue(b[..], bit);
      } else {
        ValueBound(b[..]);
        BitBeyond(n, 128, bit);
      }
      NextBit(n, bit, 4 - k, v, val);
      v := (v << 1) | val;
      k := k - 1;
    }
  }

  lemma NextBit(n: nat, bit: nat, m: nat, v: bv8, val: bv8)
    requires m <= 4 && v as int == (n / Pow2(bit + 1)) % Pow2(m) && val as int == (n / Pow2(bit)) % 2
    ensures ((v << 1) | val) as int == (n / Pow2(bit)) % Pow2(m + 1)
  {
    hide Pow2;
    DivStep(n, bit);
    ModStep(n / Pow2(bit), m);
    SmallPow(m);
    PushBit(v, val);
  }

  lemma SmallPow(m: nat)
    requires m <= 7
    ensures Pow2(m) <= 128
  {
    Powers();
  }

  // -------------------------------------------------------------------- the text

  function Digit(n: nat, i: nat): nat
    requires i < DIGITS
  {
    (n / Pow2(125 - 5 * i)) % 32
  }

  /** The text of a number: 26 digits, most significant first. */
  function Encode(n: nat): string {
    seq(DIGITS, i requires 0 <= i < DIGITS => ALPHABET[Digit(n, i)])
  }

  ghost function DigitOf(c: char): Option<nat> {
    if exists d: nat :: d < 32 && ALPHABET[d] == c
    then var d: nat :| d < 32 && ALPHABET[d] == c; Some(d)
    else None
  }

  /** The number a text stands for, if every character is a digit. */
  ghost function Decode(s: string): Option<nat> {
    if s == "" then Some(0)
    else
      match (Decode(s[..|s| - 1]), DigitOf(s[|s| - 1]))
      case (Some(high), Some(d)) => Some(high * 32 + d)
      case _ => None
  }

  lemma AlphabetIncreases(i: nat, j: nat)
    requires i < j < 32
    ensures ALPHABET[i] < ALPHABET[j]
    decreases j - i
  {
    if j > i + 1 {
      AlphabetIncreases(i, j - 1);
    }
    AlphabetStep(j - 1);
  }

  lemma AlphabetStep(i: nat)
    requires i < 31
    ensures ALPHABET[i] < ALPHABET[i + 1]
  {
  }

  lemma DigitRead(d: nat)
    requires d < 32
    ensures DigitOf(ALPHABET[d]) == Some(d)
  {
    var e := DigitOf(ALPHABET[d]).value;
    if e < d {
      AlphabetIncreases(e, d);
    } else if d < e {
      AlphabetIncreases(d, e);
    }
  }

  /** What the first i digits stand for. */
  function Leading(n: nat, i: nat): nat
    requires i <= DIGITS
  {
    Over(n, Pow2(130 - 5 * i))
  }

  function Over(n: nat, d: nat): nat
    requires d > 0
  {
    n / d
  }

  lemma LeadingStep(n: nat, i: nat)
    requires i < DIGITS
    ensures Leading(n, i + 1) == Leading(n, i) * 32 + Digit(n, i)
  {
    hide Pow2;
    Powers();
    PowAdd(125 - 5 * i, 5);
    DivDiv(n, Pow2(125 - 5 * i), 32);
  }

  lemma LeadingNone(n: nat)
    requires n < Pow2(130)
    ensures Leading(n, 0) == 0
  {
    hide Pow2;
    Quotient(n, Pow2(130), 0, n);
  }

  lemma LeadingAll(n: nat)
    ensures Leading(n, DIGITS) == n
  {
    Powers();
  }

  lemma {:induction false} DecodeLeading(n: nat, i: nat)
    requires n < Pow2(130) && i <= DIGITS
    ensures Decode(Encode(n)[..i]) == Some(Leading(n, i))
    decreases i
  {
    hide Pow2, Digit, Leading, DigitOf;
    if i == 0 {
      LeadingNone(n);
    } else {
      DecodeLeading(n, i - 1);
      LeadingStep(n, i - 1);
      DigitBound(n, i - 1);
      DigitRead(Digit(n, i - 1));
      assert Encode(n)[..i][..i - 1] == Encode(n)[..i - 1];
    }
  }

  lemma DigitBound(n: nat, i: nat)
    requires i < DIGITS
    ensures Digit(n, i) < 32
  {
  }

  /** Decoding the text gives the number back. */
  lemma RoundTrip(n: nat)
    requires n < Pow2(130)
    ensures Decode(Encode(n)) == Some(n)
  {
    hide Pow2;
    DecodeLeading(n, DIGITS);
    LeadingAll(n);
    assert Encode(n)[..DIGITS] == Encode(n);
  }

  // ---------------------------------------------------------------------- order

  /** Lexicographic order on strings. */
  predicate Before(s: string, t: string) {
    || (|s| < |t| && s == t[..|s|])
    || exists k :: 0 <= k < |s| && k < |t| && s[..k] == t[..k] && s[k] < t[k]
  }

  lemma {:induction false} SameLeading(a: nat, b: nat, i: nat)
    requires a < Pow2(130) && b < Pow2(130) && i <= DIGITS
    requires forall j :: 0 <= j < i ==> Digit(a, j) == Digit(b, j)
    ensures Leading(a, i) == Leading(b, i)
    decreases i
  {
    hide Pow2, Digit, Leading;
    if i == 0 {
      LeadingNone(a);
      LeadingNone(b);
    } else {
      SameLeading(a, b, i - 1);
      LeadingStep(a, i - 1);
      LeadingStep(b, i - 1);
    }
  }

  lemma LeadingMonotone(a: nat, b: nat, i: nat)
    requires i <= DIGITS && a <= b
    ensures Leading(a, i) <= Leading(b, i)
  {
    hide Pow2;
    DivMonotone(a, b, Pow2(130 - 5 * i));
  }

  lemma DivMonotone(a: nat, b: nat, d: nat)
    requires a <= b && d > 0
    ensures a / d <= b / d
  {
    AtLeast(d, a / d - b / d);
    Distrib(d, a / d - b / d, b / d);
  }

  /** Agreeing before k and smaller at k is being smaller. */
  lemma DecidedAt(a: nat, b: nat, k: nat)
    requires a < Pow2(130) && b < Pow2(130) && k < DIGITS && Digit(a, k) < Digit(b, k)
    requires forall j :: 0 <= j < k ==> Digit(a, j) == Digit(b, j)
    ensures a < b
  {
    hide Pow2, Digit, Leading;
    SameLeading(a, b, k);
    LeadingStep(a, k);
    LeadingStep(b, k);
    if b <= a {
      LeadingMonotone(b, a, k + 1);
    }
  }

  lemma DigitOrder(a: nat, b: nat, k: nat)
    requires k < DIGITS
    ensures Encode(a)[k] == Encode(b)[k] <==> Digit(a, k) == Digit(b, k)
    ensures Encode(a)[k] < Encode(b)[k] <==> Digit(a, k) < Digit(b, k)
  {
    hide Digit;
    DigitBound(a, k);
    DigitBound(b, k);
    if Digit(a, k) < Digit(b, k) {
      AlphabetIncreases(Digit(a, k), Digit(b, k));
    } else if Digit(b, k) < Digit(a, k) {
      AlphabetIncreases(Digit(b, k), Digit(a, k));
    }
  }

  lemma {:induction false} FirstDifference(a: nat, b: nat, i: nat) returns (k: nat)
    requires i <= DIGITS && a != b && a < Pow2(130) && b < Pow2(130)
    requires forall j :: 0 <= j < i ==> Digit(a, j) == Digit(b, j)
    ensures k < DIGITS && Digit(a, k) != Digit(b, k)
    ensures forall j :: 0 <= j < k ==> Digit(a, j) == Digit(b, j)
    decreases DIGITS - i
  {
    hide Pow2, Digit;
    if i == DIGITS {
      SameLeading(a, b, DIGITS);
      LeadingAll(a);
      LeadingAll(b);
      assert false;
    } else if Digit(a, i) != Digit(b, i) {
      k := i;
    } else {
      k := FirstDifference(a, b, i + 1);
    }
  }

  /** The texts are ordered as the numbers are. */
  lemma OrderIff(a: nat, b: nat)
    requires a < Pow2(130) && b < Pow2(130)
    ensures Before(Encode(a), Encode(b)) <==> a < b
  {
    hide Pow2, Digit, Encode;
    EncodeLength(a);
    EncodeLength(b);
    var s, t := Encode(a), Encode(b);
    if Before(s, t) {
      var k :| 0 <= k < |s| && k < |t| && s[..k] == t[..k] && s[k] < t[k];
      forall j | 0 <= j < k ensures Digit(a, j) == Digit(b, j) {
        DigitOrder(a, b, j);
        assert s[..k][j] == t[..k][j];
      }
      DigitOrder(a, b, k);
      DecidedAt(a, b, k);
    }
    if a < b {
      var k := FirstDifference(a, b, 0);
      if Digit(b, k) < Digit(a, k) {
        DecidedAt(b, a, k);
      }
      forall j | 0 <= j <= k ensures Digit(a, j) == Digit(b, j) <==> s[j] == t[j] {
        DigitOrder(a, b, j);
      }
      DigitOrder(a, b, k);
      assert s[..k] == t[..k];
    }
  }

  lemma EncodeLength(n: nat)
    ensures |Encode(n)| == DIGITS
  {
  }

  // ---------------------------------------------------------------------- an id

  /** The number of an id: the low 48 bits of the time above the 80 random ones. */
  function IdNumber(ms: nat, random: nat): nat {
    (ms % Pow2(48)) * Pow2(80) + random
  }

  /** The low k bits of a number. */
  function LowBits(n: nat, k: nat): bv8 {
    if k == 0 then 0 else (LowBits(n / 2, k - 1) << 1) | if n % 2 == 1 then 1 else 0
  }

  function ByteOf(n: nat): bv8 {
    LowBits(n, 8)
  }

  function Bytes(n: nat, count: nat): seq<bv8> {
    if count == 0 then [] else Bytes(n / 256, count - 1) + [ByteOf(n)]
  }

  lemma {:induction false} BytesValue(n: nat, count: nat)
    ensures Value(Bytes(n, count)) == n % Pow2(8 * count)
    decreases count
  {
    hide Pow2, Value, ByteOf;
    if count == 0 {
      Empty();
    } else {
      var p := Pow2(8 * count - 8);
      BytesValue(n / 256, count - 1);
      ByteValue(n);
      ValueSnoc(Bytes(n / 256, count - 1), ByteOf(n));
      PowAdd(8, 8 * count - 8);
      Powers();
      ModBytes(n, p);
    }
  }

  lemma Empty()
    ensures Value([]) == 0 && Pow2(0) == 1
  {
  }

  lemma ByteValue(n: nat)
    ensures ByteOf(n) as nat == n % 256
  {
    hide Pow2;
    LowBitsValue(n, 8);
    Powers();
  }

  lemma {:induction false} LowBitsValue(n: nat, k: nat)
    requires k <= 8
    ensures LowBits(n, k) as nat == n % Pow2(k)
    decreases k
  {
    hide Pow2;
    if k == 0 {
      PowUp(0);
    } else {
      LowBitsValue(n / 2, k - 1);
      SmallPow(k - 1);
      PushBit(LowBits(n / 2, k - 1), if n % 2 == 1 then 1 else 0);
      ModStep(n, k - 1);
    }
  }

  lemma ValueSnoc(b: seq<bv8>, x: bv8)
    ensures Value(b + [x]) == Value(b) * 256 + x as nat
  {
    assert (b + [x])[..|b|] == b;
  }

  lemma ModBytes(n: nat, p: nat)
    requires p > 0
    ensures n % (256 * p) == (n / 256) % p * 256 + n % 256
  {
    var h := n / 256;
    Distrib(256, p * (h / p), h % p);
    Assoc(256, p, h / p);
    Quotient(n, 256 * p, h / p, (h % p) * 256 + n % 256);
  }

  lemma {:induction false} ValueConcat(a: seq<bv8>, b: seq<bv8>)
    ensures Value(a + b) == Value(a) * Pow2(8 * |b|) + Value(b)
    decreases |b|
  {
    if b == [] {
      assert a + b == a && Pow2(0) == 1;
    } else {
      var init := b[..|b| - 1];
      ValueConcat(a, init);
      assert (a + b)[..|a + b| - 1] == a + init;
      PowAdd(8 * |b| - 8, 8);
      Powers();
      Assoc(Value(a), Pow2(8 * |b| - 8), 256);
    }
  }

  /** A new id from the time and ten random bytes. */
  method NewULID(ms: nat, random: seq<bv8>) returns (id: string)
    requires ms < 0x1_0000_0000_0000_0000 && |random| == 10
    ensures id == Encode(IdNumber(ms, Value(random))) && Value(random) < Pow2(80)
  {
    hide Pow2, Encode, Value;
    var b := new bv8[16];
    b[0] := ByteOf(ms / 0x100_0000_0000);
    b[1] := ByteOf(ms / 0x1_0000_0000);
    b[2] := ByteOf(ms / 0x100_0000);
    b[3] := ByteOf(ms / 0x1_0000);
    b[4] := ByteOf(ms / 0x100);
    b[5] := ByteOf(ms);
    ghost var head := b[..6];
    TimeBytes(ms, head);
    for i := 0 to 10
      invariant b[..6] == head && b[6..6 + i] == random[..i]
    {
      b[6 + i] := random[i];
    }
    assert b[..] == b[..6] + b[6..16] && random[..10] == random;
    ValueConcat(head, random);
    ValueBound(random);
    id := Text(b);
  }

  /** The 26 digits of a 128-bit number. */
  method Text(b: array<bv8>) returns (id: string)
    requires b.Length == 16
    ensures id == Encode(Value(b[..]))
  {
    hide Pow2, Encode, Value;
    ghost var n := Value(b[..]);
    EncodeLength(n);
    var out := new char[DIGITS];
    for i := 0 to DIGITS
      invariant out[..i] == Encode(n)[..i]
    {
      var v := FiveBitsAt(b, 125 - 5 * i);
      CharAt(n, i);
      out[i] := ALPHABET[v as int];
    }
    assert out[..] == out[..DIGITS] && Encode(n)[..DIGITS] == Encode(n);
    id := out[..];
  }

  lemma CharAt(n: nat, i: nat)
    requires i < DIGITS
    ensures Encode(n)[i] == ALPHABET[(n / Pow2(125 - 5 * i)) % 32]
  {
  }

  lemma TimeBytes(ms: nat, head: seq<bv8>)
    requires head == [ByteOf(ms / 0x100_0000_0000), ByteOf(ms / 0x1_0000_0000), ByteOf(ms / 0x100_0000),
                      ByteOf(ms / 0x1_0000), ByteOf(ms / 0x100), ByteOf(ms)]
    ensures Value(head) == ms % Pow2(48)
  {
    hide Pow2, Value, ByteOf, Bytes;
    TimeShifts(ms);
    NextByte(ms, 6);
    NextByte(ms / 0x100, 5);
    NextByte(ms / 0x1_0000, 4);
    NextByte(ms / 0x100_0000, 3);
    NextByte(ms / 0x1_0000_0000, 2);
    NextByte(ms / 0x100_0000_0000, 1);
    NoBytes(ms / 0x100_0000_0000 / 256);
    assert head == Bytes(ms, 6);
    BytesValue(ms, 6);
  }

  lemma TimeShifts(ms: nat)
    ensures ms / 0x100 / 256 == ms / 0x1_0000 && ms / 0x1_0000 / 256 == ms / 0x100_0000
    ensures ms / 0x100_0000 / 256 == ms / 0x1_0000_0000 && ms / 0x1_0000_0000 / 256 == ms / 0x100_0000_0000
  {
    ByteUp(ms, 0x100, 0x1_0000);
    ByteUp(ms, 0x1_0000, 0x100_0000);
    ByteUp(ms, 0x100_0000, 0x1_0000_0000);
    ByteUp(ms, 0x1_0000_0000, 0x100_0000_0000);
  }

  lemma ByteUp(n: nat, a: nat, c: nat)
    requires a > 0 && c == a * 256
    ensures n / a / 256 == n / c
  {
    DivDiv(n, a, 256);
  }

  lemma NextByte(n: nat, count: nat)
    requires count > 0
    ensures Bytes(n, count) == Bytes(n / 256, count - 1) + [ByteOf(n)]
  {
  }

  lemma NoBytes(n: nat)
    ensures Bytes(n, 0) == []
  {
  }

  /** Ids of a later millisecond sort after, as long as the milliseconds fit their 48 bits. */
  lemma LaterSortsAfter(ms1: nat, random1: nat, ms2: nat, random2: nat)
    requires ms1 < ms2 < Pow2(48) && random1 < Pow2(80) && random2 < Pow2(80)
    ensures Before(Encode(IdNumber(ms1, random1)), Encode(IdNumber(ms2, random2)))
  {
    hide Pow2, Encode;
    IdBound(ms1, random1);
    IdBound(ms2, random2);
    Quotient(ms1, Pow2(48), 0, ms1);
    Quotient(ms2, Pow2(48), 0, ms2);
    HighFirst(ms1, random1, ms2, random2, Pow2(80));
    OrderIff(IdNumber(ms1, random1), IdNumber(ms2, random2));
  }

  lemma HighFirst(a: nat, r: nat, b: nat, s: nat, p: nat)
    requires a < b && r < p
    ensures a * p + r < b * p + s
  {
    NotNegative(p, b - a - 1);
    Distrib(p, a + 1, b - a - 1);
    Distrib(p, a, 1);
  }

  /** An id's number fits 128 bits. */
  lemma IdBound(ms: nat, random: nat)
    requires random < Pow2(80)
    ensures IdNumber(ms, random) < Pow2(128) < Pow2(130)
  {
    hide Pow2;
    PowAdd(48, 80);
    PowAdd(128, 2);
    Powers();
    HighFirst(ms % Pow2(48), random, Pow2(48), 0, Pow2(80));
  }
}
