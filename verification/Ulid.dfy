/** Message ids: 48 bits of milliseconds and 80 random bits as 26 Crockford base-32 characters
    (internal/wsclient/id.go), following the "Encoding" and "Sorting" sections of the ULID specification. */
module Ulid {
  import opened Json

  const CROCKFORD := "0123456789ABCDEFGHJKMNPQRSTVWXYZ"

  function Pow(b: nat, e: nat): (r: nat)
    requires b > 0
    ensures r > 0
  {
    if e == 0 then 1 else b * Pow(b, e - 1)
  }

  /** The number a big-endian digit sequence stands for. */
  function Value(b: nat, digits: seq<nat>): nat {
    if digits == [] then 0 else Value(b, digits[..|digits| - 1]) * b + digits[|digits| - 1]
  }

  ghost predicate Digits(b: nat, digits: seq<nat>) {
    forall i | 0 <= i < |digits| :: digits[i] < b
  }

  /** Digit i of the last `count` base-b digits of n. */
  function DigitOf(b: nat, n: nat, count: nat, i: nat): nat
    requires b > 0 && i < count
  {
    n / Pow(b, count - 1 - i) % b
  }

  function DigitsOf(b: nat, n: nat, count: nat): (digits: seq<nat>)
    requires b > 0
    ensures |digits| == count
  {
    seq(count, i requires 0 <= i < count => DigitOf(b, n, count, i))
  }

  // ---- positional arithmetic ----

  lemma MulLe(d: nat, a: nat, b: nat)
    requires a <= b
    ensures d * a <= d * b
  {
    assert d * b - d * a == d * (b - a);
  }

  lemma MulLess(d: nat, a: nat, b: nat)
    requires a < b
    ensures d * a + d <= d * b
  {
    MulLe(d, a + 1, b);
  }

  lemma Euclid(n: nat, d: nat)
    requires d > 0
    ensures n == d * (n / d) + n % d && n % d < d
  {}

  lemma Unique(d: nat, q: nat, r: nat, s: nat, t: nat)
    requires r < d && t < d && d * q + r == d * s + t
    ensures q == s && r == t
  {
    if q < s { MulLess(d, q, s); }
    if s < q { MulLess(d, s, q); }
  }

  lemma DivUnique(n: nat, d: nat, q: nat, r: nat)
    requires r < d && n == d * q + r
    ensures n / d == q && n % d == r
  {
    Euclid(n, d);
    Unique(d, q, r, n / d, n % d);
  }

  lemma Assoc(b: nat, k: nat, s: nat, t: nat)
    ensures b * (k * s + t) == (b * k) * s + b * t
  {}

  lemma DivDiv(n: nat, b: nat, k: nat)
    requires b > 0 && k > 0
    ensures b * k > 0 && n / (b * k) == n / b / k
    ensures n % (b * k) == n / b % k * b + n % b
  {
    var q, r := n / b, n % b;
    var s, t := q / k, q % k;
    Euclid(n, b);
    Euclid(q, k);
    Assoc(b, k, s, t);
    MulLess(b, t, k);
    DivUnique(n, b * k, s, t * b + r);
  }

  lemma DigitsAreSmall(b: nat, n: nat, count: nat)
    requires b > 0
    ensures Digits(b, DigitsOf(b, n, count))
  {
    forall i | 0 <= i < count ensures DigitOf(b, n, count, i) < b {
      Euclid(n / Pow(b, count - 1 - i), b);
    }
  }

  /** The digits of n stand for n itself, up to the part that does not fit. */
  lemma {:induction false} ValueOfDigits(b: nat, n: nat, count: nat)
    requires b > 1
    ensures Value(b, DigitsOf(b, n, count)) == n % Pow(b, count)
    decreases count
  {
    if count == 0 {
      assert n % 1 == 0;
    } else {
      ValueOfDigits(b, n / b, count - 1);
      ValueStep(b, n, count, Pow(b, count - 1));
    }
  }

  lemma ValueStep(b: nat, n: nat, count: nat, p: nat)
    requires b > 1 && count > 0 && p > 0 && p == Pow(b, count - 1)
    requires Value(b, DigitsOf(b, n / b, count - 1)) == n / b % p
    ensures Value(b, DigitsOf(b, n, count)) == n % Pow(b, count)
  {
    hide DigitsOf, Value, Pow;
    var digits := DigitsOf(b, n, count);
    DigitsShift(b, n, count);
    ValueSnoc(b, digits);
    PowSucc(b, count);
    DivDiv(n, b, p);
  }

  lemma PowSucc(b: nat, e: nat)
    requires b > 0 && e > 0
    ensures Pow(b, e) == b * Pow(b, e - 1)
  {}

  lemma ValueSnoc(b: nat, digits: seq<nat>)
    requires digits != []
    ensures Value(b, digits) == Value(b, digits[..|digits| - 1]) * b + digits[|digits| - 1]
  {}

  /** All digits but the last are those of the quotient. */
  lemma DigitsShift(b: nat, n: nat, count: nat)
    requires b > 1 && count > 0
    ensures DigitsOf(b, n, count)[..count - 1] == DigitsOf(b, n / b, count - 1)
    ensures DigitsOf(b, n, count)[count - 1] == n % b
  {
    forall i | 0 <= i < count - 1 ensures DigitOf(b, n, count, i) == DigitOf(b, n / b, count - 1, i) {
      DivDiv(n, b, Pow(b, count - 2 - i));
    }
    assert Pow(b, 0) == 1;
  }

  lemma Distribute(b: nat, v: nat, p: nat, w: nat)
    ensures (v * p + w) * b == v * (b * p) + w * b
  {
    assert v * p * b == v * (b * p);
  }

  lemma {:induction false} ValueConcat(b: nat, x: seq<nat>, y: seq<nat>)
    requires b > 0
    ensures Value(b, x + y) == Value(b, x) * Pow(b, |y|) + Value(b, y)
    decreases |y|
  {
    if y == [] {
      assert x + y == x;
    } else {
      var init, last := y[..|y| - 1], y[|y| - 1];
      assert (x + y)[..|x + y| - 1] == x + init;
      ValueConcat(b, x, init);
      var v, p, w := Value(b, x), Pow(b, |init|), Value(b, init);
      Distribute(b, v, p, w);
      ValueSnoc(b, x + y);
      ValueSnoc(b, y);
      PowSucc(b, |y|);
      hide Value, Pow;
    }
  }

  lemma {:induction false} ValueBound(b: nat, x: seq<nat>)
    requires b > 0 && Digits(b, x)
    ensures Value(b, x) < Pow(b, |x|)
    decreases |x|
  {
    if x != [] {
      var v, p := Value(b, x[..|x| - 1]), Pow(b, |x| - 1);
      ValueBound(b, x[..|x| - 1]);
      MulLess(b, v, p);
    }
  }

  /** x comes before y in lexicographic order. */
  predicate Before(x: seq<nat>, y: seq<nat>) {
    exists k :: 0 <= k < |x| && k < |y| && x[..k] == y[..k] && x[k] < y[k]
  }

  /** For digit sequences of one length, numeric order is lexicographic order. */
  lemma {:induction false} SmallerIsBefore(b: nat, x: seq<nat>, y: seq<nat>)
    requires b > 0 && Digits(b, x) && Digits(b, y) && |x| == |y| && Value(b, x) < Value(b, y)
    ensures Before(x, y)
    decreases |x|
  {
    if x != [] {
      var xs, ys := x[..|x| - 1], y[..|y| - 1];
      if Value(b, xs) < Value(b, ys) {
        SmallerIsBefore(b, xs, ys);
        var k :| 0 <= k < |xs| && xs[..k] == ys[..k] && xs[k] < ys[k];
        assert x[..k] == xs[..k] && y[..k] == ys[..k] && x[k] < y[k];
      } else {
        if Value(b, xs) > Value(b, ys) {
          MulLess(b, Value(b, ys), Value(b, xs));
        }
        SameValueSameDigits(b, xs, ys);
        assert x[|x| - 1] < y[|x| - 1];
      }
    }
  }

  lemma {:induction false} SameValueSameDigits(b: nat, x: seq<nat>, y: seq<nat>)
    requires b > 0 && Digits(b, x) && Digits(b, y) && |x| == |y| && Value(b, x) == Value(b, y)
    ensures x == y
    decreases |x|
  {
    if x != [] {
      var v, w := Value(b, x[..|x| - 1]), Value(b, y[..|y| - 1]);
      DivUnique(Value(b, x), b, v, x[|x| - 1]);
      DivUnique(Value(b, x), b, w, y[|y| - 1]);
      SameValueSameDigits(b, x[..|x| - 1], y[..|y| - 1]);
      assert x == x[..|x| - 1] + [x[|x| - 1]] && y == y[..|y| - 1] + [y[|y| - 1]];
    }
  }

  // ---- regrouping bits ----

  function Group(w: nat, bits: seq<nat>, i: nat): nat
    requires w * i + w <= |bits|
  {
    Value(2, bits[w * i..w * i + w])
  }

  function Groups(w: nat, bits: seq<nat>, count: nat): (groups: seq<nat>)
    requires w > 0 && |bits| == w * count
    ensures |groups| == count
  {
    seq(count, i requires 0 <= i < count => GroupBounds(w, i, count); Group(w, bits, i))
  }

  lemma GroupBounds(w: nat, i: nat, count: nat)
    requires i < count
    ensures w * i + w <= w * count
  {
    assert w * (i + 1) <= w * count;
  }

  /** Reading bits w at a time gives the same number in base 2^w. */
  lemma {:induction false} ValueOfGroups(w: nat, bits: seq<nat>, count: nat)
    requires w > 0 && |bits| == w * count
    ensures Value(Pow(2, w), Groups(w, bits, count)) == Value(2, bits)
    decreases count
  {
    if count > 0 {
      GroupBounds(w, count - 1, count);
      var cut := w * (count - 1);
      assert cut + w == w * count;
      var init, last := bits[..cut], bits[cut..];
      ValueOfGroups(w, init, count - 1);
      GroupsInit(w, bits, count);
      ValueSnoc(Pow(2, w), Groups(w, bits, count));
      assert bits == init + last;
      ValueConcat(2, init, last);
    }
  }

  lemma GroupsInit(w: nat, bits: seq<nat>, count: nat)
    requires w > 0 && count > 0 && |bits| == w * count && w * (count - 1) + w == w * count
    ensures Groups(w, bits, count)[..count - 1] == Groups(w, bits[..w * (count - 1)], count - 1)
    ensures Groups(w, bits, count)[count - 1] == Value(2, bits[w * (count - 1)..])
  {
    var cut := w * (count - 1);
    forall i | 0 <= i < count - 1 ensures Groups(w, bits, count)[i] == Groups(w, bits[..cut], count - 1)[i] {
      GroupBounds(w, i, count - 1);
      GroupPrefix(w, bits, cut, i);
    }
    assert bits[cut..cut + w] == bits[cut..];
  }

  lemma GroupPrefix(w: nat, bits: seq<nat>, cut: nat, i: nat)
    requires w * i + w <= cut <= |bits|
    ensures Group(w, bits[..cut], i) == Group(w, bits, i)
  {
    assert bits[..cut][w * i..w * i + w] == bits[w * i..w * i + w];
  }

  lemma MulAssoc(x: nat, y: nat, z: nat)
    ensures x * (y * z) == (x * y) * z
  {}

  lemma {:induction false} PowAdd(b: nat, x: nat, y: nat)
    requires b > 0
    ensures Pow(b, x + y) == Pow(b, x) * Pow(b, y)
    decreases x
  {
    if x > 0 {
      PowAdd(b, x - 1, y);
      PowSucc(b, x + y);
      PowSucc(b, x);
      hide Pow;
      MulAssoc(b, Pow(b, x - 1), Pow(b, y));
    }
  }

  lemma {:induction false} PowPow(b: nat, w: nat, k: nat)
    requires b > 0
    ensures Pow(Pow(b, w), k) == Pow(b, w * k)
    decreases k
  {
    if k > 0 {
      PowPow(b, w, k - 1);
      assert w * k == w + w * (k - 1);
      PowAdd(b, w, w * (k - 1));
    }
  }

  lemma SmallPowers()
    ensures Pow(2, 3) == 8 && Pow(2, 5) == 32 && Pow(2, 8) == 256
  {
    assert Pow(2, 1) == 2 && Pow(2, 2) == 4;
    assert Pow(2, 4) == 16 && Pow(2, 6) == 64 && Pow(2, 7) == 128;
  }

  // ---- the bits of the 16 bytes ----

  /** b[p/8] & (0x80 >> (p%8)). */
  function BitAt(bytes: seq<nat>, p: nat): nat
    requires p < 8 * |bytes|
  {
    DigitOf(2, bytes[p / 8], 8, p % 8)
  }

  function AllBits(bytes: seq<nat>): (bits: seq<nat>)
    ensures |bits| == 8 * |bytes|
  {
    seq(8 * |bytes|, p requires 0 <= p < 8 * |bytes| => BitAt(bytes, p))
  }

  /** The two zero bits in front make the length a multiple of five. */
  function Padded(bytes: seq<nat>): (bits: seq<nat>)
    ensures |bits| == 8 * |bytes| + 2
  {
    [0, 0] + AllBits(bytes)
  }

  lemma BitsAreBytes(bytes: seq<nat>)
    requires Digits(256, bytes)
    ensures Value(2, AllBits(bytes)) == Value(256, bytes)
  {
    var bits := AllBits(bytes);
    forall i | 0 <= i < |bytes| ensures Groups(8, bits, |bytes|)[i] == bytes[i] {
      assert bits[8 * i..8 * i + 8] == DigitsOf(2, bytes[i], 8);
      ValueOfDigits(2, bytes[i], 8);
      SmallPowers();
    }
    assert Groups(8, bits, |bytes|) == bytes;
    ValueOfGroups(8, bits, |bytes|);
    SmallPowers();
  }

  lemma PaddedValue(bytes: seq<nat>)
    requires Digits(256, bytes)
    ensures Value(2, Padded(bytes)) == Value(256, bytes) && Digits(2, Padded(bytes))
  {
    BitsAreBytes(bytes);
    ValueConcat(2, [0, 0], AllBits(bytes));
    assert [0, 0][..1] == [0];
    forall p | 0 <= p < 8 * |bytes| ensures BitAt(bytes, p) < 2 {
      DigitsAreSmall(2, bytes[p / 8], 8);
      assert DigitsOf(2, bytes[p / 8], 8)[p % 8] < 2;
    }
  }

  function IdDigits(bytes: seq<nat>): (digits: seq<nat>)
    requires |bytes| == 16
    ensures |digits| == 26
  {
    Groups(5, Padded(bytes), 26)
  }

  lemma IdDigitsValue(bytes: seq<nat>)
    requires |bytes| == 16 && Digits(256, bytes)
    ensures Digits(32, IdDigits(bytes)) && Value(32, IdDigits(bytes)) == Value(256, bytes)
  {
    PaddedValue(bytes);
    ValueOfGroups(5, Padded(bytes), 26);
    SmallPowers();
    forall i | 0 <= i < 26 ensures IdDigits(bytes)[i] < 32 {
      ValueBound(2, Padded(bytes)[5 * i..5 * i + 5]);
    }
  }

  // ---- what an id means ----

  /** The 128-bit number: 48 bits of the wrapped unsigned milliseconds, then the 80 entropy bits. */
  function IdNumber(unixMilli: int, entropy: seq<nat>): nat
    requires |entropy| == 10
  {
    unixMilli % 0x1_0000_0000_0000_0000 % Pow(256, 6) * Pow(256, 10) + Value(256, entropy)
  }

  function Encoded(digits: seq<nat>): (id: string)
    requires Digits(32, digits)
    ensures |id| == |digits|
  {
    seq(|digits|, i requires 0 <= i < |digits| => CROCKFORD[digits[i]])
  }

  /** The id of a number: its 26 base-32 digits in Crockford's alphabet. */
  function IdOf(n: nat): (id: string)
    ensures |id| == 26
  {
    DigitsAreSmall(32, n, 26);
    Encoded(DigitsOf(32, n, 26))
  }

  lemma BigPowers()
    ensures Pow(256, 6) * Pow(256, 10) == Pow(256, 16) == Pow(2, 128)
    ensures Pow(2, 128) == 8 * Pow(32, 25) && Pow(32, 26) == 32 * Pow(32, 25)
  {
    SmallPowers();
    PowAdd(256, 6, 10);
    PowPow(2, 8, 16);
    PowPow(2, 5, 25);
    PowAdd(2, 3, 125);
    PowSucc(32, 26);
    hide Pow;
  }

  lemma NumberFits(unixMilli: int, entropy: seq<nat>)
    requires |entropy| == 10 && Digits(256, entropy)
    ensures Value(256, entropy) < Pow(256, 10)
    ensures IdNumber(unixMilli, entropy) < Pow(2, 128) == 8 * Pow(32, 25)
    ensures IdNumber(unixMilli, entropy) < Pow(32, 26)
  {
    hide Pow, Value;
    BigPowers();
    ValueBound(256, entropy);
    var t, m, k := unixMilli % 0x1_0000_0000_0000_0000, Pow(256, 6), Pow(256, 10);
    Euclid(t, m);
    MulLess(k, t % m, m);
    assert k * (t % m) == t % m * k && k * m == m * k;
  }

  function EntropyOr0(entropy: Option<seq<nat>>): (e: seq<nat>) {
    if entropy.Some? then entropy.value else seq(10, _ => 0)
  }

  /** What newIDAt returns, character by character: digit 25-i of the 128-bit number in base 32. A failed
      entropy read leaves ten zero bytes. */
  method NewIdAt(unixMilli: int, entropy: Option<seq<nat>>) returns (id: string)
    requires entropy.Some? ==> |entropy.value| == 10 && Digits(256, entropy.value)
    ensures id == IdOf(IdNumber(unixMilli, EntropyOr0(entropy)))
  {
    hide Pow, Value, IdDigits, DigitOf, Encoded, IdNumber;
    var b := FillBytes(unixMilli, entropy);
    BytesValue(unixMilli, EntropyOr0(entropy));
    NumberFits(unixMilli, EntropyOr0(entropy));
    id := EncodeBytes(b);
    DigitsOfValue(b[..], IdNumber(unixMilli, EntropyOr0(entropy)));
  }

  method FillBytes(unixMilli: int, entropy: Option<seq<nat>>) returns (b: array<nat>)
    requires entropy.Some? ==> |entropy.value| == 10
    ensures fresh(b)
    ensures b[..] == DigitsOf(256, unixMilli % 0x1_0000_0000_0000_0000, 6) + EntropyOr0(entropy)
  {
    b := new nat[16];
    var ms := unixMilli % 0x1_0000_0000_0000_0000;
    for i := 0 to 6
      invariant forall k | 0 <= k < i :: b[k] == DigitOf(256, ms, 6, k)
    {
      PowPow(2, 8, 5 - i);
      SmallPowers();
      b[i] := ms / Pow(2, 40 - 8 * i) % 256;
    }
    for i := 6 to 16
      invariant forall k | 0 <= k < 6 :: b[k] == DigitOf(256, ms, 6, k)
      invariant forall k | 6 <= k < i :: b[k] == EntropyOr0(entropy)[k - 6]
    {
      b[i] := if entropy.Some? then entropy.value[i - 6] else 0;
    }
    assert forall k | 0 <= k < 16 :: b[k] == (DigitsOf(256, ms, 6) + EntropyOr0(entropy))[k];
  }

  method EncodeBytes(b: array<nat>) returns (id: string)
    requires b.Length == 16 && Digits(256, b[..])
    ensures Digits(32, IdDigits(b[..])) && id == Encoded(IdDigits(b[..]))
  {
    IdDigitsValue(b[..]);
    hide IdDigits, Digits, CROCKFORD;
    var out := new char[26];
    for i := 0 to 26
      invariant forall k | 0 <= k < i :: out[k] == CROCKFORD[IdDigits(b[..])[k]]
    {
      var v := EncodeGroup(b, i);
      out[i] := CROCKFORD[v];
    }
    id := out[..];
  }

  /** The inner loop: five bits shifted into v, those before the first byte being zero. */
  method EncodeGroup(b: array<nat>, i: nat) returns (v: nat)
    requires b.Length == 16 && i < 26
    ensures v == IdDigits(b[..])[i]
  {
    hide Value, Pow, Padded;
    ghost var bits := Padded(b[..]);
    v := 0;
    assert bits[5 * i..5 * i] == [] && Value(2, []) == 0 by { EmptyValue(2); }
    for j := 0 to 5
      invariant v == Value(2, bits[5 * i..5 * i + j])
    {
      NextBit(b[..], 5 * i, j);
      var p := i * 5 + j - 2;
      v := v * 2;
      if p >= 0 && DigitOf(2, b[p / 8], 8, p % 8) != 0 {
        v := v + 1;
      }
    }
  }

  lemma EmptyValue(b: nat)
    ensures Value(b, []) == 0
  {}

  lemma PaddedAt(bytes: seq<nat>, p: nat)
    requires p < 8 * |bytes| + 2
    ensures Padded(bytes)[p] == if p >= 2 then BitAt(bytes, p - 2) else 0
  {}

  lemma BitIsSmall(bytes: seq<nat>, p: nat)
    requires p < 8 * |bytes|
    ensures BitAt(bytes, p) == DigitOf(2, bytes[p / 8], 8, p % 8) < 2
  {
    hide Pow;
    Euclid(bytes[p / 8] / Pow(2, 7 - p % 8), 2);
  }

  lemma NextBit(bytes: seq<nat>, from: nat, j: nat)
    requires from + j < 8 * |bytes| + 2
    ensures var p := from + j - 2;
      Value(2, Padded(bytes)[from..from + j + 1]) ==
        2 * Value(2, Padded(bytes)[from..from + j]) + if p >= 0 then BitAt(bytes, p) else 0
    ensures var p := from + j - 2; p >= 0 ==> BitAt(bytes, p) == DigitOf(2, bytes[p / 8], 8, p % 8) < 2
  {
    hide Value, Padded, BitAt, DigitOf;
    var bits := Padded(bytes)[from..from + j + 1];
    assert bits[..j] == Padded(bytes)[from..from + j];
    ValueSnoc(2, bits);
    PaddedAt(bytes, from + j);
    if from + j >= 2 {
      BitIsSmall(bytes, from + j - 2);
    }
  }

  lemma BytesValue(unixMilli: int, e: seq<nat>)
    requires |e| == 10 && Digits(256, e)
    ensures var bytes := DigitsOf(256, unixMilli % 0x1_0000_0000_0000_0000, 6) + e;
      Digits(256, bytes) && Value(256, bytes) == IdNumber(unixMilli, e)
  {
    var ms := unixMilli % 0x1_0000_0000_0000_0000;
    DigitsAreSmall(256, ms, 6);
    ValueOfDigits(256, ms, 6);
    ValueConcat(256, DigitsOf(256, ms, 6), e);
  }

  lemma DigitsOfValue(bytes: seq<nat>, n: nat)
    requires |bytes| == 16 && Digits(256, bytes) && Value(256, bytes) == n < Pow(32, 26)
    ensures IdDigits(bytes) == DigitsOf(32, n, 26)
  {
    IdDigitsValue(bytes);
    DigitsAreSmall(32, n, 26);
    ValueOfDigits(32, n, 26);
    DivUnique(n, Pow(32, 26), 0, n);
    SameValueSameDigits(32, IdDigits(bytes), DigitsOf(32, n, 26));
  }

  // ---- consequences of the encoding ----

  /** Crockford's characters are in increasing order. */
  lemma AlphabetIncreases(i: nat, j: nat)
    requires i < j < 32
    ensures CROCKFORD[i] < CROCKFORD[j]
  {}

  /** They are digits and capital letters but I, L, O and U. */
  lemma AlphabetIsCrockfords(i: nat)
    requires i < 32
    ensures var c := CROCKFORD[i];
      '0' <= c <= '9' || ('A' <= c <= 'Z' && c != 'I' && c != 'L' && c != 'O' && c != 'U')
  {}

  predicate StringBefore(x: string, y: string) {
    exists k :: 0 <= k < |x| && k < |y| && x[..k] == y[..k] && x[k] < y[k]
  }

  lemma FirstCharacter(unixMilli: int, entropy: seq<nat>)
    requires |entropy| == 10 && Digits(256, entropy)
    ensures DigitOf(32, IdNumber(unixMilli, entropy), 26, 0) <= 7
    ensures IdOf(IdNumber(unixMilli, entropy))[0] <= '7'
  {
    hide Pow, Value, IdNumber;
    var n, p := IdNumber(unixMilli, entropy), Pow(32, 25);
    NumberFits(unixMilli, entropy);
    Euclid(n, p);
    if n / p >= 8 { MulLe(p, 8, n / p); }
    DivUnique(n / p, 32, 0, n / p);
    DigitsAreSmall(32, n, 26);
  }

  lemma SmallerNumberSortsFirst(m: nat, n: nat)
    requires m < n < Pow(32, 26)
    ensures StringBefore(IdOf(m), IdOf(n))
  {
    var x, y := DigitsOf(32, m, 26), DigitsOf(32, n, 26);
    DigitsAreSmall(32, m, 26);
    DigitsAreSmall(32, n, 26);
    ValueOfDigits(32, m, 26);
    ValueOfDigits(32, n, 26);
    DivUnique(m, Pow(32, 26), 0, m);
    DivUnique(n, Pow(32, 26), 0, n);
    SmallerIsBefore(32, x, y);
    var k :| 0 <= k < 26 && x[..k] == y[..k] && x[k] < y[k];
    AlphabetIncreases(x[k], y[k]);
    assert IdOf(m)[..k] == IdOf(n)[..k] by {
      forall i | 0 <= i < k ensures IdOf(m)[i] == IdOf(n)[i] {
        assert x[i] == x[..k][i] == y[..k][i] == y[i];
      }
    }
  }

  /** The 48-bit time of a millisecond timestamp. */
  function Time48(unixMilli: int): nat {
    unixMilli % 0x1_0000_0000_0000_0000 % Pow(256, 6)
  }

  lemma EarlierIsSmaller(t: int, e: seq<nat>, u: int, f: seq<nat>)
    requires |e| == 10 && Digits(256, e) && |f| == 10 && Time48(t) < Time48(u)
    ensures IdNumber(t, e) < IdNumber(u, f)
  {
    hide Pow, Value;
    var k, x, y := Pow(256, 10), Time48(t), Time48(u);
    NumberFits(t, e);
    MulLess(k, x, y);
    assert k * x == x * k && k * y == y * k;
  }

  /** An earlier 48-bit time always sorts first, whatever the entropy. */
  lemma EarlierSortsFirst(t: int, e: seq<nat>, u: int, f: seq<nat>)
    requires |e| == 10 && Digits(256, e) && |f| == 10 && Digits(256, f)
    requires Time48(t) < Time48(u)
    ensures StringBefore(IdOf(IdNumber(t, e)), IdOf(IdNumber(u, f)))
  {
    hide Pow, Value, IdNumber, IdOf, StringBefore;
    NumberFits(u, f);
    EarlierIsSmaller(t, e, u, f);
    SmallerNumberSortsFirst(IdNumber(t, e), IdNumber(u, f));
  }

  lemma SameNumber(t: int, e: seq<nat>, u: int, f: seq<nat>)
    requires |e| == 10 && Digits(256, e) && |f| == 10 && Digits(256, f) && IdNumber(t, e) == IdNumber(u, f)
    ensures Time48(t) == Time48(u) && e == f
  {
    if Time48(t) < Time48(u) { EarlierIsSmaller(t, e, u, f); }
    if Time48(u) < Time48(t) { EarlierIsSmaller(u, f, t, e); }
    hide Pow, Value;
    SameValueSameDigits(256, e, f);
  }

  /** Two ids are equal exactly when their 48-bit times and their entropies are. */
  lemma IdsAreInjective(t: int, e: seq<nat>, u: int, f: seq<nat>)
    requires |e| == 10 && Digits(256, e) && |f| == 10 && Digits(256, f)
    ensures IdOf(IdNumber(t, e)) == IdOf(IdNumber(u, f)) <==> Time48(t) == Time48(u) && e == f
  {
    hide Pow, Value, IdOf;
    var m, n := IdNumber(t, e), IdNumber(u, f);
    NumberFits(t, e);
    NumberFits(u, f);
    if IdOf(m) == IdOf(n) {
      if m < n { SmallerNumberSortsFirst(m, n); NotBeforeItself(IdOf(m)); }
      if n < m { SmallerNumberSortsFirst(n, m); NotBeforeItself(IdOf(m)); }
      SameNumber(t, e, u, f);
    }
  }

  lemma NotBeforeItself(x: string)
    ensures !StringBefore(x, x)
  {}
}
