/** Little-endian words and decimal strings (util/conver.go). */
module Conver {
  import opened Bits

  const TWO16: nat := 0x1_0000
  const TWO32: nat := 0x1_0000_0000

  lemma BytePowers()
    ensures Pow2(8) == 0x100 && Pow2(16) == TWO16 && Pow2(24) == 0x100_0000 && Pow2(32) == TWO32
  {
    assert Pow2(4) == 16;
    Pow2Add(4, 4);
    Pow2Add(8, 8);
    Pow2Add(16, 8);
    Pow2Add(16, 16);
  }

  /** BytesToUint16: the little-endian value of the first two bytes. */
  function BytesToUint16(b: Bytes): (r: nat)
    requires |b| >= 2
    ensures r < TWO16
  {
    (b[0] as int) + 0x100 * (b[1] as int)
  }

  /** BytesToUint32: the little-endian value of the first four bytes. */
  function BytesToUint32(b: Bytes): (r: nat)
    requires |b| >= 4
    ensures r < TWO32
  {
    (b[0] as int) + 0x100 * (b[1] as int) + 0x1_0000 * (b[2] as int) + 0x100_0000 * (b[3] as int)
  }

  /** The code combines the bytes with shifts and ors; that is the same number. */
  lemma OrsAreTheSum(b: Bytes)
    requires |b| >= 4
    ensures BitOr(b[0], b[1] * Pow2(8)) == BytesToUint16(b)
    ensures BitOr(BitOr(BitOr(b[0], b[1] * Pow2(8)), b[2] * Pow2(16)), b[3] * Pow2(24)) == BytesToUint32(b)
  {
    BytePowers();
    OrDisjoint(b[0], b[1], 8);
    var low := (b[0] as int) + 0x100 * (b[1] as int);
    OrDisjoint(low, b[2], 16);
    OrDisjoint(low + 0x1_0000 * (b[2] as int), b[3], 24);
  }

  /** The two bytes CopyUint16 writes. */
  function Uint16Bytes(n: nat): (b: Bytes)
    ensures |b| == 2
  {
    [n % 0x100, n / 0x100 % 0x100]
  }

  /** The four bytes CopyUint32 writes. */
  function Uint32Bytes(n: nat): (b: Bytes)
    ensures |b| == 4
  {
    [n % 0x100, n / 0x100 % 0x100, n / 0x1_0000 % 0x100, n / 0x100_0000 % 0x100]
  }

  /** Writing a number and reading it back keeps its low 16 bits. */
  lemma Uint16RoundTrip(n: nat)
    ensures BytesToUint16(Uint16Bytes(n)) == n % TWO16
  {
  }

  /** Writing a number and reading it back keeps its low 32 bits. */
  lemma Uint32RoundTrip(n: nat)
    ensures BytesToUint32(Uint32Bytes(n)) == n % TWO32
  {
    var low, high := n % 0x1_0000, n / 0x1_0000;
    LowHalf(n);
    LowHalf(high);
    assert n / 0x100_0000 == high / 0x100;
    JoinHalves(n, low, high % 0x1_0000);
  }

  lemma LowHalf(n: nat)
    ensures n % 0x1_0000 == n % 0x100 + 0x100 * (n / 0x100 % 0x100)
  {
  }

  lemma JoinHalves(n: nat, low: nat, high: nat)
    requires low == n % 0x1_0000 && high == n / 0x1_0000 % 0x1_0000
    ensures n % TWO32 == low + 0x1_0000 * high
  {
  }

  /** CopyUint16 into a buffer at a given offset. */
  method CopyUint16(dst: array<byte>, at: nat, n: nat)
    requires at + 2 <= dst.Length
    modifies dst
    ensures dst[..] == old(dst[..at]) + Uint16Bytes(n) + old(dst[at + 2..])
  {
    var c := Uint16Bytes(n);
    dst[at] := c[0];
    dst[at + 1] := c[1];
  }

  /** CopyUint32 into a buffer at a given offset. */
  method CopyUint32(dst: array<byte>, at: nat, n: nat)
    requires at + 4 <= dst.Length
    modifies dst
    ensures dst[..] == old(dst[..at]) + Uint32Bytes(n) + old(dst[at + 4..])
  {
    var c := Uint32Bytes(n);
    dst[at] := c[0];
    dst[at + 1] := c[1];
    dst[at + 2] := c[2];
    dst[at + 3] := c[3];
  }

  // ---------- decimal strings ----------

  const ZERO: byte := 48

  predicate IsDigits(s: Bytes) {
    forall i :: 0 <= i < |s| ==> ZERO <= s[i] < ZERO + 10
  }

  /** A decimal numeral: digits only, and no leading zero unless it is "0" itself. */
  predicate IsCanonical(s: Bytes) {
    IsDigits(s) && |s| >= 1 && (s[0] == ZERO ==> |s| == 1)
  }

  function ParseDecimal(s: Bytes): (r: nat)
    requires IsDigits(s)
  {
    if s == [] then 0 else 10 * ParseDecimal(s[..|s| - 1]) + (s[|s| - 1] - ZERO)
  }

  function Pow10(k: nat): (r: nat)
    ensures r >= 1
  {
    if k == 0 then 1 else 10 * Pow10(k - 1)
  }

  lemma {:induction false} CanonicalPositive(s: Bytes)
    requires IsCanonical(s) && s[0] != ZERO
    ensures ParseDecimal(s) >= 1
  {
    if |s| > 1 {
      CanonicalPositive(s[..|s| - 1]);
    }
  }

  /** A number has only one canonical numeral. */
  lemma {:induction false} CanonicalUnique(s: Bytes, t: Bytes)
    requires IsCanonical(s) && IsCanonical(t) && ParseDecimal(s) == ParseDecimal(t)
    ensures s == t
    decreases |s|
  {
    var s0, t0 := s[..|s| - 1], t[..|t| - 1];
    assert s[|s| - 1] == t[|t| - 1] && ParseDecimal(s0) == ParseDecimal(t0);
    if s0 == [] {
      if t0 != [] {
        CanonicalPositive(t0);
      }
    } else {
      CanonicalPositive(s0);
      CanonicalUnique(s0, t0);
    }
    assert s == s0 + [s[|s| - 1]] && t == t0 + [t[|t| - 1]];
  }

  /** The digits of a number without leading zeros; none for zero. */
  function DigitsOf(d: nat): Bytes {
    if d == 0 then [] else DigitsOf(d / 10) + [ZERO + d % 10]
  }

  lemma {:induction false} DigitsAreCanonical(d: nat)
    ensures IsDigits(DigitsOf(d)) && ParseDecimal(DigitsOf(d)) == d
    ensures d > 0 ==> DigitsOf(d) != [] && DigitsOf(d)[0] != ZERO
  {
    if d > 0 {
      DigitsAreCanonical(d / 10);
      var s := DigitsOf(d);
      assert s[..|s| - 1] == DigitsOf(d / 10);
    }
  }

  lemma {:induction false} DigitsFit(d: nat, width: nat)
    requires d < Pow10(width)
    ensures |DigitsOf(d)| <= width
    decreases width
  {
    if d > 0 {
      DigitsFit(d / 10, width - 1);
    }
  }

  /** The digit loop: digits are written from the end of the buffer to the front. */
  method DigitLoop(number: nat, width: nat) returns (s: Bytes)
    requires number > 0 && |DigitsOf(number)| <= width
    ensures s == DigitsOf(number)
  {
    var d: nat := number;
    var b := new byte[width](_ => 0);
    var j: int := width - 1;
    var n := 0;
    while j >= 0 && d > 0
      invariant -1 <= j < width && n == width - 1 - j
      invariant DigitsOf(number) == DigitsOf(d) + b[j + 1..]
    {
      ghost var tail := b[j + 1..];
      ghost var front := DigitsOf(d / 10);
      b[j] := ZERO + d % 10;
      assert b[j..] == [ZERO + d % 10] + tail;
      assert (front + [ZERO + d % 10]) + tail == front + ([ZERO + d % 10] + tail);
      d := d / 10;
      n := n + 1;
      j := j - 1;
    }
    assert d > 0 ==> |DigitsOf(d)| >= 1;
    s := b[width - n..];
  }

  /** A number below 10^width as a string; Uint32ToString and Uint64ToString are the widths 10 and 20. */
  method ToDecimal(number: nat, width: nat) returns (s: Bytes)
    requires number < Pow10(width) && width >= 1
    ensures IsCanonical(s) && ParseDecimal(s) == number && |s| <= width
  {
    if number == 0 {
      return [ZERO];
    }
    DigitsFit(number, width);
    DigitsAreCanonical(number);
    s := DigitLoop(number, width);
  }

  /** Uint32ToString */
  method Uint32ToString(d: nat) returns (s: Bytes)
    requires d < TWO32
    ensures IsCanonical(s) && ParseDecimal(s) == d && |s| <= 10
  {
    assert Pow10(5) == 100000;
    Pow10Add(5, 5);
    s := ToDecimal(d, 10);
  }

  /** Uint64ToString */
  method Uint64ToString(d: nat) returns (s: Bytes)
    requires d < TWO64
    ensures IsCanonical(s) && ParseDecimal(s) == d && |s| <= 20
  {
    assert Pow10(5) == 100000;
    Pow10Add(5, 5);
    Pow10Add(10, 10);
    s := ToDecimal(d, 20);
  }

  lemma {:induction false} Pow10Add(a: nat, b: nat)
    ensures Pow10(a + b) == Pow10(a) * Pow10(b)
  {
    if a > 0 {
      Pow10Add(a - 1, b);
      assert 10 * (Pow10(a - 1) * Pow10(b)) == (10 * Pow10(a - 1)) * Pow10(b);
    }
  }
}
