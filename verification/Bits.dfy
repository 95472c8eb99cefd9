/** Bit operations on natural numbers, as the Go code uses them on unsigned values. */
module Bits {

  type byte = x: int | 0 <= x < 256
  type Bytes = seq<byte>

  const TWO64: nat := 0x1_0000_0000_0000_0000

  /** The value an unsigned 64-bit register keeps of an integer. */
  function U64(x: int): (r: nat)
    ensures r < TWO64
  {
    x % TWO64
  }

  function Pow2(k: nat): (r: nat)
    ensures r >= 1
  {
    if k == 0 then 1 else 2 * Pow2(k - 1)
  }

  function BitAnd(x: nat, y: nat): nat {
    if x == 0 || y == 0 then 0
    else (if x % 2 == 1 && y % 2 == 1 then 1 else 0) + 2 * BitAnd(x / 2, y / 2)
  }

  function BitOr(x: nat, y: nat): nat
    decreases x + y
  {
    if x == 0 then y
    else if y == 0 then x
    else (if x % 2 == 1 || y % 2 == 1 then 1 else 0) + 2 * BitOr(x / 2, y / 2)
  }

  /** Logical right shift by k positions. */
  function Shr(x: nat, k: nat): nat
    decreases x, k
  {
    if k == 0 || x == 0 then x else Shr(x / 2, k - 1)
  }

  // ---------- arithmetic ----------

  lemma DivModUnique(a: int, b: nat, q: int, r: int)
    requires b > 0 && 0 <= r < b && a == q * b + r
    ensures a / b == q && a % b == r
  {
    assert a == (a / b) * b + a % b;
    assert (a / b - q) * b == r - a % b;
    SmallMultiple(a / b - q, b);
  }

  lemma SmallMultiple(d: int, b: int)
    requires b > 0 && -b < d * b < b
    ensures d == 0
  {
  }

  lemma ModDouble(x: nat, m: nat)
    requires m > 0
    ensures x % (2 * m) == x % 2 + 2 * ((x / 2) % m)
  {
    var q, r := (x / 2) / m, (x / 2) % m;
    assert x / 2 == q * m + r;
    assert x == q * (2 * m) + (x % 2 + 2 * r) by {
      assert 2 * (q * m) == q * (2 * m);
    }
    DivModUnique(x, 2 * m, q, x % 2 + 2 * r);
  }

  lemma {:induction false} Pow2Add(a: nat, b: nat)
    ensures Pow2(a + b) == Pow2(a) * Pow2(b)
  {
    if a > 0 {
      Pow2Add(a - 1, b);
      assert 2 * (Pow2(a - 1) * Pow2(b)) == (2 * Pow2(a - 1)) * Pow2(b);
    }
  }

  lemma {:induction false} Pow2Monotone(a: nat, b: nat)
    requires a <= b
    ensures Pow2(a) <= Pow2(b)
  {
    if a < b {
      Pow2Monotone(a, b - 1);
    }
  }

  lemma Pow2Of64()
    ensures Pow2(64) == TWO64
  {
    assert Pow2(8) == 256;
    Pow2Add(8, 8);
    Pow2Add(16, 16);
    Pow2Add(32, 32);
  }

  // ---------- masking ----------

  /** Masking with 2^k - 1 is the remainder by 2^k. */
  lemma {:induction false} MaskIsMod(x: nat, k: nat)
    ensures BitAnd(x, Pow2(k) - 1) == x % Pow2(k)
  {
    if k == 0 {
    } else if x == 0 {
      DivModUnique(0, Pow2(k), 0, 0);
    } else {
      var m := Pow2(k - 1);
      MaskIsMod(x / 2, k - 1);
      ModDouble(x, m);
      assert (2 * m - 1) % 2 == 1 && (2 * m - 1) / 2 == m - 1;
    }
  }

  // ---------- or and shift ----------

  lemma {:induction false} ShrShr(x: nat, a: nat, b: nat)
    ensures Shr(Shr(x, a), b) == Shr(x, a + b)
    decreases a
  {
    if a > 0 {
      ShrShr(x / 2, a - 1, b);
    }
  }

  lemma {:induction false} ShrShrinks(x: nat, k: nat)
    ensures Shr(x, k) <= x
    decreases k
  {
    if k > 0 {
      ShrShrinks(x / 2, k - 1);
    }
  }

  lemma {:induction false} ShrBelow(x: nat, a: nat, k: nat)
    requires a <= k && x < Pow2(k)
    ensures Shr(x, a) < Pow2(k - a)
    decreases a
  {
    if a > 0 {
      ShrBelow(x / 2, a - 1, k - 1);
    }
  }

  lemma {:induction false} OrShr(a: nat, b: nat, j: nat)
    ensures Shr(BitOr(a, b), j) == BitOr(Shr(a, j), Shr(b, j))
    decreases j
  {
    if j > 0 {
      assert BitOr(a, b) / 2 == BitOr(a / 2, b / 2);
      OrShr(a / 2, b / 2, j - 1);
    }
  }

  /** A number below 2^k stays below 2^k when or-ed with another one. */
  lemma {:induction false} OrBelow(a: nat, b: nat, k: nat)
    requires a < Pow2(k) && b < Pow2(k)
    ensures BitOr(a, b) < Pow2(k)
    decreases k
  {
    if k > 0 {
      OrBelow(a / 2, b / 2, k - 1);
    }
  }

  /** Or of two numbers without a common bit position is their sum. */
  lemma {:induction false} OrDisjoint(a: nat, b: nat, k: nat)
    requires a < Pow2(k)
    ensures BitOr(a, b * Pow2(k)) == a + b * Pow2(k)
    decreases k
  {
    if k > 0 && b > 0 && a > 0 {
      var p := Pow2(k - 1);
      assert b * Pow2(k) == 2 * (b * p);
      OrDisjoint(a / 2, b, k - 1);
    }
  }

  /** Or-ing m ones below j ones makes one row of ones. */
  lemma {:induction false} OrOnes(a: nat, m: nat, j: nat)
    requires Shr(a, m) == Pow2(j) - 1
    ensures BitOr(a, Pow2(m) - 1) == Pow2(m + j) - 1
    decreases m
  {
    if m > 0 {
      if a == 0 {
        assert Pow2(j) == 1 && (j > 0 ==> Pow2(j) >= 2);
      } else {
        OrOnes(a / 2, m - 1, j);
        OrOddOnes(a, Pow2(m - 1));
      }
    }
  }

  lemma OrOddOnes(a: nat, p: nat)
    requires a > 0 && p > 0
    ensures BitOr(a, 2 * p - 1) == 1 + 2 * BitOr(a / 2, p - 1)
  {
    assert (2 * p - 1) % 2 == 1 && (2 * p - 1) / 2 == p - 1;
  }

  // ---------- the smallest power of two ----------

  /** The upper m bits of the k-bit number v are all ones. */
  ghost predicate TopOnes(v: nat, k: nat, m: nat) {
    m <= k && Shr(v, k - m) == Pow2(m) - 1
  }

  function AtMost(m: nat, k: nat): nat {
    if m <= k then m else k
  }

  /** v |= v >> m */
  function Smear(v: nat, m: nat): nat {
    BitOr(v, Shr(v, m))
  }

  /** One smearing step doubles the number of leading ones, up to all k of them. */
  lemma SmearDoubles(v: nat, k: nat, m: nat)
    requires v < Pow2(k) && TopOnes(v, k, AtMost(m, k))
    ensures Smear(v, m) < Pow2(k)
    ensures TopOnes(Smear(v, m), k, AtMost(2 * m, k))
  {
    ShrShrinks(v, m);
    OrBelow(v, Shr(v, m), k);
    if 2 * m <= k {
      SmearHalf(v, k, m);
    } else if m <= k {
      SmearRest(v, k, m);
    } else {
      OnesShiftedOut(v, k, m);
    }
  }

  lemma SmearHalf(v: nat, k: nat, m: nat)
    requires v < Pow2(k) && 2 * m <= k && TopOnes(v, k, m)
    ensures TopOnes(Smear(v, m), k, 2 * m)
  {
    var j := k - 2 * m;
    var a := Shr(v, j);
    OrShr(v, Shr(v, m), j);
    ShrShr(v, m, j);
    ShrShr(v, j, m);
    OrOnes(a, m, m);
  }

  lemma SmearRest(v: nat, k: nat, m: nat)
    requires v < Pow2(k) && m <= k < 2 * m && TopOnes(v, k, m)
    ensures TopOnes(Smear(v, m), k, k)
  {
    var d := k - m;
    // the top d of the m leading ones are what is left after shifting by m
    ShrShr(v, d, m - d);
    OnesShr(m, m - d);
    assert Shr(v, m) == Pow2(d) - 1;
    OrOnes(v, d, m);
  }

  /** Shifting a row of ones leaves a shorter row of ones. */
  lemma {:induction false} OnesShr(m: nat, d: nat)
    requires d <= m
    ensures Shr(Pow2(m) - 1, d) == Pow2(m - d) - 1
    decreases d
  {
    if d > 0 {
      assert (Pow2(m) - 1) / 2 == Pow2(m - 1) - 1;
      OnesShr(m - 1, d - 1);
    }
  }

  lemma OnesShiftedOut(v: nat, k: nat, m: nat)
    requires v < Pow2(k) && k < m && TopOnes(v, k, k)
    ensures TopOnes(Smear(v, m), k, k)
  {
    Pow2Monotone(k, m);
    ShrBelow(v, m, m);
  }

  /** Every positive number below 2^limit has a highest bit. */
  lemma {:induction false} HighestBit(v: nat, limit: nat) returns (k: nat)
    requires 1 <= v < Pow2(limit)
    ensures 1 <= k <= limit && Pow2(k - 1) <= v < Pow2(k)
  {
    if Pow2(limit - 1) <= v {
      k := limit;
    } else {
      k := HighestBit(v, limit - 1);
    }
  }

  lemma {:induction false} TopBitSet(v: nat, k: nat)
    requires k >= 1 && Pow2(k - 1) <= v < Pow2(k)
    ensures TopOnes(v, k, 1)
    decreases k
  {
    if k > 1 {
      TopBitSet(v / 2, k - 1);
    }
  }

  ghost predicate LeastPow2NotBelow(v: nat, r: nat) {
    && (exists k: nat :: k <= 63 && r == Pow2(k))
    && v <= r
    && forall j: nat :: v <= Pow2(j) ==> r <= Pow2(j)
  }

  lemma NextPow2(v: nat, k: nat)
    requires k <= 63 && v <= Pow2(k)
    requires k == 0 || Pow2(k - 1) < v
    ensures LeastPow2NotBelow(v, Pow2(k))
  {
    forall j: nat | v <= Pow2(j)
      ensures Pow2(k) <= Pow2(j)
    {
      if j < k {
        Pow2Monotone(j, k - 1);
      } else {
        Pow2Monotone(k, j);
      }
    }
  }

  /** The smearing steps fill a k-bit number with ones. */
  method SmearAll(number: nat, ghost k: nat) returns (v: nat)
    requires k <= 64 && number < Pow2(k) && (k > 0 ==> Pow2(k - 1) <= number)
    ensures v == Pow2(k) - 1
  {
    v := number;
    if v > 0 {
      TopBitSet(v, k);
    }
    SmearDoubles(v, k, 1);
    v := Smear(v, 1);
    SmearDoubles(v, k, 2);
    v := Smear(v, 2);
    SmearDoubles(v, k, 4);
    v := Smear(v, 4);
    SmearDoubles(v, k, 8);
    v := Smear(v, 8);
    SmearDoubles(v, k, 16);
    v := Smear(v, 16);
    SmearDoubles(v, k, 32);
    v := Smear(v, 32);
  }

  lemma FitsRegister(n: nat)
    requires n <= Pow2(63)
    ensures n < TWO64
  {
    Pow2Of64();
  }

  /** The number of bits of a register's value. */
  lemma BitLength(v: nat) returns (k: nat)
    requires v < TWO64
    ensures k <= 64 && v < Pow2(k) && (k > 0 ==> Pow2(k - 1) <= v)
    ensures k <= 63 <==> v < Pow2(63)
  {
    Pow2Of64();
    k := 0;
    if v > 0 {
      k := HighestBit(v, 64);
      if k <= 63 {
        Pow2Monotone(k, 63);
      }
    }
  }

  /** minQuantity: the least power of two that is not below v; 0 if v is 0 or there is none below 2^64. */
  method MinQuantity(quantity: nat) returns (v: nat)
    requires quantity < TWO64
    ensures 1 <= quantity <= Pow2(63) ==> LeastPow2NotBelow(quantity, v)
    ensures !(1 <= quantity <= Pow2(63)) ==> v == 0
  {
    v := U64(quantity - 1);
    ghost var k := BitLength(v);
    Pow2Of64();
    v := SmearAll(v, k);
    if k <= 63 {
      Pow2Monotone(k, 63);
      NextPow2(quantity, k);
    }
    v := U64(v + 1);
  }
}
