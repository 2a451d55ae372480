/** The arithmetic helpers of lib/Math.cc, loop by loop. */
module KMath {
  import opened Dyadic

  /** 2^31, 2^63 and 2^64: the ranges of the source's `int` and `size_t`. */
  const TWO_31: nat := 0x8000_0000
  const TWO_63: nat := 0x8000_0000_0000_0000
  const TWO_64: nat := 0x1_0000_0000_0000_0000

  function Power(base: int, exponent: nat): int {
    if exponent == 0 then 1 else base * Power(base, exponent - 1)
  }

  lemma {:induction false} PowerOfTwo(k: nat)
    ensures Power(2, k) == Pow2(k)
  {
    if k > 0 {
      PowerOfTwo(k - 1);
    }
  }

  method Pow(base: int, exponent: int) returns (result: int)
    ensures result == Power(base, if exponent > 0 then exponent else 0)
  {
    result := 1;
    var e := exponent;
    var done := 0;
    while e > 0
      invariant done >= 0 && (exponent > 0 ==> e + done == exponent) && (exponent <= 0 ==> done == 0)
      invariant exponent > 0 ==> e >= 0
      invariant result == Power(base, done)
    {
      result := result * base;
      e := e - 1;
      done := done + 1;
    }
  }

  function FloorLog2(x: nat): nat {
    if x < 2 then 0 else 1 + FloorLog2(x / 2)
  }

  lemma {:induction false} FloorLog2Bounds(x: nat)
    requires x > 0
    ensures Pow2(FloorLog2(x)) <= x < 2 * Pow2(FloorLog2(x))
  {
    if x >= 2 {
      FloorLog2Bounds(x / 2);
    }
  }

  /** Floor of the base-2 logarithm; 0 maps to 0. A negative argument shifts
      to -1 for ever, so the loop needs a non-negative one. */
  method Log2(x: int) returns (result: nat)
    requires 0 <= x < TWO_31
    ensures x == 0 ==> result == 0
    ensures x > 0 ==> Pow2(result) <= x < 2 * Pow2(result)
  {
    result := 0;
    var y := x / 2;
    while y != 0
      invariant y >= 0
      invariant FloorLog2(x) == if y == 0 then result else result + 1 + FloorLog2(y)
      decreases y
    {
      result := result + 1;
      y := y / 2;
    }
    if x > 0 {
      FloorLog2Bounds(x);
    }
  }

  /** The least power of two that is at least `x`. Above 2^63 the doubling
      wraps to zero and the loop never ends. */
  method RoundUpToPowOf2(x: nat) returns (result: nat, ghost k: nat)
    requires x <= TWO_63
    ensures result == Pow2(k) && x <= result <= TWO_63
    ensures k > 0 ==> Pow2(k - 1) < x
  {
    result, k := 1, 0;
    while result < x
      invariant result == Pow2(k) && result <= TWO_63
      invariant k > 0 ==> Pow2(k - 1) < x
      decreases TWO_63 - result
    {
      PowFits(k);
      result := 2 * result % TWO_64;
      k := k + 1;
    }
  }

  /** A power of two below 2^63 can be doubled without passing 2^63. */
  lemma PowFits(k: nat)
    requires Pow2(k) < TWO_63
    ensures 2 * Pow2(k) <= TWO_63
  {
    Pow2Values();
    if k >= 63 {
      Pow2Monotone(63, k);
    } else {
      Pow2Monotone(k + 1, 63);
    }
  }

  lemma Pow2Values()
    ensures Pow2(9) == 512 && Pow2(12) == 4096 && Pow2(30) == 0x4000_0000
    ensures Pow2(31) == TWO_31 && Pow2(32) == 0x1_0000_0000 && Pow2(42) == 0x400_0000_0000
    ensures Pow2(43) == 0x800_0000_0000 && Pow2(63) == TWO_63
  {
    Pow2Step(0, 9, 512); Pow2Step(9, 3, 8); Pow2Step(12, 18, 0x4_0000); Pow2Step(30, 1, 2); Pow2Step(31, 1, 2);
    Pow2Step(32, 10, 1024); Pow2Step(42, 1, 2); Pow2Step(43, 20, 0x10_0000);
  }

  lemma {:induction false} Pow2Step(i: nat, d: nat, f: nat)
    requires f == Pow2(d)
    ensures Pow2(i + d) == f * Pow2(i)
  {
    if d > 0 {
      Pow2Step(i, d - 1, Pow2(d - 1));
    }
  }

  /** The least positive multiple of `n` that is at least `x`. */
  method RoundUpToMultipleOfN(x: nat, n: nat) returns (result: nat, ghost q: nat)
    requires n > 0
    ensures result == q * n && q >= 1
    ensures x <= result && (q > 1 ==> result - n < x)
  {
    result, q := n, 1;
    while result < x
      invariant result == q * n && q >= 1
      invariant q > 1 ==> result - n < x
      decreases x - result
    {
      result := result + n;
      q := q + 1;
    }
  }
}
