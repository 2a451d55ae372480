/** Powers of two, bitwise exclusive or, and the geometry of naturally aligned
    power-of-two blocks. Everything is by halving, so that no proof needs
    nonlinear arithmetic. */
module Dyadic {

  function Pow2(k: nat): (r: nat)
    ensures r >= 1
  {
    if k == 0 then 1 else 2 * Pow2(k - 1)
  }

  /** `s` is a multiple of 2^k. */
  predicate Aligned(s: int, k: nat)
    decreases k
  {
    k == 0 || (s % 2 == 0 && Aligned(s / 2, k - 1))
  }

  /** Bitwise exclusive or of two naturals. */
  function Xor(a: nat, b: nat): nat
    decreases a + b
  {
    if a == 0 && b == 0 then 0
    else (a % 2 + b % 2) % 2 + 2 * Xor(a / 2, b / 2)
  }

  lemma {:induction false} Pow2Monotone(i: nat, j: nat)
    requires i <= j
    ensures Pow2(i) <= Pow2(j)
    ensures i < j ==> 2 * Pow2(i) <= Pow2(j)
  {
    if i < j {
      Pow2Monotone(i, j - 1);
    }
  }

  lemma {:induction false} XorZero(a: nat)
    ensures Xor(a, 0) == a
  {
    if a != 0 {
      XorZero(a / 2);
    }
  }

  lemma {:induction false} AlignedWeaken(s: int, i: nat, j: nat)
    requires i <= j && Aligned(s, j)
    ensures Aligned(s, i)
    decreases i
  {
    if i > 0 {
      AlignedWeaken(s / 2, i - 1, j - 1);
    }
  }

  lemma {:induction false} AlignedZero(k: nat)
    ensures Aligned(0, k)
  {
    if k > 0 {
      AlignedZero(k - 1);
    }
  }

  /** The upper half of an aligned block is aligned to the half size. */
  lemma {:induction false} AlignedHalf(s: int, k: nat)
    requires Aligned(s, k + 1)
    ensures Aligned(s, k) && Aligned(s + Pow2(k), k) && !Aligned(s + Pow2(k), k + 1)
    decreases k
  {
    if k > 0 {
      AlignedHalf(s / 2, k - 1);
      assert (s + Pow2(k)) / 2 == s / 2 + Pow2(k - 1);
    }
  }

  /** A block that is not aligned to the double size is an upper half. */
  lemma {:induction false} UpperHalf(s: nat, k: nat)
    requires Aligned(s, k) && !Aligned(s, k + 1)
    ensures s >= Pow2(k) && Aligned(s - Pow2(k), k + 1)
  {
    if k > 0 {
      UpperHalf(s / 2, k - 1);
      assert (s - Pow2(k)) / 2 == s / 2 - Pow2(k - 1);
    }
  }

  lemma XorOne(s: nat)
    ensures Xor(s, 1) == if s % 2 == 0 then s + 1 else s - 1
  {
    XorZero(s / 2);
  }

  lemma XorHalf(s: nat, k: nat)
    requires k > 0 && s % 2 == 0
    ensures Xor(s, Pow2(k)) == 2 * Xor(s / 2, Pow2(k - 1))
  {
    assert Pow2(k) == 2 * Pow2(k - 1);
  }

  lemma {:induction false} XorValue(s: nat, k: nat)
    requires Aligned(s, k)
    ensures Xor(s, Pow2(k)) == if Aligned(s, k + 1) then s + Pow2(k) else s - Pow2(k)
  {
    if k == 0 {
      XorOne(s);
    } else {
      XorValue(s / 2, k - 1);
      XorHalf(s, k);
      assert Aligned(s, k + 1) <==> Aligned(s / 2, k);
    }
  }

  /** Flipping bit k of a multiple of 2^k moves to the sibling block: the pair
      makes up one block of twice the size, and flipping again undoes it. */
  lemma XorSibling(s: nat, k: nat)
    requires Aligned(s, k)
    ensures Xor(s, Pow2(k)) == if Aligned(s, k + 1) then s + Pow2(k) else s - Pow2(k)
    ensures !Aligned(s, k + 1) ==> s >= Pow2(k) && Aligned(s - Pow2(k), k + 1)
    ensures Aligned(Xor(s, Pow2(k)), k)
  {
    XorValue(s, k);
    if Aligned(s, k + 1) {
      AlignedHalf(s, k);
    } else {
      UpperHalf(s, k);
      AlignedWeaken(s - Pow2(k), k, k + 1);
    }
  }

  lemma XorInvolution(s: nat, k: nat)
    requires Aligned(s, k)
    ensures Xor(Xor(s, Pow2(k)), Pow2(k)) == s
  {
    XorSibling(s, k);
    XorSibling(Xor(s, Pow2(k)), k);
    if Aligned(s, k + 1) {
      AlignedHalf(s, k);
    }
  }

  /** Two aligned blocks that share a point are nested. */
  lemma {:induction false} Nested(p: int, i: nat, u: int, j: nat, x: int)
    requires i <= j && Aligned(p, i) && Aligned(u, j)
    requires p <= x < p + Pow2(i) && u <= x < u + Pow2(j)
    ensures u <= p && p + Pow2(i) <= u + Pow2(j)
    decreases i
  {
    if i == 0 {
    } else {
      Nested(p / 2, i - 1, u / 2, j - 1, x / 2);
    }
  }

}
