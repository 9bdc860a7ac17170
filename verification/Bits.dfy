/** The binary digits of natural numbers, and the bitwise operations on them. */
module Bits {

  /** The digit that weighs two to the power of k. */
  predicate Bit(x: nat, k: nat)
    decreases k
  {
    if k == 0 then x % 2 == 1 else Bit(x / 2, k - 1)
  }

  function Or(a: nat, b: nat): (r: nat)
    decreases a + b
  {
    if a == 0 then b
    else if b == 0 then a
    else Or(a / 2, b / 2) * 2 + if a % 2 == 1 || b % 2 == 1 then 1 else 0
  }

  function And(a: nat, b: nat): (r: nat)
    ensures r <= a && r <= b
    decreases a + b
  {
    if a == 0 || b == 0 then 0
    else And(a / 2, b / 2) * 2 + if a % 2 == 1 && b % 2 == 1 then 1 else 0
  }

  lemma {:induction false} NoBits(k: nat)
    ensures !Bit(0, k)
    decreases k
  {
    if k > 0 {
      NoBits(k - 1);
    }
  }

  lemma {:induction false} OrBit(a: nat, b: nat, k: nat)
    ensures Bit(Or(a, b), k) <==> Bit(a, k) || Bit(b, k)
    decreases k
  {
    NoBits(k);
    if k > 0 && a > 0 && b > 0 {
      OrBit(a / 2, b / 2, k - 1);
    }
  }

  lemma {:induction false} AndBit(a: nat, b: nat, k: nat)
    ensures Bit(And(a, b), k) <==> Bit(a, k) && Bit(b, k)
    decreases k
  {
    NoBits(k);
    if k > 0 && a > 0 && b > 0 {
      AndBit(a / 2, b / 2, k - 1);
    }
  }

  function Pow2(n: nat): (p: nat)
    ensures p > 0
  {
    if n == 0 then 1 else 2 * Pow2(n - 1)
  }

  lemma Powers()
    ensures Pow2(8) == 256 && Pow2(14) == 0x4000 && Pow2(15) == 0x8000 && Pow2(16) == 0x1_0000
  {
    assert Pow2(4) == 16;
    assert Pow2(8) == 16 * Pow2(4);
    assert Pow2(12) == 16 * Pow2(8);
    assert Pow2(16) == 16 * Pow2(12);
    assert Pow2(15) * 2 == Pow2(16);
    assert Pow2(14) * 2 == Pow2(15);
  }

  lemma {:induction false} OrBelow(a: nat, b: nat, n: nat)
    requires a < Pow2(n) && b < Pow2(n)
    ensures Or(a, b) < Pow2(n)
    decreases n
  {
    if a > 0 && b > 0 {
      OrBelow(a / 2, b / 2, n - 1);
    }
  }

  /** A number is fixed by its digits. */
  lemma {:induction false} SameBits(a: nat, b: nat, n: nat)
    requires a < Pow2(n) && b < Pow2(n)
    requires forall k :: 0 <= k < n ==> (Bit(a, k) <==> Bit(b, k))
    ensures a == b
    decreases n
  {
    if n > 0 {
      assert Bit(a, 0) <==> Bit(b, 0);
      forall k | 0 <= k < n - 1 ensures Bit(a / 2, k) <==> Bit(b / 2, k) {
        assert Bit(a, k + 1) <==> Bit(b, k + 1);
      }
      SameBits(a / 2, b / 2, n - 1);
    }
  }

  /** The digits of a number below, with another one above the first n. */
  lemma {:induction false} PairBit(high: nat, low: nat, n: nat, k: nat)
    requires low < Pow2(n)
    ensures Bit(high * Pow2(n) + low, k) <==> if k < n then Bit(low, k) else Bit(high, k - n)
    decreases n
  {
    if n > 0 {
      var x := high * Pow2(n) + low;
      Halves(high, low, Pow2(n - 1));
      if k > 0 {
        PairBit(high, low / 2, n - 1, k - 1);
      }
    }
  }

  lemma Halves(high: nat, low: nat, p: nat)
    ensures (high * (2 * p) + low) / 2 == high * p + low / 2
    ensures (high * (2 * p) + low) % 2 == low % 2
  {
    assert high * (2 * p) == 2 * (high * p);
  }
}
