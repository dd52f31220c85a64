/** Bitwise AND and OR on non-negative integers, defined bit by bit, and the
    byte-level operations `cv2.bitwise_and` / `cv2.bitwise_or` apply to every
    sample. */
module Bits {
  import opened Raster

  function Pow2(k: nat): (p: nat)
    ensures p >= 1
  {
    if k == 0 then 1 else 2 * Pow2(k - 1)
  }

  /** `a & b`: the lowest bit is set when it is set in both, the rest recurse. */
  function BitAnd(a: nat, b: nat): nat
    decreases a
  {
    if a == 0 || b == 0 then 0
    else 2 * BitAnd(a / 2, b / 2) + (if a % 2 == 1 && b % 2 == 1 then 1 else 0)
  }

  /** `a | b`: the lowest bit is set when it is set in either, the rest recurse. */
  function BitOr(a: nat, b: nat): nat
    decreases a + b
  {
    if a == 0 then b
    else if b == 0 then a
    else 2 * BitOr(a / 2, b / 2) + (if a % 2 == 1 || b % 2 == 1 then 1 else 0)
  }

  /** Masking never adds bits: `a & b` is at most either operand. */
  lemma {:induction false} AndBelow(a: nat, b: nat)
    ensures BitAnd(a, b) <= a && BitAnd(a, b) <= b
    decreases a
  {
    if a != 0 && b != 0 {
      AndBelow(a / 2, b / 2);
    }
  }

  lemma {:induction false} AndCommutes(a: nat, b: nat)
    ensures BitAnd(a, b) == BitAnd(b, a)
    decreases a
  {
    if a != 0 && b != 0 {
      AndCommutes(a / 2, b / 2);
    }
  }

  /** A mask of `k` one-bits keeps every value of `k` bits. */
  lemma {:induction false} AndAllOnes(a: nat, k: nat)
    requires a < Pow2(k)
    ensures BitAnd(a, Pow2(k) - 1) == a
    decreases k
  {
    if a != 0 {
      assert k > 0;
      assert (Pow2(k) - 1) / 2 == Pow2(k - 1) - 1;
      assert (Pow2(k) - 1) % 2 == 1;
      AndAllOnes(a / 2, k - 1);
    }
  }

  /** OR never removes bits: `a | b` is at least either operand. */
  lemma {:induction false} OrAbove(a: nat, b: nat)
    ensures BitOr(a, b) >= a && BitOr(a, b) >= b
    decreases a + b
  {
    if a != 0 && b != 0 {
      OrAbove(a / 2, b / 2);
    }
  }

  /** OR of two `k`-bit values is a `k`-bit value. */
  lemma {:induction false} OrBelow(a: nat, b: nat, k: nat)
    requires a < Pow2(k) && b < Pow2(k)
    ensures BitOr(a, b) < Pow2(k)
    decreases a + b
  {
    if a != 0 && b != 0 {
      assert k > 0;
      OrBelow(a / 2, b / 2, k - 1);
    }
  }

  lemma {:induction false} OrCommutes(a: nat, b: nat)
    ensures BitOr(a, b) == BitOr(b, a)
    decreases a + b
  {
    if a != 0 && b != 0 {
      OrCommutes(a / 2, b / 2);
    }
  }

  lemma Pow2Eight()
    ensures Pow2(8) == 256
  {
    assert Pow2(4) == 16;
  }

  /** `cv2.bitwise_and` on one 8-bit sample. */
  function And8(a: Byte, b: Byte): (r: Byte)
    ensures r <= a && r <= b
    ensures b == 255 ==> r == a
    ensures a == 255 ==> r == b
    ensures a == 0 || b == 0 ==> r == 0
  {
    AndBelow(a, b);
    Pow2Eight();
    AndAllOnes(a, 8);
    AndAllOnes(b, 8);
    AndCommutes(a, b);
    BitAnd(a, b)
  }

  /** `cv2.bitwise_or` on one 8-bit sample. */
  function Or8(a: Byte, b: Byte): (r: Byte)
    ensures r >= a && r >= b
    ensures b == 0 ==> r == a
    ensures a == 0 ==> r == b
  {
    OrAbove(a, b);
    Pow2Eight();
    OrBelow(a, b, 8);
    BitOr(a, b)
  }
}
