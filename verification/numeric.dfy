/** Integer and real helpers shared by the filters: min/max, clipping, the
    float-to-byte conversion of a tensor, and Python's `range`. */
module Numeric {
  import opened Raster

  function Min(a: int, b: int): int {
    if a <= b then a else b
  }

  function Max(a: int, b: int): int {
    if a >= b then a else b
  }

  /** `np.clip` / `torch.clamp` on a real. */
  function Clamp(x: real, lo: real, hi: real): (r: real)
    requires lo <= hi
    ensures lo <= r <= hi
    ensures lo <= x <= hi ==> r == x
    ensures x < lo ==> r == lo
    ensures x > hi ==> r == hi
  {
    if x < lo then lo else if x > hi then hi else x
  }

  /** `255 - v` on an 8-bit sample (the negative of a gray image). */
  function Invert(v: Byte): (r: Byte)
    ensures r + v == 255
  {
    255 - v
  }

  /** Inverting twice restores the sample. */
  lemma InvertInvolution(v: Byte)
    ensures Invert(Invert(v)) == v
  {
  }

  /** A value of [0, 1] scaled to a byte and truncated (`(t * 255).byte()`,
      `T.ToPILImage`, `astype(np.uint8)` on a non-negative value). */
  function UnitToByte(x: real): (b: Byte)
    requires 0.0 <= x <= 1.0
    ensures b as real <= x * 255.0 < b as real + 1.0
  {
    MulFloorBound(x);
    (x * 255.0).Floor
  }

  lemma MulFloorBound(x: real)
    requires 0.0 <= x <= 1.0
    ensures 0 <= (x * 255.0).Floor <= 255
  {
  }

  /** The byte a clamped tensor value becomes: clamp to [0, 1], scale, truncate. */
  function TensorToByte(x: real): (b: Byte)
    ensures x <= 0.0 ==> b == 0
    ensures x >= 1.0 ==> b == 255
    ensures 0.0 <= x <= 1.0 ==> b as real <= x * 255.0 < b as real + 1.0
  {
    UnitToByte(Clamp(x, 0.0, 1.0))
  }

  /** Python's `range(start, stop, step)` for a positive step. */
  function Range(start: int, stop: int, step: nat): (r: seq<int>)
    requires step > 0
    ensures forall k :: 0 <= k < |r| ==> r[k] == start + k * step
    ensures forall k :: 0 <= k < |r| ==> r[k] < stop
    ensures start + |r| * step >= stop
    decreases stop - start
  {
    if start >= stop then [] else [start] + Range(start + step, stop, step)
  }

  /** The number of values `range` yields: the ceiling of the span over the step. */
  lemma {:induction false} RangeLength(start: int, stop: int, step: nat)
    requires step > 0
    ensures |Range(start, stop, step)| == if start >= stop then 0 else (stop - start + step - 1) / step
    decreases stop - start
  {
    if start < stop {
      RangeLength(start + step, stop, step);
      var n := stop - start;
      if n <= step {
        DivUnique(n + step - 1, step, 1, n - 1);
      } else {
        var x: nat := n - 1;
        DivUnique(x + step, step, x / step + 1, x % step);
      }
    }
  }

  /** `int(side * (target / longest))` for the shorter or the longest side
      of an image, in exact arithmetic (Python's `int` truncates, which is
      the floor on non-negative values). */
  function ScaleSide(side: nat, longest: nat, target: nat): (s: nat)
    requires 0 < longest && side <= longest
    ensures s <= target
    ensures s * longest <= side * target < (s + 1) * longest
    ensures side == longest ==> s == target
  {
    ScaleSideBounds(side, longest, target);
    side * target / longest
  }

  lemma ScaleSideBounds(side: nat, longest: nat, target: nat)
    requires 0 < longest && side <= longest
    ensures side * target / longest <= target
    ensures side == longest ==> side * target / longest == target
  {
    var q := side * target / longest;
    assert q * longest <= side * target;
    MulLeq(side, longest, target);
    if q > target {
      MulLeq(target + 1, q, longest);
      assert false;
    }
    if side == longest {
      DivMulCancel(target, longest);
    }
  }

  /** Scaling to a target no larger than the longest side never enlarges a side. */
  lemma ScaleSideShrinks(side: nat, longest: nat, target: nat)
    requires 0 < longest && side <= longest && target <= longest
    ensures ScaleSide(side, longest, target) <= side
  {
    var s := ScaleSide(side, longest, target);
    MulLeq(target, longest, side);
    assert side * target <= side * longest;
    if s > side {
      MulLeq(side + 1, s, longest);
      assert false;
    }
  }

  /** A quotient is below any bound whose multiple exceeds the dividend. */
  lemma DivBelow(a: nat, d: nat, b: nat)
    requires d > 0 && a < b * d
    ensures a / d < b
  {
    var q := a / d;
    assert q * d <= a;
    if q >= b {
      MulLeq(b, q, d);
      assert false;
    }
  }

  /** The quotient brackets the dividend between two consecutive multiples. */
  lemma DivBracket(n: nat, d: nat)
    requires d > 0
    ensures (n / d) * d <= n < (n / d + 1) * d
  {
  }

  /** A quotient reaches any bound whose multiple the dividend reaches. */
  lemma DivAtLeast(a: nat, d: nat, b: nat)
    requires d > 0 && b * d <= a
    ensures a / d >= b
  {
    var q := a / d;
    assert a < q * d + d;
    if q < b {
      MulLeq(q + 1, b, d);
      assert false;
    }
  }

  /** Quotient and remainder are the unique pair with `a == q * d + r`, `0 <= r < d`. */
  lemma DivUnique(a: nat, d: nat, q: nat, r: nat)
    requires d > 0 && r < d && a == q * d + r
    ensures a / d == q && a % d == r
  {
    var q', r' := a / d, a % d;
    assert a == q' * d + r';
    if q' < q {
      MulLeq(q' + 1, q, d);
      assert false;
    } else if q' > q {
      MulLeq(q + 1, q', d);
      assert false;
    }
  }

  lemma DivMulCancel(a: nat, b: nat)
    requires b > 0
    ensures b * a / b == a
  {
    var q, r := b * a / b, b * a % b;
    assert b * a == b * q + r && 0 <= r < b;
    if q < a {
      MulLeq(q + 1, a, b);
      assert false;
    } else if q > a {
      MulLeq(a + 1, q, b);
      assert false;
    }
  }

  lemma MulLeq(a: nat, b: nat, c: nat)
    requires a <= b
    ensures a * c <= b * c
  {
  }
}
