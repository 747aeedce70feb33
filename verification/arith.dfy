/** Small facts about real multiplication and division that the solver
    does not find on its own; the rest of the model leans on them. */
module Arith {

  lemma MulNonNeg(a: real, b: real)
    requires 0.0 <= a && 0.0 <= b
    ensures 0.0 <= a * b
  {
  }

  lemma MulPos(a: real, b: real)
    requires 0.0 < a && 0.0 < b
    ensures 0.0 < a * b
  {
  }

  lemma MulLeftMono(a: real, x: real, y: real)
    requires 0.0 <= a && x <= y
    ensures a * x <= a * y
  {
    assert a * y - a * x == a * (y - x);
    MulNonNeg(a, y - x);
  }

  lemma MulRightMono(a: real, x: real, y: real)
    requires 0.0 <= a && x <= y
    ensures x * a <= y * a
  {
    assert y * a - x * a == (y - x) * a;
    MulNonNeg(y - x, a);
  }

  /** Scaling by a factor in [0,1] keeps a value between 0 and itself. */
  lemma MulUnitBounds(a: real, t: real)
    requires 0.0 <= t <= 1.0
    ensures 0.0 <= a ==> 0.0 <= a * t <= a
    ensures a <= 0.0 ==> a <= a * t <= 0.0
  {
    if 0.0 <= a {
      MulLeftMono(a, t, 1.0);
    } else {
      MulLeftMono(-a, t, 1.0);
      assert (-a) * t == -(a * t);
    }
  }

  lemma MulLeftStrictMono(a: real, x: real, y: real)
    requires 0.0 < a && x < y
    ensures a * x < a * y
  {
    assert a * y - a * x == a * (y - x);
    MulPos(a, y - x);
  }

  lemma SquareMonotone(x: real, y: real)
    requires 0.0 <= x <= y
    ensures x * x <= y * y
  {
    MulLeftMono(x, x, y);
    MulLeftMono(y, x, y);
    assert x * y == y * x;
  }

  lemma SquareStrictMonotone(x: real, y: real)
    requires 0.0 <= x < y
    ensures x * x < y * y
  {
    MulLeftMono(x, x, y);
    MulLeftStrictMono(y, x, y);
    calc {
      x * x;
    <= x * y;
    == y * x;
    <  y * y;
    }
  }

  lemma DivLeftMono(x: real, y: real, d: real)
    requires 0.0 < d && x <= y
    ensures x / d <= y / d
  {
    assert x / d == x * (1.0 / d);
    assert y / d == y * (1.0 / d);
    MulLeftMono(1.0 / d, x, y);
  }

  lemma DivLeftStrictMono(x: real, y: real, d: real)
    requires 0.0 < d && x < y
    ensures x / d < y / d
  {
    assert x / d == x * (1.0 / d);
    assert y / d == y * (1.0 / d);
    MulLeftStrictMono(1.0 / d, x, y);
  }

  /** `k <= x / d < k + 1` exactly when `k d <= x < (k + 1) d`. */
  lemma DivInUnitInterval(x: real, d: real, k: real)
    requires 0.0 < d && k * d <= x < (k + 1.0) * d
    ensures k <= x / d < k + 1.0
  {
    var y := x / d;
    assert x == y * d;
    if y < k {
      MulLeftStrictMono(d, y, k);
      assert false;
    }
    if y >= k + 1.0 {
      MulLeftMono(d, k + 1.0, y);
      assert false;
    }
  }

  /** A ratio strictly between 0 and the divisor is strictly between 0 and 1. */
  lemma DivStrictlyInside(x: real, d: real)
    requires 0.0 < x < d
    ensures 0.0 < x / d < 1.0
  {
    var y := x / d;
    assert x == y * d;
    if y <= 0.0 {
      MulLeftMono(d, y, 0.0);
      assert false;
    }
    if y >= 1.0 {
      MulLeftMono(d, 1.0, y);
      assert false;
    }
  }

  lemma FloorIs(y: real, k: int)
    requires k as real <= y < k as real + 1.0
    ensures y.Floor == k
  {
  }

  lemma DivShift(x: real, d: real)
    requires d != 0.0
    ensures (x - d) / d == x / d - 1.0
  {
    assert (x - d) / d == x / d - d / d;
  }

  lemma MulDivCancel(d: real, a: real)
    requires d != 0.0
    ensures (d * a) / d == a
  {
  }
}
