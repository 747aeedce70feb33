/** The quadratic ease-in-out curve used both by the scroll handler
    (src/pages/Index.tsx) and by the eased pattern blend
    (src/components/animated-background/utils.ts):
    `t < 0.5 ? 2t^2 : 1 - (-2t + 2)^2 / 2`. */
module Easing {

  import opened Arith

  /** The lower branch, taken for t < 0.5. */
  function EaseIn(t: real): real {
    2.0 * t * t
  }

  /** The upper branch, taken for t >= 0.5. */
  function EaseOut(t: real): real {
    var u := -2.0 * t + 2.0;
    1.0 - u * u / 2.0
  }

  function Ease(t: real): real {
    if t < 0.5 then EaseIn(t) else EaseOut(t)
  }

  /** The curve starts at 0, ends at 1, and its two pieces meet at
      t = 0.5 with the value 0.5. */
  lemma EaseFixedPoints()
    ensures Ease(0.0) == 0.0
    ensures Ease(1.0) == 1.0
    ensures Ease(0.5) == 0.5
    ensures EaseIn(0.5) == EaseOut(0.5) == 0.5
  {
  }

  /** Point symmetry about (0.5, 0.5): easing in mirrors easing out. */
  lemma EaseSymmetric(t: real)
    ensures Ease(1.0 - t) == 1.0 - Ease(t)
  {
    if t < 0.5 {
      assert 1.0 - t > 0.5;
      var u := -2.0 * (1.0 - t) + 2.0;
      assert u == 2.0 * t;
      assert u * u == 4.0 * (t * t);
    } else if t > 0.5 {
      var u := -2.0 * t + 2.0;
      assert u == 2.0 * (1.0 - t);
      assert u * u == 4.0 * ((1.0 - t) * (1.0 - t));
    }
  }

  /** On [0,1] the curve stays in [0,1]. */
  lemma EaseInUnitRange(t: real)
    requires 0.0 <= t <= 1.0
    ensures 0.0 <= Ease(t) <= 1.0
  {
    if t < 0.5 {
      SquareMonotone(t, 0.5);
    } else {
      var u := -2.0 * t + 2.0;
      assert 0.0 <= u <= 1.0;
      SquareMonotone(u, 1.0);
      MulNonNeg(u, u);
    }
  }

  /** On [0,1] the curve is non-decreasing. */
  lemma EaseMonotone(s: real, t: real)
    requires 0.0 <= s <= t <= 1.0
    ensures Ease(s) <= Ease(t)
  {
    if t < 0.5 {
      SquareMonotone(s, t);
    } else if s >= 0.5 {
      SquareMonotone(-2.0 * t + 2.0, -2.0 * s + 2.0);
    } else {
      SquareMonotone(s, 0.5);
      var u := -2.0 * t + 2.0;
      SquareMonotone(u, 1.0);
    }
  }

  /** On [0,1] the curve is strictly increasing, so distinct scroll
      positions never collapse onto one eased value. */
  lemma EaseStrictlyMonotone(s: real, t: real)
    requires 0.0 <= s < t <= 1.0
    ensures Ease(s) < Ease(t)
  {
    if t < 0.5 {
      SquareStrictMonotone(s, t);
    } else if s >= 0.5 {
      SquareStrictMonotone(-2.0 * t + 2.0, -2.0 * s + 2.0);
    } else {
      SquareStrictMonotone(s, 0.5);
      var u := -2.0 * t + 2.0;
      SquareMonotone(u, 1.0);
    }
  }
}
