/** The few pieces of JavaScript number semantics the scroll pipeline relies on:
    `Math.min`, `Math.max`, clamping into [0,1], and the `%` operator, whose
    remainder takes the sign of the dividend (it truncates toward zero,
    unlike Dafny's Euclidean `%`). NaN and the infinities are not modelled
    here; callers that can see NaN use `JsNumber`. */
module JsMath {

  import opened Arith

  /** A JavaScript number as far as a truthiness test cares: NaN (or a missing
      value) or a finite real. */
  datatype JsNumber = NaN | Num(value: real)

  /** `!!x` for a number: false for NaN and for 0. */
  predicate Truthy(x: JsNumber) {
    x.Num? && x.value != 0.0
  }

  function Min(x: real, y: real): (r: real)
    ensures r <= x && r <= y
    ensures r == x || r == y
  {
    if x <= y then x else y
  }

  function Max(x: real, y: real): (r: real)
    ensures r >= x && r >= y
    ensures r == x || r == y
  {
    if x >= y then x else y
  }

  /** `Math.max(0, Math.min(1, x))`. */
  function Clamp01(x: real): (r: real)
    ensures 0.0 <= r <= 1.0
    ensures 0.0 <= x <= 1.0 ==> r == x
    ensures x < 0.0 ==> r == 0.0
    ensures x > 1.0 ==> r == 1.0
  {
    Max(0.0, Min(1.0, x))
  }

  /** Truncation toward zero, the quotient JavaScript's `%` is built on. */
  function Trunc(x: real): (r: int)
    ensures x >= 0.0 ==> r as real <= x < r as real + 1.0
    ensures x < 0.0 ==> r as real - 1.0 < x <= r as real
  {
    if x >= 0.0 then x.Floor else -((-x).Floor)
  }

  /** JavaScript's `x % d` for a nonzero divisor: `x - d * trunc(x / d)`. */
  function Rem(x: real, d: real): (r: real)
    requires d != 0.0
    ensures d > 0.0 && x >= 0.0 ==> 0.0 <= r < d
    ensures d > 0.0 && x < 0.0 ==> -d < r <= 0.0
    ensures d > 0.0 && 0.0 <= x < d ==> r == x
  {
    var q := Trunc(x / d);
    RemBounds(x, d, q);
    if d > 0.0 && 0.0 <= x < d then
      RemBelowDivisor(x, d);
      x - d * q as real
    else
      x - d * q as real
  }

  /** Below a positive divisor the quotient truncates to 0, so `%` leaves a
      non-negative dividend unchanged. */
  lemma RemBelowDivisor(x: real, d: real)
    requires 0.0 < d && 0.0 <= x < d
    ensures Trunc(x / d) == 0
  {
    assert 0.0 * d <= x < (0.0 + 1.0) * d;
    DivInUnitInterval(x, d, 0.0);
    FloorIs(x / d, 0);
  }

  lemma RemBounds(x: real, d: real, q: int)
    requires d != 0.0 && q == Trunc(x / d)
    ensures d > 0.0 && x >= 0.0 ==> 0.0 <= x - d * q as real < d
    ensures d > 0.0 && x < 0.0 ==> -d < x - d * q as real <= 0.0
  {
    if d > 0.0 {
      var y := x / d;
      assert x == d * y;
      var qr := q as real;
      if x >= 0.0 {
        MulNonNeg(x, 1.0 / d);
        assert y >= 0.0;
        MulLeftMono(d, qr, y);
        MulLeftStrictMono(d, y, qr + 1.0);
      } else {
        assert y < 0.0 by {
          MulLeftStrictMono(d, y, 0.0);
        }
        MulLeftStrictMono(d, qr - 1.0, y);
        MulLeftMono(d, y, qr);
      }
    }
  }
}
