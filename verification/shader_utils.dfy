/** `lerp` from src/utils/shaderUtils.ts: `start * (1 - t) + end * t`. */
module ShaderUtils {

  import opened Arith

  function Lerp(start: real, end: real, t: real): real {
    start * (1.0 - t) + end * t
  }

  /** The two ends of the blend are the two inputs. */
  lemma LerpEndpoints(start: real, end: real)
    ensures Lerp(start, end, 0.0) == start
    ensures Lerp(start, end, 1.0) == end
  {
  }

  /** Blending a value with itself gives that value, whatever t is. */
  lemma LerpConstant(s: real, t: real)
    ensures Lerp(s, s, t) == s
  {
    assert s * (1.0 - t) + s * t == s * ((1.0 - t) + t);
  }

  /** The weighted form equals the offset form `start + (end - start) * t`. */
  lemma LerpOffsetForm(start: real, end: real, t: real)
    ensures Lerp(start, end, t) == start + (end - start) * t
  {
    assert start * (1.0 - t) == start - start * t;
    assert (end - start) * t == end * t - start * t;
  }

  /** An offset `a * t` with t in [0,1] moves `s` towards `s + a` without
      passing it. */
  lemma OffsetBetween(s: real, a: real, d: real, t: real)
    requires 0.0 <= t <= 1.0 && d == a * t
    ensures 0.0 <= a ==> s <= s + d <= s + a
    ensures a <= 0.0 ==> s + a <= s + d <= s
  {
    MulUnitBounds(a, t);
    if 0.0 <= a {
      assert 0.0 <= d <= a;
    } else {
      assert a <= d <= 0.0;
    }
  }

  /** For t in [0,1] the blend lies between the two inputs. */
  lemma LerpBetween(start: real, end: real, t: real)
    requires 0.0 <= t <= 1.0
    ensures start <= end ==> start <= Lerp(start, end, t) <= end
    ensures end <= start ==> end <= Lerp(start, end, t) <= start
  {
    LerpOffsetForm(start, end, t);
    OffsetBetween(start, end - start, (end - start) * t, t);
  }

  /** When end >= start the blend is non-decreasing in t. */
  lemma LerpMonotone(start: real, end: real, s: real, t: real)
    requires start <= end && s <= t
    ensures Lerp(start, end, s) <= Lerp(start, end, t)
  {
    LerpOffsetForm(start, end, s);
    LerpOffsetForm(start, end, t);
    MulLeftMono(end - start, s, t);
  }
}
