/** The four shader parameters of one keyframe of the interference pattern,
    and the component-wise blend between two keyframes. */
module Pattern {

  import opened ShaderUtils

  datatype PatternConfig = PatternConfig(a: real, b: real, n: real, m: real)

  /** Each of `a`, `b`, `n`, `m` is blended with `lerp` by the same `t`. */
  function Blend(p: PatternConfig, q: PatternConfig, t: real): PatternConfig {
    PatternConfig(Lerp(p.a, q.a, t), Lerp(p.b, q.b, t), Lerp(p.n, q.n, t), Lerp(p.m, q.m, t))
  }

  // Vector operations on configurations, for stating the blend as a point on a segment.

  function Add(p: PatternConfig, q: PatternConfig): PatternConfig {
    PatternConfig(p.a + q.a, p.b + q.b, p.n + q.n, p.m + q.m)
  }

  function Sub(p: PatternConfig, q: PatternConfig): PatternConfig {
    PatternConfig(p.a - q.a, p.b - q.b, p.n - q.n, p.m - q.m)
  }

  function Scale(t: real, p: PatternConfig): PatternConfig {
    PatternConfig(t * p.a, t * p.b, t * p.n, t * p.m)
  }

  predicate Between(x: real, lo: real, hi: real) {
    (lo <= x <= hi) || (hi <= x <= lo)
  }

  /** Every component of `r` lies between the matching components of `p` and `q`. */
  predicate Within(r: PatternConfig, p: PatternConfig, q: PatternConfig) {
    Between(r.a, p.a, q.a) && Between(r.b, p.b, q.b) && Between(r.n, p.n, q.n) && Between(r.m, p.m, q.m)
  }

  /** The blend is the point `p + t (q - p)` on the segment from `p` to `q`:
      one scalar moves all four parameters together. */
  lemma BlendIsAffine(p: PatternConfig, q: PatternConfig, t: real)
    ensures Blend(p, q, t) == Add(p, Scale(t, Sub(q, p)))
  {
    LerpOffsetForm(p.a, q.a, t);
    LerpOffsetForm(p.b, q.b, t);
    LerpOffsetForm(p.n, q.n, t);
    LerpOffsetForm(p.m, q.m, t);
  }

  /** At t = 0 the blend is the first keyframe, at t = 1 the second. */
  lemma BlendEndpoints(p: PatternConfig, q: PatternConfig)
    ensures Blend(p, q, 0.0) == p
    ensures Blend(p, q, 1.0) == q
  {
  }

  /** Blending a keyframe with itself yields it for every t. */
  lemma BlendSame(p: PatternConfig, t: real)
    ensures Blend(p, p, t) == p
  {
    LerpConstant(p.a, t);
    LerpConstant(p.b, t);
    LerpConstant(p.n, t);
    LerpConstant(p.m, t);
  }

  /** For t in [0,1] no component leaves the range spanned by the keyframes. */
  lemma BlendWithin(p: PatternConfig, q: PatternConfig, t: real)
    requires 0.0 <= t <= 1.0
    ensures Within(Blend(p, q, t), p, q)
  {
    LerpBetween(p.a, q.a, t);
    LerpBetween(p.b, q.b, t);
    LerpBetween(p.n, q.n, t);
    LerpBetween(p.m, q.m, t);
  }

  /** An example: halfway between the first two keyframes of the linear
      table, `{1, 1, 1, 2}` and `{3, -2, 2.5, 3.5}`. */
  lemma BlendHalfwayExample()
    ensures Blend(PatternConfig(1.0, 1.0, 1.0, 2.0), PatternConfig(3.0, -2.0, 2.5, 3.5), 0.5)
         == PatternConfig(2.0, -0.5, 1.75, 2.75)
  {
  }
}
