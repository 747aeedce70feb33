/** The eased pattern interpolator the renderer imports
    (src/components/animated-background/utils.ts) and its two-keyframe
    table (src/components/animated-background/types.ts).

    `getInterpolatedConfig` indexes the table with the section number
    without clamping it, so section 2 (which the scroll handler produces)
    reads `undefined` and the property access throws. `InterpolatedAsWritten`
    models that read, with `None` for the throw; `Interpolated` is the
    corrected lookup, which clamps the current index as well, and is the one
    the renderer model uses. */
module AnimatedBackground {

  import opened Wrappers
  import opened Easing
  import opened ShaderUtils
  import opened Pattern

  /** Section 1's keyframe and the exit keyframe; `m` is 2.0 in both. */
  const Keyframes: seq<PatternConfig> := [
    PatternConfig(1.0, 1.0, 1.0, 2.0),
    PatternConfig(0.0, 1.5, 3.5, 2.0)
  ]

  /** The eased `lerp`: ease t first, then apply the weighted blend
      `start * (1 - e) + end * e` of `lerp` to the eased weight e. */
  function EasedLerp(start: real, end: real, t: real): real {
    Lerp(start, end, Ease(t))
  }

  /** The eased blend applied to all four parameters. */
  function EasedBlend(p: PatternConfig, q: PatternConfig, t: real): PatternConfig {
    PatternConfig(EasedLerp(p.a, q.a, t), EasedLerp(p.b, q.b, t), EasedLerp(p.n, q.n, t), EasedLerp(p.m, q.m, t))
  }

  /** The eased lerp starts at `start`, ends at `end`, and agrees with the
      linear lerp halfway. */
  lemma EasedLerpEndpoints(start: real, end: real)
    ensures EasedLerp(start, end, 0.0) == start
    ensures EasedLerp(start, end, 1.0) == end
    ensures EasedLerp(start, end, 0.5) == Lerp(start, end, 0.5)
  {
    assert EasedLerp(start, end, 0.0) == start by {
      assert Ease(0.0) == 0.0;
      LerpEndpoints(start, end);
    }
    assert EasedLerp(start, end, 1.0) == end by {
      assert Ease(1.0) == 1.0;
      LerpEndpoints(start, end);
    }
    assert EasedLerp(start, end, 0.5) == Lerp(start, end, 0.5) by {
      assert Ease(0.5) == 0.5;
    }
  }

  /** One eased weight drives all four parameters: the eased blend is the
      linear blend at `Ease(t)`. */
  lemma EasedBlendIsBlendOfEase(p: PatternConfig, q: PatternConfig, t: real)
    ensures EasedBlend(p, q, t) == Blend(p, q, Ease(t))
  {
  }

  /** The eased blend starts on `p` and ends on `q`. */
  lemma EasedBlendEndpoints(p: PatternConfig, q: PatternConfig)
    ensures EasedBlend(p, q, 0.0) == p
    ensures EasedBlend(p, q, 1.0) == q
  {
    EasedLerpEndpoints(p.a, q.a);
    EasedLerpEndpoints(p.b, q.b);
    EasedLerpEndpoints(p.n, q.n);
    EasedLerpEndpoints(p.m, q.m);
  }

  /** `Math.min(activeSection + 1, patternConfigs.length - 1)`. */
  function NextIndex(section: int, len: nat): (r: int)
    requires len > 0
    ensures r <= len - 1
    ensures section + 1 <= len - 1 ==> r == section + 1
    ensures section >= len - 1 ==> r == len - 1
  {
    if section + 1 <= len - 1 then section + 1 else len - 1
  }

  /** `getInterpolatedConfig` as written: `None` when either index misses the
      table, where JavaScript reads `undefined` and `.a` throws. */
  function InterpolatedAsWritten(section: int, t: real): Option<PatternConfig> {
    var next := NextIndex(section, |Keyframes|);
    if 0 <= section < |Keyframes| && 0 <= next < |Keyframes| then
      Some(EasedBlend(Keyframes[section], Keyframes[next], t))
    else
      None
  }

  /** The current index, clamped into the table as the next index already is. */
  function CurrentIndex(section: int): (r: nat)
    ensures r < |Keyframes|
    ensures 0 <= section < |Keyframes| ==> r == section
  {
    if section < 0 then 0 else if section >= |Keyframes| then |Keyframes| - 1 else section
  }

  /** The corrected lookup: both indices are clamped, so every section reads
      a keyframe. */
  function Interpolated(section: int, t: real): PatternConfig {
    var i := CurrentIndex(section);
    var j := NextIndex(i, |Keyframes|);
    EasedBlend(Keyframes[i], Keyframes[j], t)
  }

  /** The as-written lookup succeeds exactly for the sections the table has. */
  lemma AsWrittenDefinedIff(section: int, t: real)
    ensures InterpolatedAsWritten(section, t).Some? <==> 0 <= section < |Keyframes|
  {
  }

  /** Section 2, which the scroll handler produces once two thirds of the
      container have scrolled by, has no keyframe in the two-entry table. */
  lemma AsWrittenMissesSectionTwo(t: real)
    ensures |Keyframes| == 2
    ensures InterpolatedAsWritten(2, t) == None
  {
  }

  /** Wherever the as-written lookup succeeds, the corrected one agrees with it. */
  lemma CorrectedAgreesInRange(section: int, t: real)
    requires 0 <= section < |Keyframes|
    ensures InterpolatedAsWritten(section, t) == Some(Interpolated(section, t))
  {
  }

  /** Section 0 (or below) eases from entry 0 to entry 1; section 1 and every
      later section sit on the exit keyframe for every t. */
  lemma InterpolatedBySection(section: int, t: real)
    ensures section <= 0 ==> Interpolated(section, t) == EasedBlend(Keyframes[0], Keyframes[1], t)
    ensures section >= 1 ==> Interpolated(section, t) == Keyframes[1]
  {
    if section >= 1 {
      EasedBlendIsBlendOfEase(Keyframes[1], Keyframes[1], t);
      BlendSame(Keyframes[1], Ease(t));
    }
  }

  /** When the section is the last index, the next index is clamped onto it
      and the result is that keyframe whatever the progress. */
  lemma LastSectionConstant(t: real)
    ensures NextIndex(|Keyframes| - 1, |Keyframes|) == |Keyframes| - 1
    ensures Interpolated(|Keyframes| - 1, t) == Keyframes[|Keyframes| - 1]
  {
    InterpolatedBySection(|Keyframes| - 1, t);
  }

  /** `m` is 2.0 in both keyframes, so the blended `m` is 2.0 everywhere. */
  lemma MConstant(section: int, t: real)
    ensures Interpolated(section, t).m == 2.0
    ensures InterpolatedAsWritten(section, t).Some? ==> InterpolatedAsWritten(section, t).value.m == 2.0
  {
    LerpConstant(2.0, Ease(t));
  }

  /** Section 0 (and anything below it) starts on entry 0 and ends on entry 1. */
  lemma InterpolatedEndpoints(section: int)
    requires section <= 0
    ensures Interpolated(section, 0.0) == Keyframes[0]
    ensures Interpolated(section, 1.0) == Keyframes[1]
  {
    InterpolatedBySection(section, 0.0);
    InterpolatedBySection(section, 1.0);
    EasedBlendEndpoints(Keyframes[0], Keyframes[1]);
  }

  /** For t in [0,1] every parameter stays between the two keyframes read. */
  lemma InterpolatedWithin(section: int, t: real)
    requires 0.0 <= t <= 1.0
    ensures Within(Interpolated(section, t), Keyframes[0], Keyframes[1])
  {
    EaseInUnitRange(t);
    if section <= 0 {
      EasedBlendIsBlendOfEase(Keyframes[0], Keyframes[1], t);
      BlendWithin(Keyframes[0], Keyframes[1], Ease(t));
    } else {
      InterpolatedBySection(section, t);
    }
  }
}
