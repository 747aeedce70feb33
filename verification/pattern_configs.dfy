/** The linear pattern interpolator of src/utils/patternConfigs.ts: a
    four-keyframe table, one keyframe per 100vh transition point, and a
    lookup that maps the three scroll sections onto consecutive pairs. */
module PatternConfigs {

  import opened Pattern

  /** Keyframes at 0vh, 100vh, 200vh and 300vh. */
  const Table: seq<PatternConfig> := [
    PatternConfig(1.0, 1.0, 1.0, 2.0),
    PatternConfig(3.0, -2.0, 2.5, 3.5),
    PatternConfig(-4.0, 4.0, 4.0, 4.6),
    PatternConfig(5.0, -4.5, 6.0, 3.0)
  ]

  /** The pair of table indices a section reads: section 0 and 1 read their
      own transition, every other value falls to the last transition. */
  function KeyframePair(section: int): (r: (nat, nat))
    ensures r.1 == r.0 + 1 && r.1 < |Table|
    ensures 0 <= section < 2 ==> r.0 == section
    ensures !(0 <= section < 2) ==> r == (2, 3)
  {
    if section == 0 then (0, 1)
    else if section == 1 then (1, 2)
    else (2, 3)
  }

  /** `getInterpolatedConfig`: blend the pair by the progress, unmodified. */
  function Interpolated(section: int, progress: real): PatternConfig {
    var (i, j) := KeyframePair(section);
    Blend(Table[i], Table[j], progress)
  }

  /** Progress 0 gives the section's own keyframe exactly, progress 1 the next. */
  lemma InterpolatedEndpoints(section: int)
    ensures Interpolated(section, 0.0) == Table[KeyframePair(section).0]
    ensures Interpolated(section, 1.0) == Table[KeyframePair(section).1]
  {
    var (i, j) := KeyframePair(section);
    BlendEndpoints(Table[i], Table[j]);
  }

  /** No jump at a section boundary: the end of section k is the start of k + 1. */
  lemma BoundaryContinuity(k: int)
    requires k == 0 || k == 1
    ensures Interpolated(k, 1.0) == Interpolated(k + 1, 0.0)
  {
    InterpolatedEndpoints(k);
    InterpolatedEndpoints(k + 1);
  }

  /** The result is `p + progress (q - p)` for the section's pair, with a single
      unmodified progress shared by all four parameters. */
  lemma InterpolatedIsAffine(section: int, progress: real)
    ensures var (i, j) := KeyframePair(section);
            Interpolated(section, progress) == Add(Table[i], Scale(progress, Sub(Table[j], Table[i])))
  {
    var (i, j) := KeyframePair(section);
    BlendIsAffine(Table[i], Table[j], progress);
  }

  /** For progress in [0,1] each parameter stays between the two keyframes read. */
  lemma InterpolatedWithin(section: int, progress: real)
    requires 0.0 <= progress <= 1.0
    ensures var (i, j) := KeyframePair(section);
            Within(Interpolated(section, progress), Table[i], Table[j])
  {
    var (i, j) := KeyframePair(section);
    BlendWithin(Table[i], Table[j], progress);
  }
}
