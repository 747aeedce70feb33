/** The non-GPU part of src/components/animated-background/WebGLRenderer.tsx
    and the prop forwarding of src/components/AnimatedBackground.tsx: which
    tint variant the shader gets, the period-wrapped scroll-X uniform, the
    section indicator text, and the four pattern parameters of a frame. */
module Renderer {

  import opened Arith
  import opened JsMath
  import opened Pattern
  import AnimatedBackground

  /** The props both components declare. */
  datatype Props = Props(scrollY: real, activeSection: int, transitionProgress: real, isExiting: bool)

  /** `AnimatedBackground` destructures only `scrollY`, `activeSection` and
      `transitionProgress`; the renderer's `isExiting` is left `undefined`,
      which every test in the renderer reads as false. */
  function Forward(props: Props): (r: Props)
    ensures r.scrollY == props.scrollY
    ensures r.activeSection == props.activeSection
    ensures r.transitionProgress == props.transitionProgress
    ensures !r.isExiting
  {
    props.(isExiting := false)
  }

  /** The tint selector: 3 (the exit buffer) while exiting, else the section. */
  function TransitionSection(isExiting: bool, activeSection: int): int {
    if isExiting then 3 else activeSection
  }

  /** `(scrollY % 1000) / 1000` with JavaScript's sign-of-dividend `%`. */
  function NormalizedScrollX(scrollY: real): (r: real)
    ensures scrollY >= 0.0 ==> 0.0 <= r < 1.0
    ensures scrollY < 0.0 ==> -1.0 < r <= 0.0
    ensures 0.0 <= scrollY < 1000.0 ==> r == scrollY / 1000.0
  {
    Rem(scrollY, 1000.0) / 1000.0
  }

  /** Scrolling a further 1000 pixels gives the same scroll-X. */
  lemma NormalizedScrollXPeriodic(scrollY: real)
    requires scrollY >= 0.0
    ensures NormalizedScrollX(scrollY + 1000.0) == NormalizedScrollX(scrollY)
  {
    var q := (scrollY / 1000.0).Floor;
    assert (scrollY + 1000.0) / 1000.0 == scrollY / 1000.0 + 1.0;
    FloorIs((scrollY + 1000.0) / 1000.0, q + 1);
  }

  /** Every non-negative scroll position is some offset below 1000 plus k
      whole periods, and its scroll-X is that offset over 1000. */
  lemma {:induction false} NormalizedScrollXValue(offset: real, k: nat)
    requires 0.0 <= offset < 1000.0
    ensures NormalizedScrollX(offset + 1000.0 * k as real) == offset / 1000.0
    decreases k
  {
    if k > 0 {
      NormalizedScrollXValue(offset, k - 1);
      var y := offset + 1000.0 * (k - 1) as real;
      NormalizedScrollXPeriodic(y);
      assert y + 1000.0 == offset + 1000.0 * k as real;
    }
  }

  /** The four indicator texts, in the order the markup tests for them. */
  const Labels: seq<string> := ["Section 1→2", "Section 2→3", "Section 3→Exit", "Exit Buffer"]

  /** The indicator's children: four independent `transitionSection === k &&
      label` expressions; a false one renders nothing. */
  function IndicatorChildren(transitionSection: int): seq<string> {
    (if transitionSection == 0 then [Labels[0]] else [])
    + (if transitionSection == 1 then [Labels[1]] else [])
    + (if transitionSection == 2 then [Labels[2]] else [])
    + (if transitionSection == 3 then [Labels[3]] else [])
  }

  /** Exactly one label shows for each selector 0..3, the one at that index,
      and none for any other value. */
  lemma ExactlyOneLabel(transitionSection: int)
    ensures 0 <= transitionSection < |Labels| ==> IndicatorChildren(transitionSection) == [Labels[transitionSection]]
    ensures !(0 <= transitionSection < |Labels|) ==> IndicatorChildren(transitionSection) == []
  {
  }

  /** The four labels are pairwise different, so the text identifies the selector. */
  lemma LabelsDistinct()
    ensures forall i, j :: 0 <= i < j < |Labels| ==> Labels[i] != Labels[j]
  {
    assert Labels[0][8] != Labels[1][8];
    assert Labels[0][8] != Labels[2][8];
    assert Labels[1][8] != Labels[2][8];
    assert Labels[3][0] != Labels[0][0];
    assert Labels[3][0] != Labels[1][0];
    assert Labels[3][0] != Labels[2][0];
  }

  /** Exiting selects the exit-buffer tint and label; otherwise a section
      0..2 selects its own transition label, never the exit one. */
  lemma SelectorLabel(isExiting: bool, activeSection: int)
    ensures isExiting ==> IndicatorChildren(TransitionSection(isExiting, activeSection)) == ["Exit Buffer"]
    ensures !isExiting && 0 <= activeSection < 3 ==>
              IndicatorChildren(TransitionSection(isExiting, activeSection)) == [Labels[activeSection]]
              && Labels[activeSection] != "Exit Buffer"
  {
    ExactlyOneLabel(TransitionSection(isExiting, activeSection));
    LabelsDistinct();
  }

  /** The pattern parameters of one frame. The renderer passes `isExiting` as
      a third argument, which `getInterpolatedConfig` ignores; the lookup is
      the clamped one (see `AnimatedBackground.Interpolated`). */
  function FrameParams(props: Props): PatternConfig {
    AnimatedBackground.Interpolated(props.activeSection, props.transitionProgress)
  }

  /** The frame's parameters depend only on section and progress. */
  lemma FrameParamsIgnoreExiting(p: Props, q: Props)
    requires p.activeSection == q.activeSection && p.transitionProgress == q.transitionProgress
    ensures FrameParams(p) == FrameParams(q)
  {
  }

  /** As wired, the exit flag never reaches the renderer: the selector always
      equals the active section, so for sections 0..2 the exit-buffer tint
      and label are unreachable. */
  lemma WiredSelectorIsActiveSection(props: Props)
    ensures TransitionSection(Forward(props).isExiting, Forward(props).activeSection) == props.activeSection
    ensures 0 <= props.activeSection < 3 ==>
              IndicatorChildren(TransitionSection(Forward(props).isExiting, Forward(props).activeSection)) == [Labels[props.activeSection]]
    ensures 0 <= props.activeSection < 3 ==>
              Labels[3] !in IndicatorChildren(TransitionSection(Forward(props).isExiting, Forward(props).activeSection))
  {
    ExactlyOneLabel(props.activeSection);
    LabelsDistinct();
  }
}
