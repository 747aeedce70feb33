/** The scroll handler of src/pages/Index.tsx as one pure step: from the
    container's bounding rectangle, the viewport height, the window's scroll
    offset and the previous page state, compute the next page state.

    The container is 300vh tall and split into three equal segments; the
    section is chosen by thresholds, progress within a segment is eased with
    the quadratic ease-in-out, and once the container's bottom edge is inside
    the viewport the progress is replaced by a squared exit curve. */
module ScrollMapper {

  import opened Arith
  import opened JsMath
  import opened Easing

  /** `sections.length`: three content sections. */
  const SectionCount: int := 3

  /** What `getBoundingClientRect` reports for the container. */
  datatype Rect = Rect(top: real, height: real, bottom: real)

  /** The page's React state written by the handler. */
  datatype PageState = PageState(scrollY: real, activeSection: int, transitionProgress: real, isExiting: bool)

  /** The state before the first scroll event. */
  const Initial: PageState := PageState(0.0, 0, 0.0, false)

  /** `height / 3`: one segment per section transition. */
  function SegmentHeight(height: real): real {
    height / 3.0
  }

  /** The section chosen by the thresholds `h` and `2h`. */
  function SectionOf(pos: real, h: real): (r: int)
    ensures 0 <= r < SectionCount
  {
    if pos < h then 0 else if pos < h * 2.0 then 1 else 2
  }

  /** Progress within the chosen segment; the last section is pinned at 1.
      A division is only reached when `h > pos >= 0` or `2h > pos >= h`, so
      never by zero. */
  function RawProgress(pos: real, h: real): real
    requires pos >= 0.0
  {
    if pos < h then pos / h
    else if pos < h * 2.0 then (pos - h) / h
    else 1.0
  }

  /** The container's bottom edge is strictly inside the viewport. */
  predicate Exiting(bottom: real, viewportHeight: real) {
    bottom < viewportHeight && bottom > 0.0
  }

  /** `Math.pow(1 - bottom / viewportHeight, 2)`. */
  function ExitCurve(bottom: real, viewportHeight: real): real
    requires viewportHeight != 0.0
  {
    var x := 1.0 - bottom / viewportHeight;
    x * x
  }

  /** One run of `handleScroll`. `mounted` is whether the container ref is
      set; `windowScrollY` is `window.scrollY`. */
  function Step(mounted: bool, windowScrollY: real, rect: Rect, viewportHeight: real, s: PageState): (s': PageState)
    ensures !mounted ==> s' == s
    ensures mounted && -rect.top < 0.0 ==> s' == s.(scrollY := windowScrollY)
    ensures mounted && -rect.top >= 0.0 ==>
              && s'.scrollY == windowScrollY
              && s'.isExiting == (0.0 < rect.bottom < viewportHeight)
              && s'.activeSection == SectionOf(-rect.top, SegmentHeight(rect.height))
              && 0.0 <= s'.transitionProgress <= 1.0
  {
    if !mounted then s
    else
      var pos := -rect.top;
      var h := SegmentHeight(rect.height);
      if pos < 0.0 then s.(scrollY := windowScrollY)
      else
        var exiting := Exiting(rect.bottom, viewportHeight);
        var section := SectionOf(pos, h);
        var progress := if exiting then ExitCurve(rect.bottom, viewportHeight) else Ease(RawProgress(pos, h));
        var active := if 0 <= section < SectionCount then section else s.activeSection;
        PageState(windowScrollY, active, Clamp01(progress), exiting)
  }

  /** The segment thresholds agree with the floor formulation: the section is
      `min(floor(pos / h), 2)` and, below the last section, the raw progress
      is the fractional part of `pos / h`. */
  lemma SectionMatchesFloor(pos: real, h: real)
    requires pos >= 0.0 && h > 0.0
    ensures SectionOf(pos, h) == if (pos / h).Floor < 2 then (pos / h).Floor else 2
    ensures SectionOf(pos, h) < 2 ==> RawProgress(pos, h) == pos / h - SectionOf(pos, h) as real
  {
    var y := pos / h;
    if pos < h {
      DivInUnitInterval(pos, h, 0.0);
      FloorIs(y, 0);
    } else if pos < h * 2.0 {
      DivInUnitInterval(pos, h, 1.0);
      FloorIs(y, 1);
      DivShift(pos, h);
    } else {
      assert 2.0 <= y by {
        DivLeftMono(h * 2.0, pos, h);
      }
    }
  }

  /** More scrolling never selects an earlier section. */
  lemma SectionMonotone(p: real, q: real, h: real)
    requires p <= q
    ensures SectionOf(p, h) <= SectionOf(q, h)
  {
  }

  /** Outside the exit region the raw progress is in [0,1) for sections 0
      and 1 and exactly 1 for section 2. */
  lemma RawProgressRange(pos: real, h: real)
    requires pos >= 0.0
    ensures SectionOf(pos, h) < 2 ==> 0.0 <= RawProgress(pos, h) < 1.0
    ensures SectionOf(pos, h) == 2 ==> RawProgress(pos, h) == 1.0
  {
    if pos < h {
      DivLeftMono(0.0, pos, h);
      DivLeftStrictMono(pos, h, h);
    } else if pos < h * 2.0 {
      DivLeftMono(0.0, pos - h, h);
      DivLeftStrictMono(pos - h, h, h);
    }
  }

  /** A scroll offset exactly on a boundary belongs to the segment it enters:
      at `k h` the section is k, with raw progress 0 for k = 0, 1 and the
      pinned 1 for k = 2. */
  lemma BoundaryAttribution(k: int, h: real)
    requires h > 0.0 && 0 <= k < SectionCount
    ensures SectionOf(k as real * h, h) == k
    ensures k < 2 ==> RawProgress(k as real * h, h) == 0.0
    ensures k == 2 ==> RawProgress(k as real * h, h) == 1.0
  {
  }

  /** A container of height 0 (or less) divides nothing: every offset lands
      in the last section at the pinned progress 1. */
  lemma DegenerateHeight(pos: real, height: real)
    requires pos >= 0.0 && height <= 0.0
    ensures SectionOf(pos, SegmentHeight(height)) == 2
    ensures RawProgress(pos, SegmentHeight(height)) == 1.0
  {
  }

  /** While exiting, the exit curve is strictly inside (0,1). */
  lemma ExitCurveRange(bottom: real, viewportHeight: real)
    requires Exiting(bottom, viewportHeight)
    ensures 0.0 < ExitCurve(bottom, viewportHeight) < 1.0
  {
    DivStrictlyInside(bottom, viewportHeight);
    var x := 1.0 - bottom / viewportHeight;
    MulPos(x, x);
    SquareStrictMonotone(x, 1.0);
    assert ExitCurve(bottom, viewportHeight) == x * x;
  }

  /** The exit curve rises strictly as the bottom edge moves up the viewport. */
  lemma ExitCurveStrictlyIncreasesAsBottomFalls(lower: real, higher: real, viewportHeight: real)
    requires viewportHeight > 0.0 && lower < higher < viewportHeight
    ensures ExitCurve(higher, viewportHeight) < ExitCurve(lower, viewportHeight)
  {
    DivLeftStrictMono(lower, higher, viewportHeight);
    DivLeftStrictMono(higher, viewportHeight, viewportHeight);
    assert viewportHeight / viewportHeight == 1.0;
    SquareStrictMonotone(1.0 - higher / viewportHeight, 1.0 - lower / viewportHeight);
  }

  /** The clamp never changes a value: outside the exit region the progress is
      the eased raw progress, inside it the exit curve itself, not eased. */
  lemma StepProgress(mounted: bool, windowScrollY: real, rect: Rect, viewportHeight: real, s: PageState)
    requires mounted && -rect.top >= 0.0
    ensures var s' := Step(mounted, windowScrollY, rect, viewportHeight, s);
            && (s'.isExiting ==> s'.transitionProgress == ExitCurve(rect.bottom, viewportHeight))
            && (!s'.isExiting ==> s'.transitionProgress == Ease(RawProgress(-rect.top, SegmentHeight(rect.height))))
  {
    var pos := -rect.top;
    var h := SegmentHeight(rect.height);
    if Exiting(rect.bottom, viewportHeight) {
      ExitCurveRange(rect.bottom, viewportHeight);
    } else {
      RawProgressRange(pos, h);
      EaseInUnitRange(RawProgress(pos, h));
    }
  }

  /** For a fixed container height, scrolling further never lowers the active
      section. */
  lemma StepSectionMonotone(windowScrollY: real, r1: Rect, r2: Rect, viewportHeight: real, s: PageState)
    requires r1.height == r2.height && 0.0 <= -r1.top <= -r2.top
    ensures Step(true, windowScrollY, r1, viewportHeight, s).activeSection
         <= Step(true, windowScrollY, r2, viewportHeight, s).activeSection
  {
    SectionMonotone(-r1.top, -r2.top, SegmentHeight(r1.height));
  }

  /** Inside the container the result does not depend on the previous state,
      so replaying one scroll sample changes nothing. */
  lemma StepForgetsPrevious(windowScrollY: real, rect: Rect, viewportHeight: real, s: PageState, t: PageState)
    requires -rect.top >= 0.0
    ensures Step(true, windowScrollY, rect, viewportHeight, s) == Step(true, windowScrollY, rect, viewportHeight, t)
  {
  }

  /** Replaying the same scroll sample is idempotent in every case. */
  lemma StepIdempotent(mounted: bool, windowScrollY: real, rect: Rect, viewportHeight: real, s: PageState)
    ensures var s' := Step(mounted, windowScrollY, rect, viewportHeight, s);
            Step(mounted, windowScrollY, rect, viewportHeight, s') == s'
  {
  }

  /** Outside the exit region the last section shows progress 1. */
  lemma LastSectionProgressIsOne(windowScrollY: real, rect: Rect, viewportHeight: real, s: PageState)
    requires rect.height >= 0.0 && -rect.top >= SegmentHeight(rect.height) * 2.0
    requires !Exiting(rect.bottom, viewportHeight)
    ensures Step(true, windowScrollY, rect, viewportHeight, s).activeSection == 2
    ensures Step(true, windowScrollY, rect, viewportHeight, s).transitionProgress == 1.0
  {
    var h := SegmentHeight(rect.height);
    assert SectionOf(-rect.top, h) == 2;
    RawProgressRange(-rect.top, h);
    assert Ease(1.0) == 1.0 by {
      EaseFixedPoints();
    }
    StepProgress(true, windowScrollY, rect, viewportHeight, s);
  }

  /** A fraction d of the viewport into the exit region the progress is d
      squared: the exit restarts the progress near 0 although the last
      section showed 1 just before. */
  lemma ExitProgressAtDepth(windowScrollY: real, top: real, height: real, viewportHeight: real, d: real, s: PageState)
    requires viewportHeight > 0.0 && 0.0 < d < 1.0 && -top >= 0.0
    ensures Step(true, windowScrollY, Rect(top, height, viewportHeight * (1.0 - d)), viewportHeight, s).isExiting
    ensures Step(true, windowScrollY, Rect(top, height, viewportHeight * (1.0 - d)), viewportHeight, s).transitionProgress == d * d
  {
    var b := viewportHeight * (1.0 - d);
    assert Exiting(b, viewportHeight) by {
      MulPos(viewportHeight, 1.0 - d);
      MulLeftStrictMono(viewportHeight, 1.0 - d, 1.0);
    }
    assert ExitCurve(b, viewportHeight) == d * d by {
      MulDivCancel(viewportHeight, 1.0 - d);
    }
    StepProgress(true, windowScrollY, Rect(top, height, b), viewportHeight, s);
  }

  /** With the page's geometry (a 300vh container whose bottom is its top plus
      its height) the exit region is only reached in the last section, even
      though exiting does not pin the section. */
  lemma ExitingImpliesLastSection(windowScrollY: real, rect: Rect, viewportHeight: real, s: PageState)
    requires viewportHeight > 0.0
    requires rect.height == 3.0 * viewportHeight && rect.bottom == rect.top + rect.height
    requires -rect.top >= 0.0 && Exiting(rect.bottom, viewportHeight)
    ensures Step(true, windowScrollY, rect, viewportHeight, s).isExiting
    ensures Step(true, windowScrollY, rect, viewportHeight, s).activeSection == 2
  {
    assert SegmentHeight(rect.height) == viewportHeight;
  }

  /** An example: a 300-unit container scrolled 150 units in, with the
      bottom edge below a 100-unit viewport, is halfway through section 1, and
      the eased progress is 0.5 because both pieces of the ease meet there. */
  lemma HalfwayThroughSectionOne(windowScrollY: real, s: PageState)
    ensures var s' := Step(true, windowScrollY, Rect(-150.0, 300.0, 150.0), 100.0, s);
            s'.activeSection == 1 && !s'.isExiting && s'.transitionProgress == 0.5
  {
    assert RawProgress(150.0, 100.0) == 0.5;
    EaseFixedPoints();
  }
}
