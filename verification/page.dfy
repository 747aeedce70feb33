/** How src/pages/Index.tsx wires the pieces together: the panels receive
    `isActive = (index === activeSection)`, and the background receives the
    state the scroll step writes. */
module Page {

  import opened Wrappers
  import opened ScrollMapper
  import ScrollSection
  import Pattern
  import AnimatedBackground

  /** The panel the page renders at `index`, given the active section. */
  function Panel(index: int, activeSection: int): Option<ScrollSection.View> {
    ScrollSection.Render(index, activeSection, index == activeSection)
  }

  /** For every section the scroll step can select, exactly one of the three
      panels is centered, the active one; panels before it are off to the
      left and panels after it off to the right. */
  lemma ExactlyOneCentered(activeSection: int, index: int)
    requires 0 <= activeSection < SectionCount && 0 <= index < SectionCount
    ensures Panel(index, activeSection).Some?
    ensures Panel(index, activeSection).value.style.placement == ScrollSection.Centered <==> index == activeSection
    ensures index < activeSection ==> Panel(index, activeSection).value.style.placement == ScrollSection.OffLeft
    ensures index > activeSection ==> Panel(index, activeSection).value.style.placement == ScrollSection.OffRight
  {
    ScrollSection.StyleBySide(index, activeSection, index == activeSection);
  }

  /** With the page's wiring a panel is interactive exactly when its index
      is within one of the active section: the active panel and its two
      neighbours. */
  lemma PanelVisibleIff(index: int, activeSection: int)
    requires index != ScrollSection.ProxyIndex
    ensures Panel(index, activeSection).Some?
    ensures Panel(index, activeSection).value.interactive
        <==> -1 <= index - activeSection <= 1
  {
  }

  /** The eased lookup as written fails on a state the page really produces:
      a 300vh container scrolled two viewports in, its bottom edge at the
      bottom of the viewport, selects section 2, which has no keyframe. */
  lemma WiredPageReachesMissingKeyframe(windowScrollY: real, viewportHeight: real, s: PageState)
    requires viewportHeight > 0.0
    ensures var s' := Step(true, windowScrollY, Rect(-2.0 * viewportHeight, 3.0 * viewportHeight, viewportHeight), viewportHeight, s);
            && s'.activeSection == 2
            && AnimatedBackground.InterpolatedAsWritten(s'.activeSection, s'.transitionProgress).None?
  {
    assert SegmentHeight(3.0 * viewportHeight) == viewportHeight;
    AnimatedBackground.AsWrittenDefinedIff(2, 1.0);
  }

  /** With the corrected lookup every frame has pattern parameters within
      the two keyframes: a progress in [0,1] survives every step, whatever
      the sample, so from `Initial` on every state the step writes reads
      parameters between the keyframes. */
  lemma WiredPageAlwaysHasParameters(mounted: bool, windowScrollY: real, rect: Rect, viewportHeight: real, s: PageState)
    requires 0.0 <= s.transitionProgress <= 1.0
    ensures var s' := Step(mounted, windowScrollY, rect, viewportHeight, s);
            && 0.0 <= s'.transitionProgress <= 1.0
            && Pattern.Within(AnimatedBackground.Interpolated(s'.activeSection, s'.transitionProgress),
                              AnimatedBackground.Keyframes[0], AnimatedBackground.Keyframes[1])
  {
    var s' := Step(mounted, windowScrollY, rect, viewportHeight, s);
    AnimatedBackground.InterpolatedWithin(s'.activeSection, s'.transitionProgress);
  }

  /** One scroll event as the handler sees it: whether the container is
      mounted, `window.scrollY`, the container's rectangle and the viewport
      height. */
  datatype Sample = Sample(mounted: bool, windowScrollY: real, rect: Rect, viewportHeight: real)

  /** The state after the handler has run on each sample in turn. */
  function Replay(samples: seq<Sample>, s: PageState): PageState
    decreases |samples|
  {
    if |samples| == 0 then s
    else
      var e := samples[0];
      Replay(samples[1..], Step(e.mounted, e.windowScrollY, e.rect, e.viewportHeight, s))
  }

  /** After any sequence of scroll events from any state whose progress is
      in [0,1], the progress is still in [0,1] and the corrected lookup
      yields parameters between the two keyframes. */
  lemma {:induction false} ReplayHasParameters(samples: seq<Sample>, s: PageState)
    requires 0.0 <= s.transitionProgress <= 1.0
    ensures var s' := Replay(samples, s);
            && 0.0 <= s'.transitionProgress <= 1.0
            && Pattern.Within(AnimatedBackground.Interpolated(s'.activeSection, s'.transitionProgress),
                              AnimatedBackground.Keyframes[0], AnimatedBackground.Keyframes[1])
    decreases |samples|
  {
    if |samples| == 0 {
      AnimatedBackground.InterpolatedWithin(s.activeSection, s.transitionProgress);
    } else {
      var e := samples[0];
      WiredPageAlwaysHasParameters(e.mounted, e.windowScrollY, e.rect, e.viewportHeight, s);
      ReplayHasParameters(samples[1..], Step(e.mounted, e.windowScrollY, e.rect, e.viewportHeight, s));
    }
  }

  /** In particular from the page's initial state. */
  lemma FromInitialHasParameters(samples: seq<Sample>)
    ensures var s' := Replay(samples, Initial);
            Pattern.Within(AnimatedBackground.Interpolated(s'.activeSection, s'.transitionProgress),
                           AnimatedBackground.Keyframes[0], AnimatedBackground.Keyframes[1])
  {
    ReplayHasParameters(samples, Initial);
  }
}
