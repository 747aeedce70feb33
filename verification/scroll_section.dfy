/** One content panel of the scroll-jacked region
    (src/components/ScrollSection.tsx): whether it takes pointer events and
    where it is placed, as pure functions of its index, the active index and
    the `isActive` flag the page passes in. */
module ScrollSection {

  import opened Wrappers

  /** Where `translate3d` puts the panel: one viewport width to the left,
      in place, or one viewport width to the right. */
  datatype Placement = OffLeft | Centered | OffRight

  /** The inline style: placement, `scale(..)` and opacity. */
  datatype Style = Style(placement: Placement, scale: real, opacity: real)

  /** A rendered panel: `isVisible` selects `pointer-events-auto`. */
  datatype View = View(interactive: bool, style: Style)

  /** Index 3 is a proxy section that renders nothing. */
  const ProxyIndex: int := 3

  function IsVisible(index: int, activeIndex: int, isActive: bool): bool {
    isActive || index == activeIndex + 1 || index == activeIndex - 1
  }

  /** `getTransformStyles`: an inactive panel before the active index slides
      out left, one after it slides out right; every other case is centered,
      including an inactive panel whose index equals the active index. */
  function TransformStyle(index: int, activeIndex: int, isActive: bool): Style {
    if !isActive && index < activeIndex then Style(OffLeft, 0.8, 0.0)
    else if !isActive && index > activeIndex then Style(OffRight, 0.8, 0.0)
    else Style(Centered, 1.0, 1.0)
  }

  function Render(index: int, activeIndex: int, isActive: bool): Option<View> {
    if index == ProxyIndex then None
    else Some(View(IsVisible(index, activeIndex, isActive), TransformStyle(index, activeIndex, isActive)))
  }

  /** The proxy index renders nothing; every other index renders a panel. */
  lemma RenderProxy(index: int, activeIndex: int, isActive: bool)
    ensures Render(index, activeIndex, isActive).None? <==> index == ProxyIndex
  {
  }

  /** An inactive panel takes pointer events exactly when it is a neighbour
      of the active index; an active one always does. */
  lemma VisibleIsNeighbourhood(index: int, activeIndex: int, isActive: bool)
    ensures isActive ==> IsVisible(index, activeIndex, isActive)
    ensures !isActive ==> (IsVisible(index, activeIndex, isActive) <==> (index - activeIndex == 1 || activeIndex - index == 1))
  {
  }

  /** A panel is centered exactly when it is active or sits at the active
      index; only a centered panel is opaque and at full scale, and the
      off-screen side matches the side of the active index. */
  lemma StyleBySide(index: int, activeIndex: int, isActive: bool)
    ensures TransformStyle(index, activeIndex, isActive).placement == Centered <==> (isActive || index == activeIndex)
    ensures TransformStyle(index, activeIndex, isActive).placement == OffLeft <==> (!isActive && index < activeIndex)
    ensures TransformStyle(index, activeIndex, isActive).placement == OffRight <==> (!isActive && index > activeIndex)
    ensures TransformStyle(index, activeIndex, isActive).opacity == 1.0 <==> TransformStyle(index, activeIndex, isActive).placement == Centered
    ensures TransformStyle(index, activeIndex, isActive).opacity == 0.0 <==> TransformStyle(index, activeIndex, isActive).placement != Centered
  {
  }
}
