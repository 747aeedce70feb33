/** The scroll-to-video-time mapping of the two scrubbing video components:
    on every scroll-trigger update the video is seeked to `progress *
    duration`, unless the guard skips the update. */
module VideoScrub {

  import opened Arith
  import opened JsMath
  import opened Wrappers

  /** src/exportable-components/ScrubStickyVideo.tsx: skipped when the
      progress is NaN or the duration is 0, NaN or missing. */
  function ScrubTime(progress: JsNumber, duration: JsNumber): (r: Option<real>)
    ensures r.Some? <==> progress.Num? && Truthy(duration)
    ensures r.Some? && 0.0 <= progress.value <= 1.0 && duration.value > 0.0 ==> 0.0 <= r.value <= duration.value
  {
    if progress.NaN? || !Truthy(duration) then None
    else Some(progress.value * duration.value)
  }

  /** src/components/ScrubStickyVideo.tsx: skipped only when the duration is
      0, NaN or missing; the progress is used as it comes. */
  function PageScrubTime(progress: real, duration: JsNumber): (r: Option<real>)
    ensures r.Some? <==> Truthy(duration)
    ensures r.Some? && 0.0 <= progress <= 1.0 && duration.value > 0.0 ==> 0.0 <= r.value <= duration.value
  {
    if !Truthy(duration) then None
    else Some(progress * duration.value)
  }

  /** A numeric progress with a positive duration always seeks, to
      `progress * duration`. */
  lemma ScrubTimeValue(p: real, duration: real)
    requires duration > 0.0
    ensures ScrubTime(Num(p), Num(duration)) == Some(p * duration)
    ensures PageScrubTime(p, Num(duration)) == Some(p * duration)
  {
    var d := Num(duration);
    assert Truthy(d);
    var r := ScrubTime(Num(p), d);
    assert r.value == p * duration && r == Some(r.value);
    var page := PageScrubTime(p, d);
    assert page.value == p * duration && page == Some(page.value);
  }

  /** The two components agree whenever the progress is a number; the seek is
      the start at progress 0, the end at progress 1, and moves forward as the
      page scrolls down. */
  lemma ScrubTimeShape(p: real, q: real, duration: real)
    requires duration > 0.0 && p <= q
    ensures ScrubTime(Num(p), Num(duration)) == PageScrubTime(p, Num(duration))
    ensures ScrubTime(Num(0.0), Num(duration)) == Some(0.0)
    ensures ScrubTime(Num(1.0), Num(duration)) == Some(duration)
    ensures ScrubTime(Num(p), Num(duration)).value <= ScrubTime(Num(q), Num(duration)).value
  {
    ScrubTimeValue(p, duration);
    ScrubTimeValue(q, duration);
    ScrubTimeValue(0.0, duration);
    ScrubTimeValue(1.0, duration);
    MulRightMono(duration, p, q);
    var rp, rq := ScrubTime(Num(p), Num(duration)), ScrubTime(Num(q), Num(duration));
    assert rp.value == p * duration;
    assert rq.value == q * duration;
  }
}
