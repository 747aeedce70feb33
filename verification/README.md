# Scroll-driven pattern animation, modelled in Dafny

This project models the logic of a scroll-jacked marketing page. The page has
a 300vh container split into three 100vh segments. As the user scrolls
through it, a scroll handler picks an active section and a transition
progress in [0,1]. A WebGL background turns that pair into four shader
parameters `{a, b, n, m}` by blending hand-authored keyframes. Content
panels slide in and out around the active section.

The model also covers three smaller pieces of the same repository:

- the word/character span markup of the reveal-text component;
- the simulated preloader progress shared by the three video components;
- the mapping from scroll progress to video time.

Everything is a pure function over `real`, `int`, `bool` and `string`. The
scroll handler is one state step, `ScrollMapper.Step`. DOM measurements,
`window.scrollY` and the loaded/loading flags are parameters. The preloader's
interval is modelled as a count of ticks.

Modules (one per source concern):

| module | file | models |
|---|---|---|
| `JsMath` | jsmath.dfy | `Math.min`/`max`, the `[0,1]` clamp, JavaScript `%` (the remainder has the dividend's sign), NaN-or-number |
| `Arith` | arith.dfy | helper facts about real multiplication, division and floor |
| `Easing` | easing.dfy | the quadratic ease-in-out, written out in two places in the source and defined once here |
| `ShaderUtils` | shader_utils.dfy | `lerp` |
| `Pattern` | pattern.dfy | the `PatternConfig` record and the component-wise blend |
| `PatternConfigs` | pattern_configs.dfy | the linear four-keyframe interpolator |
| `AnimatedBackground` | animated_background.dfy | the eased two-keyframe interpolator the renderer imports, as written and corrected |
| `ScrollMapper` | scroll_mapper.dfy | `handleScroll` |
| `Renderer` | renderer.dfy | the tint selector, scroll-X, indicator label and frame parameters of `WebGLRenderer`, and `AnimatedBackground`'s prop forwarding |
| `ScrollSection` | scroll_section.dfy | a panel's visibility and placement |
| `Page` | page.dfy | how `Index` wires the step's output into the panels and the background |
| `RevealText` | reveal_text.dfy | text fallback, word split, span markup, stagger offsets |
| `Preloader` | preloader.dfy | the tick arithmetic shared by the three video components |
| `VideoScrub` | video_scrub.dfy | scroll progress to video time |

Some behaviours of the code that are easy to misread are modelled as the
code has them:

- **Zero-height container.** `handleScroll` has no guard for a zero height
  (src/pages/Index.tsx:40-45). With `height = 0` neither threshold branch at
  src/pages/Index.tsx:56-63 is taken, so no division happens, and every
  offset lands in section 2 at progress 1 (`ScrollMapper.DegenerateHeight`).
- **Section while exiting.** The exit test at src/pages/Index.tsx:48-49 only
  changes the progress. The section is still chosen by the thresholds at
  src/pages/Index.tsx:56-68. With the page's 300vh geometry this still gives
  section 2 (`ScrollMapper.ExitingImpliesLastSection`).
- **Boundary progress.** At `0` and `h` the new section starts at raw
  progress 0. At `2h` section 2 starts at its pinned progress of 1
  (src/pages/Index.tsx:64-68, `ScrollMapper.BoundaryAttribution`).
- **Two interpolators.** src/utils/patternConfigs.ts:13-18 has four
  keyframes for three sections and sends every section other than 0 and 1 to
  the last pair (2,3) (`PatternConfigs.KeyframePair`). The eased
  interpolator the renderer imports behaves differently:
  - its table at src/components/animated-background/types.ts:16-19 has two
    keyframes for three sections;
  - it takes no `isExiting` argument (src/components/animated-background/utils.ts:12);
  - it does not clamp the current index (utils.ts:14; see Findings).
- **Exit tint.** `AnimatedBackground` never forwards `isExiting`
  (src/components/AnimatedBackground.tsx:6-12). The exit tint selector 3 is
  therefore unreachable (`Renderer.WiredSelectorIsActiveSection`).

## Model

| member | source | states |
|---|---|---|
| `ScrollMapper.Step` | src/pages/Index.tsx:33-88 | without the container ref nothing changes; with a negative scroll position only `scrollY` is written; otherwise `isExiting` holds exactly when `0 < bottom < viewportHeight`, the active section is always written from the thresholds, and the progress is in [0,1] |
| `ScrollMapper.SectionOf` | src/pages/Index.tsx:56-68 | the chosen section is always a valid index 0..2 of the three sections |
| `ScrollMapper.SectionMatchesFloor` | src/pages/Index.tsx:56-68 | the threshold choice equals `min(floor(pos/h), 2)`, and for sections 0 and 1 the raw progress is the fractional part of `pos/h` |
| `ScrollMapper.SectionMonotone` | src/pages/Index.tsx:56-68 | a larger scroll position never gives an earlier section |
| `ScrollMapper.StepSectionMonotone` | src/pages/Index.tsx:41-68 | for a fixed container height, scrolling further never lowers the active section the step writes |
| `ScrollMapper.RawProgressRange` | src/pages/Index.tsx:56-68 | raw progress is in [0,1) for sections 0 and 1 and exactly 1 for section 2 |
| `ScrollMapper.BoundaryAttribution` | src/pages/Index.tsx:56-68 | at exactly `k·h` the section is k; raw progress is 0 for k = 0, 1 and the pinned 1 for k = 2 |
| `ScrollMapper.DegenerateHeight` | src/pages/Index.tsx:42-68 | with height 0 no division is reached and every offset ≥ 0 gives section 2 at raw progress 1 |
| `ScrollMapper.ExitCurveRange` | src/pages/Index.tsx:71-73 | while exiting, `(1 - bottom/vh)²` is strictly between 0 and 1 |
| `ScrollMapper.ExitCurveStrictlyIncreasesAsBottomFalls` | src/pages/Index.tsx:71-73 | the exit progress strictly increases as the bottom edge moves up |
| `ScrollMapper.StepProgress` | src/pages/Index.tsx:70-83 | the clamp never changes anything: while exiting the progress is the exit curve, not eased; otherwise it is the eased raw progress |
| `ScrollMapper.StepForgetsPrevious` | src/pages/Index.tsx:45-87 | once inside the container the new state does not depend on the previous one |
| `ScrollMapper.StepIdempotent` | src/pages/Index.tsx:33-88 | running the handler twice on the same scroll sample gives the same state as running it once |
| `ScrollMapper.LastSectionProgressIsOne` | src/pages/Index.tsx:64-78 | past `2h` and outside the exit region the step writes section 2 at progress 1 |
| `ScrollMapper.ExitProgressAtDepth` | src/pages/Index.tsx:71-73 | a fraction d of the viewport into the exit region the progress is d², so it restarts near 0 after the last section showed 1 |
| `ScrollMapper.ExitingImpliesLastSection` | src/pages/Index.tsx:42-66 | with height 3·vh and bottom = top + height, exiting implies section 2, although exiting does not pin it |
| `ScrollMapper.HalfwayThroughSectionOne` | src/pages/Index.tsx:56-78 | 150 into a 300 container with the bottom below the viewport gives section 1, not exiting, progress 0.5 |
| `JsMath.Clamp01` | src/pages/Index.tsx:82 | `max(0, min(1, x))` is in [0,1], is the identity on [0,1], and sends values below 0 to 0 and above 1 to 1 |
| `JsMath.Rem` | src/components/animated-background/WebGLRenderer.tsx:19 | JavaScript `%` by a positive divisor is in [0, d) for a non-negative dividend and in (-d, 0] for a negative one, and leaves a dividend in [0, d) unchanged |
| `Easing.EaseFixedPoints` | src/pages/Index.tsx:76-78 | the ease gives 0 at 0 and 1 at 1, and both pieces give 0.5 at t = 0.5 |
| `Easing.EaseInUnitRange` | src/pages/Index.tsx:76-78 | the ease maps [0,1] into [0,1] |
| `Easing.EaseMonotone` | src/components/animated-background/utils.ts:7 | the ease is non-decreasing on [0,1] |
| `Easing.EaseStrictlyMonotone` | src/pages/Index.tsx:76-78 | the ease is strictly increasing on [0,1] |
| `Easing.EaseSymmetric` | src/components/animated-background/utils.ts:7 | `ease(1 - t) = 1 - ease(t)` for every t |
| `ShaderUtils.LerpEndpoints` | src/utils/shaderUtils.ts:84-86 | `lerp(s, e, 0) = s` and `lerp(s, e, 1) = e` |
| `ShaderUtils.LerpConstant` | src/utils/shaderUtils.ts:84-86 | `lerp(s, s, t) = s` for all t |
| `ShaderUtils.LerpOffsetForm` | src/utils/shaderUtils.ts:84-86 | the weighted form equals `s + (e - s)·t` |
| `ShaderUtils.LerpBetween` | src/utils/shaderUtils.ts:84-86 | for t in [0,1] the result is between `s` and `e` |
| `ShaderUtils.LerpMonotone` | src/utils/shaderUtils.ts:84-86 | for `e ≥ s` the result is non-decreasing in t |
| `Pattern.BlendIsAffine` | src/utils/patternConfigs.ts:47-52 | the blend of four parameters is the point `p + t(q - p)`, so one t moves all four |
| `Pattern.BlendEndpoints` | src/utils/patternConfigs.ts:47-52 | the blend is the first keyframe at t = 0 and the second at t = 1 |
| `Pattern.BlendSame` | src/utils/patternConfigs.ts:47-52 | blending a keyframe with itself gives it for every t |
| `Pattern.BlendWithin` | src/utils/patternConfigs.ts:47-52 | for t in [0,1] every component lies between the two keyframes' components |
| `Pattern.BlendHalfwayExample` | src/utils/patternConfigs.ts:13-15 | halfway between the linear table's first two keyframes `{1,1,1,2}` and `{3,-2,2.5,3.5}` the blend is `{2,-0.5,1.75,2.75}` |
| `PatternConfigs.KeyframePair` | src/utils/patternConfigs.ts:30-45 | sections 0 and 1 read pairs (0,1) and (1,2); any other value reads (2,3); both reads stay in the four-entry table |
| `PatternConfigs.InterpolatedEndpoints` | src/utils/patternConfigs.ts:44-52 | at progress 0 the result is exactly the section's keyframe, at 1 exactly the next one |
| `PatternConfigs.BoundaryContinuity` | src/utils/patternConfigs.ts:30-45 | the value at `(k, 1)` equals the value at `(k+1, 0)` for k = 0, 1 |
| `PatternConfigs.InterpolatedIsAffine` | src/utils/patternConfigs.ts:28-52 | the unmodified progress blends all four components as one affine step between the pair |
| `PatternConfigs.InterpolatedWithin` | src/utils/patternConfigs.ts:47-52 | for progress in [0,1] each component stays between the pair's components |
| `AnimatedBackground.EasedLerpEndpoints` | src/components/animated-background/utils.ts:5-9 | the eased lerp returns `start` at 0 and `end` at 1, and agrees with the linear lerp at 0.5 |
| `AnimatedBackground.EasedBlendIsBlendOfEase` | src/components/animated-background/utils.ts:17-22 | one eased t drives all four components: the eased blend is the linear blend at `ease(t)` |
| `AnimatedBackground.EasedBlendEndpoints` | src/components/animated-background/utils.ts:17-22 | the eased blend starts on the first keyframe and ends on the second |
| `AnimatedBackground.NextIndex` | src/components/animated-background/utils.ts:15 | the next index never exceeds the last index; it is `section + 1` when that fits, else the last index |
| `AnimatedBackground.AsWrittenDefinedIff` | src/components/animated-background/utils.ts:14-15 | the unclamped lookup yields a keyframe exactly for `0 ≤ section < 2` |
| `AnimatedBackground.AsWrittenMissesSectionTwo` | src/components/animated-background/types.ts:16-19 | the table has two entries, and section 2 reads past it |
| `AnimatedBackground.CurrentIndex` | src/components/animated-background/utils.ts:14 | the corrected current index is always inside the table and is the section itself when that is in range |
| `AnimatedBackground.CorrectedAgreesInRange` | src/components/animated-background/utils.ts:12-23 | wherever the as-written lookup succeeds, the corrected lookup gives the same configuration |
| `AnimatedBackground.InterpolatedBySection` | src/components/animated-background/utils.ts:12-23 | with the corrected lookup, section 0 eases from entry 0 to entry 1, and every section ≥ 1, which reads past the table as written, is constantly entry 1 |
| `AnimatedBackground.LastSectionConstant` | src/components/animated-background/utils.ts:15 | at the last index the next index is clamped onto it and the result is that keyframe for every t |
| `AnimatedBackground.MConstant` | src/components/animated-background/types.ts:17-18 | `m` is 2.0 in both entries, so the blended `m` is 2.0 for every section and t |
| `AnimatedBackground.InterpolatedEndpoints` | src/components/animated-background/utils.ts:12-23 | section 0 gives entry 0 at t = 0 and entry 1 at t = 1 |
| `AnimatedBackground.InterpolatedWithin` | src/components/animated-background/utils.ts:17-22 | for t in [0,1] each parameter stays between the two keyframes |
| `Renderer.Forward` | src/components/AnimatedBackground.tsx:6-12 | scroll, section and progress are passed through and `isExiting` arrives falsy |
| `Renderer.NormalizedScrollX` | src/components/animated-background/WebGLRenderer.tsx:19 | `(scrollY % 1000)/1000` is in [0,1) for `scrollY ≥ 0` and in (-1,0] below, and is `scrollY/1000` for `scrollY` in [0,1000) |
| `Renderer.NormalizedScrollXPeriodic` | src/components/animated-background/WebGLRenderer.tsx:19 | for `scrollY ≥ 0` the scroll-X repeats with period 1000 |
| `Renderer.NormalizedScrollXValue` | src/components/animated-background/WebGLRenderer.tsx:19 | for every non-negative scroll position `offset + 1000·k` with offset in [0,1000), the scroll-X is `offset/1000` |
| `Renderer.ExactlyOneLabel` | src/components/animated-background/WebGLRenderer.tsx:137-142 | each selector 0..3 shows exactly its own label, and any other value shows none |
| `Renderer.LabelsDistinct` | src/components/animated-background/WebGLRenderer.tsx:138-141 | the four labels are pairwise different |
| `Renderer.SelectorLabel` | src/components/animated-background/WebGLRenderer.tsx:23-29 | exiting selects the exit-buffer label; otherwise section 0..2 selects its own label, never the exit one |
| `Renderer.FrameParamsIgnoreExiting` | src/components/animated-background/WebGLRenderer.tsx:100 | a frame's pattern parameters depend only on section and progress |
| `Renderer.WiredSelectorIsActiveSection` | src/components/AnimatedBackground.tsx:6-12 | as wired, the selector always equals the active section; for sections 0..2 the exit-buffer label is unreachable |
| `ScrollSection.RenderProxy` | src/components/ScrollSection.tsx:22-24 | index 3 renders nothing and every other index renders a panel |
| `ScrollSection.VisibleIsNeighbourhood` | src/components/ScrollSection.tsx:26 | an active panel is visible; an inactive one is visible exactly when its index is one away from the active index |
| `ScrollSection.StyleBySide` | src/components/ScrollSection.tsx:28-37 | inactive and before the active index: off left; inactive and after it: off right; otherwise centered, including the inactive panel at the active index; only a centered panel is opaque |
| `Page.ExactlyOneCentered` | src/pages/Index.tsx:131-139 | with `isActive = (index = activeSection)` and section 0..2, exactly the active panel is centered, with earlier panels left and later ones right |
| `Page.PanelVisibleIff` | src/components/ScrollSection.tsx:26 | with `isActive = (index = activeSection)` from src/pages/Index.tsx:135, every non-proxy panel renders, and it is interactive exactly when its index is within one of the active section |
| `Page.WiredPageReachesMissingKeyframe` | src/components/animated-background/utils.ts:12-15 | a 300vh container scrolled two viewports in makes the step select section 2, for which the as-written lookup has no keyframe |
| `Page.WiredPageAlwaysHasParameters` | src/pages/Index.tsx:106-111 | from any state whose progress is in [0,1], one step keeps the progress in [0,1], and with the corrected lookup the parameters lie between the two keyframes |
| `Page.ReplayHasParameters` | src/pages/Index.tsx:33-88 | with the corrected lookup, after any sequence of scroll events from a state with progress in [0,1], the progress is still in [0,1] and the parameters lie between the two keyframes (as written, any replay reaching section 2 throws; see Findings) |
| `Page.FromInitialHasParameters` | src/pages/Index.tsx:106-111 | with the corrected lookup, every state the handler writes, after any sequence of scroll events from the page's initial state, yields parameters between the two keyframes |
| `RevealText.DisplayText` | src/exportable-components/RevealText/RevealText.tsx:196 | the fetched text is shown when present and non-empty, otherwise the default; the result is empty only if the default is |
| `RevealText.SplitWords` | src/exportable-components/RevealText/RevealText.tsx:137 | the split yields at least one piece, and no piece contains a space |
| `RevealText.JoinSplit` | src/exportable-components/RevealText/RevealText.tsx:137 | joining the pieces with single spaces gives back the text, empty pieces from consecutive spaces included |
| `RevealText.SplitJoin` | src/exportable-components/RevealText/RevealText.tsx:137 | splitting a space-joined list of space-free words gives the list back |
| `RevealText.WordCount` | src/exportable-components/RevealText/RevealText.tsx:137-143 | there is one word element per space, plus one |
| `RevealText.SpanContents` | src/exportable-components/RevealText/RevealText.tsx:137-143 | the span contents, word after word, are the text with all spaces removed, in order |
| `RevealText.FormattedHtmlLength` | src/exportable-components/RevealText/RevealText.tsx:137-144 | the markup's length is one word wrapper per piece plus one span width per non-space character |
| `RevealText.CharSpanAt` | src/exportable-components/RevealText/RevealText.tsx:141 | the i-th span of a word's markup is exactly the span open tag, the word's i-th character unescaped, and the close tag, so the spans hold the word's characters one each and in order |
| `RevealText.CharacterNotEscaped` | src/exportable-components/RevealText/RevealText.tsx:141 | a markup character such as `<` is written into its span verbatim |
| `RevealText.Schedule` | src/exportable-components/RevealText/RevealText.tsx:159-167 | there is one offset per non-space character, and offsets `i·0.01` strictly increase |
| `Preloader.TickBounds` | src/exportable-components/ScrubStickyVideo.tsx:57-66 | the base respects its 98/90 cap; +2 applies only when loaded with a source; the displayed value is in [0,100] |
| `Preloader.StopsExactlyFromLastTick` | src/exportable-components/ScrubStickyVideo.tsx:68-74 | the stop test first holds at tick 118 when loaded with a source, and at tick 120 otherwise |
| `Preloader.DisplayedMonotone` | src/components/ScrubStickyVideo.tsx:55-65 | for fixed inputs the displayed progress never decreases while the interval runs |
| `Preloader.EndsAtHundred` | src/exportable-components/StickyVideo.tsx:61-67 | the value shown at the last tick is 100, reached or forced |
| `Preloader.Run` | src/exportable-components/StickyVideo.tsx:33-75 | the run starts at 0 (loading) or 60 and ends after `LastTick` ticks (none without the preloader) at 100; every value is in [0,100] and the values never decrease |
| `VideoScrub.ScrubTime` | src/exportable-components/ScrubStickyVideo.tsx:147-152 | the seek happens exactly when progress is a number and duration is truthy; for progress in [0,1] the time is within [0, duration] |
| `VideoScrub.PageScrubTime` | src/components/ScrubStickyVideo.tsx:128-134 | the seek happens exactly when duration is truthy; for progress in [0,1] the time is within [0, duration] |
| `VideoScrub.ScrubTimeValue` | src/components/ScrubStickyVideo.tsx:129-133 | with a numeric progress and a positive duration both components seek, to `progress · duration` |
| `VideoScrub.ScrubTimeShape` | src/exportable-components/ScrubStickyVideo.tsx:151 | both components compute the same time for a numeric progress; progress 0 seeks to 0 and 1 to the end; the time moves forward with progress |

The three video components run the same preloader arithmetic. Each of them
is modelled by the one `Preloader` module:

- src/exportable-components/ScrubStickyVideo.tsx:44-81;
- src/components/ScrubStickyVideo.tsx:40-82;
- src/exportable-components/StickyVideo.tsx:33-75.

## Findings

| source | as written | input that shows it | evidently intended | confidence | as-written member | corrected member |
|---|---|---|---|---|---|---|
| src/components/animated-background/utils.ts:14 | `patternConfigs[activeSection]` is read without clamping. The table has two entries. The scroll handler writes section 2 once two thirds of the container have scrolled by. The read gives `undefined` and `currentConfig.a` throws inside the animation frame. | container of height 3·vh with `top = -2·vh` and `bottom = vh`. The step writes `activeSection = 2`. | clamp the current index into the table, as the next index already is, so that every section reads a keyframe | high; not executed | `AnimatedBackground.InterpolatedAsWritten`, shown by `AnimatedBackground.AsWrittenMissesSectionTwo` and `Page.WiredPageReachesMissingKeyframe` | `AnimatedBackground.Interpolated`, with `AnimatedBackground.CorrectedAgreesInRange`, `AnimatedBackground.InterpolatedWithin` `Page.WiredPageAlwaysHasParameters` and `Page.FromInitialHasParameters`; used by `Renderer.FrameParams` |

## Left out

- WebGL plumbing is not modelled: context creation, shader compile and link, buffers, uniforms, the `requestAnimationFrame` loop, resize handling and cleanup. It is GPU and DOM I/O. The fragment shaders are GLSL strings, not program logic.
- `normalizedScrollY` is not modelled. It depends on the live document height and can divide by zero.
- Concurrency and lifecycle are not modelled: the scroll listener and render loop sharing React state, registration and removal of listeners, and effect cleanup. One scroll event is one call of `ScrollMapper.Step`. The four `setState` calls are one returned state, as React applies them together.
- Integrations are not modelled: Contentful fetching, the HubSpot form, GSAP timeline and ScrollTrigger configuration, video element setup, mobile detection, and `setInterval`/`setTimeout` scheduling. Only the per-update arithmetic is kept. The text fetch result and the loading flags are inputs.
- Floating point is not modelled. All arithmetic is exact on `real`. NaN and missing values appear only where a guard tests for them (`JsMath.JsNumber`).
- ScrollMapper.Step: the section number is an `int`, and the window measurements are finite reals.
- PatternConfigs.KeyframePair: the section is an `int`. The source sends every other number, fractional ones included, to the pair (2,3), and the model does the same for every integer other than 0 and 1.
- RevealText.CharSpans, RevealText.FormattedHtml and RevealText.Schedule: `word.split("")` splits UTF-16 code units. The model splits Dafny characters (Unicode scalar values). The two differ only for characters outside the Basic Multilingual Plane.
- RevealText.FormattedHtml: the model assumes the DOM text is the displayed text. The `textContent || ""` fallback for a missing text node is not modelled.
- VideoScrub.PageScrubTime: progress is a real. That component does not test it for NaN, and a NaN progress is not modelled.
- Renderer.TransitionSection: the source keeps `transitionSection` as React state that an effect sets after each commit (src/components/animated-background/WebGLRenderer.tsx:16, 23-29), so the indicator lags the props by one render. The model computes it from the current props.
- Preloader.Run: each run has fixed inputs. When the inputs change, the source restarts the effect from tick 0, which is a fresh `Run`. The preloader's completion callback that hides it is not modelled.
- The static markup of the hero, footer and page shell carries no logic and is not modelled.
