/** The simulated preloader progress that src/components/ScrubStickyVideo.tsx,
    src/exportable-components/ScrubStickyVideo.tsx and
    src/exportable-components/StickyVideo.tsx each run, with the same
    arithmetic, on a 100 ms interval: the elapsed time is turned into a
    percentage of a 12 s budget, capped below 100 until the video is known
    to be loaded, and the interval stops when the value reaches 100 or the
    budget runs out (where the value is forced to 100). Ticks are counted
    rather than timed. */
module Preloader {

  import opened JsMath

  /** `isLoading` of the asset query, and whether `videoSrc` is truthy. */
  datatype Inputs = Inputs(isLoading: bool, hasSource: bool)

  const TickMillis: int := 100
  const TotalLoadTime: int := 12000

  /** The value set before the first tick. */
  function StartingProgress(isLoading: bool): real {
    if isLoading then 0.0 else 60.0
  }

  /** `timeElapsed` after k ticks. */
  function Elapsed(k: nat): int {
    k * TickMillis
  }

  /** The cap on the time-based percentage: 98 with a source, else 90. */
  function Cap(hasSource: bool): real {
    if hasSource then 98.0 else 90.0
  }

  function BaseProgress(inputs: Inputs, k: nat): real {
    Min(Elapsed(k) as real / TotalLoadTime as real * 100.0, Cap(inputs.hasSource))
  }

  /** Only a loaded source may add the last 2 points. */
  function FinalProgress(inputs: Inputs, k: nat): real {
    if !inputs.isLoading && inputs.hasSource then Min(BaseProgress(inputs, k) + 2.0, 100.0)
    else BaseProgress(inputs, k)
  }

  /** The value the tick sets before the stop test. */
  function TickValue(inputs: Inputs, k: nat): real {
    Min(StartingProgress(inputs.isLoading) + FinalProgress(inputs, k), 100.0)
  }

  /** The interval is cleared after tick k. */
  predicate StopsAt(inputs: Inputs, k: nat) {
    FinalProgress(inputs, k) >= 100.0 || Elapsed(k) >= TotalLoadTime
  }

  /** The progress shown after k ticks (0 ticks: the starting value). */
  function Displayed(inputs: Inputs, k: nat): real {
    if k == 0 then StartingProgress(inputs.isLoading)
    else if Elapsed(k) >= TotalLoadTime then 100.0
    else TickValue(inputs, k)
  }

  /** The tick the interval is cleared on: 118 when a loaded source lets the
      value reach 100 (98.33 is capped to 98, plus 2), otherwise 120, when
      the 12 s budget is used up. */
  function LastTick(inputs: Inputs): nat {
    if !inputs.isLoading && inputs.hasSource then 118 else 120
  }

  /** Each tick's percentage respects its cap, the +2 only applies to a loaded
      source, and the value set never exceeds 100. */
  lemma TickBounds(inputs: Inputs, k: nat)
    ensures 0.0 <= BaseProgress(inputs, k) <= Cap(inputs.hasSource)
    ensures (inputs.isLoading || !inputs.hasSource) ==> FinalProgress(inputs, k) == BaseProgress(inputs, k)
    ensures 0.0 <= FinalProgress(inputs, k) <= 100.0
    ensures 0.0 <= Displayed(inputs, k) <= 100.0
  {
  }

  /** The stop test first holds at `LastTick` and holds from then on. */
  lemma StopsExactlyFromLastTick(inputs: Inputs, k: nat)
    requires k >= 1
    ensures StopsAt(inputs, k) <==> k >= LastTick(inputs)
  {
    if !inputs.isLoading && inputs.hasSource {
      var x := Elapsed(k) as real / TotalLoadTime as real * 100.0;
      assert x == k as real * 100.0 / 120.0;
      if k >= 118 {
        assert x >= 98.0;
      } else {
        assert x <= 117.0 * 100.0 / 120.0;
      }
    }
  }

  /** For fixed inputs the displayed progress never goes down while the
      interval runs, and it ends at 100. */
  lemma DisplayedMonotone(inputs: Inputs, j: nat, k: nat)
    requires j <= k <= LastTick(inputs)
    ensures Displayed(inputs, j) <= Displayed(inputs, k)
  {
    TickBounds(inputs, j);
    TickBounds(inputs, k);
    if 1 <= j {
      assert Elapsed(j) as real <= Elapsed(k) as real;
      assert BaseProgress(inputs, j) <= BaseProgress(inputs, k);
    }
  }

  lemma EndsAtHundred(inputs: Inputs)
    ensures Displayed(inputs, LastTick(inputs)) == 100.0
  {
    TickBounds(inputs, LastTick(inputs));
    if !inputs.isLoading && inputs.hasSource {
      assert BaseProgress(inputs, 118) == 98.0;
    }
  }

  /** The interval run to completion: the number of ticks and the sequence of
      values shown, starting with the starting value. */
  method Run(inputs: Inputs, showPreloader: bool) returns (ticks: nat, shown: seq<real>)
    ensures ticks == (if showPreloader then LastTick(inputs) else 0)
    ensures ticks <= 120
    ensures |shown| == ticks + 1
    ensures shown[0] == StartingProgress(inputs.isLoading)
    ensures forall i :: 0 <= i < |shown| ==> 0.0 <= shown[i] <= 100.0
    ensures forall i, j :: 0 <= i <= j < |shown| ==> shown[i] <= shown[j]
    ensures showPreloader ==> shown[ticks] == 100.0
  {
    var k: nat := 0;
    shown := [StartingProgress(inputs.isLoading)];
    var running := showPreloader;
    while running
      invariant k <= LastTick(inputs)
      invariant running ==> showPreloader && k < LastTick(inputs)
      invariant !running ==> k == (if showPreloader then LastTick(inputs) else 0)
      invariant |shown| == k + 1
      invariant forall i :: 0 <= i < |shown| ==> shown[i] == Displayed(inputs, i)
      decreases LastTick(inputs) - k
    {
      k := k + 1;
      var value := TickValue(inputs, k);
      StopsExactlyFromLastTick(inputs, k);
      if StopsAt(inputs, k) {
        running := false;
        if Elapsed(k) >= TotalLoadTime {
          value := 100.0;
        }
      }
      shown := shown + [value];
    }
    ticks := k;
    forall i | 0 <= i < |shown|
      ensures 0.0 <= shown[i] <= 100.0
    {
      TickBounds(inputs, i);
    }
    forall i, j | 0 <= i <= j < |shown|
      ensures shown[i] <= shown[j]
    {
      DisplayedMonotone(inputs, i, j);
    }
    if showPreloader {
      EndsAtHundred(inputs);
    }
  }
}
