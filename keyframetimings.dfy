/**
 * `KeyframeTiming`: where an animation sits inside its container, as a
 * relative start time and a relative duration of a total duration, with a
 * timing curve.  Containers rewrite the fields when they nest; everything
 * else reads them, so the reading operations are stated on a snapshot.
 */
module KeyframeTimings {
  import opened Progresses
  import opened TimingCurves

  /** A half-open `Range<Double>`, `lower..<upper`. */
  datatype HalfOpen = HalfOpen(lower: real, upper: real)

  /** `Range.overlaps`: an empty range overlaps nothing, otherwise neither may end before the other starts. */
  predicate Overlaps(a: HalfOpen, b: HalfOpen) {
    !(b.upper <= a.lower || a.upper <= b.lower || a.lower == a.upper || b.lower == b.upper)
  }

  /** The fields of a `KeyframeTiming` at one moment. */
  datatype Timing = Timing(curve: TimingCurve, relativeStartTime: real, relativeDuration: real, totalDuration: real)

  /** `range`: forming `start..<start + duration` traps when the duration is negative. */
  function RangeOf(t: Timing): (r: HalfOpen)
    requires t.relativeDuration >= 0.0
    ensures r.lower == t.relativeStartTime && r.upper - r.lower == t.relativeDuration
  {
    HalfOpen(t.relativeStartTime, t.relativeStartTime + t.relativeDuration)
  }

  /** `overlaps(_:)`: the two ranges overlap. */
  predicate TimingOverlaps(a: Timing, b: Timing)
    requires a.relativeDuration >= 0.0 && b.relativeDuration >= 0.0
  {
    Overlaps(RangeOf(a), RangeOf(b))
  }

  /** Two timings overlap exactly when both are non-empty and each starts before the other ends. */
  lemma TimingOverlapsIff(a: Timing, b: Timing)
    requires a.relativeDuration >= 0.0 && b.relativeDuration >= 0.0
    ensures TimingOverlaps(a, b) <==>
      a.relativeDuration > 0.0 && b.relativeDuration > 0.0
      && a.relativeStartTime < b.relativeStartTime + b.relativeDuration
      && b.relativeStartTime < a.relativeStartTime + a.relativeDuration
  {
  }

  /** Overlapping is symmetric, and a zero-duration timing overlaps nothing, not even itself. */
  lemma TimingOverlapsLaws(a: Timing, b: Timing)
    requires a.relativeDuration >= 0.0 && b.relativeDuration >= 0.0
    ensures TimingOverlaps(a, b) == TimingOverlaps(b, a)
    ensures a.relativeDuration == 0.0 ==> !TimingOverlaps(a, b) && !TimingOverlaps(a, a)
  {
  }

  /** `==`: equal ranges, curves, total and relative durations and relative start times. */
  predicate TimingEqual(a: Timing, b: Timing)
    requires a.relativeDuration >= 0.0 && b.relativeDuration >= 0.0
  {
    RangeOf(a) == RangeOf(b) && TimingCurves.Equal(a.curve, b.curve) && a.totalDuration == b.totalDuration
    && a.relativeDuration == b.relativeDuration && a.relativeStartTime == b.relativeStartTime
  }

  /** Equal timings agree on every number and on the curve, and hence on the range and on overlapping. */
  lemma TimingEqualIff(a: Timing, b: Timing)
    requires a.relativeDuration >= 0.0 && b.relativeDuration >= 0.0
    ensures TimingEqual(a, b) <==>
      TimingCurves.Equal(a.curve, b.curve) && a.totalDuration == b.totalDuration
      && a.relativeDuration == b.relativeDuration && a.relativeStartTime == b.relativeStartTime
    ensures TimingEqual(a, b) ==> forall c: Timing :: c.relativeDuration >= 0.0 ==> TimingOverlaps(a, c) == TimingOverlaps(b, c)
  {
  }

  /** `progress(at:)`: the curve's progress. */
  function TimingProgress(t: Timing, time: real, solvers: Solvers): Progress {
    CurveProgress(t.curve, time, solvers)
  }

  class KeyframeTiming {
    var curve: TimingCurve
    var relativeStartTime: real
    var relativeDuration: real
    var totalDuration: real

    /** `init`, with the defaults: system-default curve, start 0, duration 1, total 0. */
    constructor(curve: TimingCurve := SystemDefault, relativeStartTime: real := 0.0,
                relativeDuration: real := 1.0, totalDuration: real := 0.0)
      ensures Value() == Timing(curve, relativeStartTime, relativeDuration, totalDuration)
    {
      this.curve := curve;
      this.relativeStartTime := relativeStartTime;
      this.relativeDuration := relativeDuration;
      this.totalDuration := totalDuration;
    }

    function Value(): Timing
      reads this
    {
      Timing(curve, relativeStartTime, relativeDuration, totalDuration)
    }
  }

  /** A timing made with every default spans the whole unit range and overlaps itself. */
  method DefaultTiming() returns (t: KeyframeTiming)
    ensures fresh(t)
    ensures t.Value() == Timing(SystemDefault, 0.0, 1.0, 0.0)
    ensures RangeOf(t.Value()) == HalfOpen(0.0, 1.0) && TimingOverlaps(t.Value(), t.Value())
  {
    t := new KeyframeTiming();
  }
}
