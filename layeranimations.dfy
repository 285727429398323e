/**
 * `LayerAnimation`: the key times and values of one keyframe animation,
 * sampled from the keyframe's timing over its share of the total duration
 * and interpolated between the value provider's start and end values.
 */
module LayerAnimations {
  import opened Progresses
  import opened TimingCurves
  import opened KeyframeTimings
  import opened TimingParams
  import Animatable

  datatype LayerAnimation<T> = LayerAnimation(values: seq<T>, keyTimes: seq<real>, duration: real)

  /** The timing's `progress(at:)` as a closure. */
  function ProgressOf(timing: Timing, solvers: Solvers): (p: real -> Progress)
    ensures forall t :: p(t) == TimingProgress(timing, t, solvers)
  {
    (time: real) => TimingProgress(timing, time, solvers)
  }

  /** The progressions a keyframe's timing is sampled at. */
  function Samples(timing: Timing, maxFPS: int, solvers: Solvers): seq<Progress> {
    Progressions(timing.relativeDuration * timing.totalDuration, maxFPS, ProgressOf(timing, solvers))
  }

  /** The key time of one progression: its relative time scaled into the keyframe's range. */
  function KeyTime(timing: Timing, p: Progress): real {
    timing.relativeStartTime + timing.relativeDuration * p.relativeTime
  }

  /** `init(from:)`, for a keyframe with this timing and these start and end values. */
  function FromKeyframe<T>(timing: Timing, start: T, end: T, lerp: (T, T, real) -> T, maxFPS: int, solvers: Solvers)
    : (r: LayerAnimation<T>)
    ensures r.duration == timing.relativeDuration * timing.totalDuration
    ensures |r.keyTimes| == |r.values| == |Samples(timing, maxFPS, solvers)|
    ensures forall i :: 0 <= i < |r.keyTimes| ==>
      r.keyTimes[i] == KeyTime(timing, Samples(timing, maxFPS, solvers)[i])
    ensures forall i :: 0 <= i < |r.values| ==>
      r.values[i] == lerp(start, end, Samples(timing, maxFPS, solvers)[i].relativeValue)
  {
    var progressions := Samples(timing, maxFPS, solvers);
    LayerAnimation(
      seq(|progressions|, i requires 0 <= i < |progressions| => lerp(start, end, progressions[i].relativeValue)),
      seq(|progressions|, i requires 0 <= i < |progressions| => KeyTime(timing, progressions[i])),
      timing.relativeDuration * timing.totalDuration)
  }

  /**
   * An animation always has at least one key time; the last key time is
   * the end of the keyframe's range and the last value the lerp at 1,
   * which for scalars is the end value.
   */
  lemma FromKeyframeEnds<T>(timing: Timing, start: T, end: T, lerp: (T, T, real) -> T, maxFPS: int, solvers: Solvers)
    ensures var r := FromKeyframe(timing, start, end, lerp, maxFPS, solvers);
      |r.keyTimes| >= 1
      && r.keyTimes[|r.keyTimes| - 1] == timing.relativeStartTime + timing.relativeDuration
      && r.values[|r.values| - 1] == lerp(start, end, 1.0)
  {
    var s := Samples(timing, maxFPS, solvers);
    assert s[|s| - 1] == End();
  }

  /** For scalars the last value is the end value. */
  lemma ScalarAnimationEndsAtEnd(timing: Timing, start: real, end: real, maxFPS: int, solvers: Solvers)
    ensures var r := FromKeyframe(timing, start, end, Animatable.Lerp, maxFPS, solvers);
      r.values[|r.values| - 1] == end
  {
    FromKeyframeEnds(timing, start, end, Animatable.Lerp, maxFPS, solvers);
  }

  /**
   * With a Bézier-backed curve the first key time is the start of the
   * keyframe's range and the first value the lerp at 0.
   */
  lemma FromKeyframeStarts<T>(timing: Timing, start: T, end: T, lerp: (T, T, real) -> T, maxFPS: int, solvers: Solvers)
    requires !timing.curve.Spring? && maxFPS >= 0
    ensures var r := FromKeyframe(timing, start, end, lerp, maxFPS, solvers);
      r.keyTimes[0] == timing.relativeStartTime && r.values[0] == lerp(start, end, 0.0)
  {
    var duration := timing.relativeDuration * timing.totalDuration;
    var s := Samples(timing, maxFPS, solvers);
    if duration > 0.0 {
      var n := FrameCount(duration, maxFPS);
      if n < 1 {
        ProgressionsBelowOneFrame(duration, maxFPS, ProgressOf(timing, solvers));
      } else {
        ProgressionsPerFrame(duration, maxFPS, ProgressOf(timing, solvers));
      }
      CurveProgressOutside(timing.curve, 0.0, solvers);
      assert s[0] == Start();
    }
  }

  /** With no duration there are exactly two key frames, at the start and the end of the range. */
  lemma FromKeyframeWithoutDuration<T>(timing: Timing, start: T, end: T, lerp: (T, T, real) -> T, maxFPS: int,
                                       solvers: Solvers)
    requires timing.relativeDuration * timing.totalDuration <= 0.0
    ensures var r := FromKeyframe(timing, start, end, lerp, maxFPS, solvers);
      r.keyTimes == [timing.relativeStartTime, timing.relativeStartTime + timing.relativeDuration]
      && r.values == [lerp(start, end, 0.0), lerp(start, end, 1.0)]
  {
  }

  /** Key times keep the order of the progressions' times when the relative duration is not negative. */
  lemma KeyTimesNondecreasing<T>(timing: Timing, start: T, end: T, lerp: (T, T, real) -> T, maxFPS: int,
                                 solvers: Solvers)
    requires timing.relativeDuration >= 0.0
    requires var s := Samples(timing, maxFPS, solvers);
      forall i, j :: 0 <= i <= j < |s| ==> s[i].relativeTime <= s[j].relativeTime
    ensures var r := FromKeyframe(timing, start, end, lerp, maxFPS, solvers);
      forall i, j :: 0 <= i <= j < |r.keyTimes| ==> r.keyTimes[i] <= r.keyTimes[j]
  {
    var r := FromKeyframe(timing, start, end, lerp, maxFPS, solvers);
    KeyTimesFollowTimes(timing, Samples(timing, maxFPS, solvers), r.keyTimes);
  }

  lemma KeyTimesFollowTimes(timing: Timing, s: seq<Progress>, keyTimes: seq<real>)
    requires timing.relativeDuration >= 0.0
    requires forall i, j :: 0 <= i <= j < |s| ==> s[i].relativeTime <= s[j].relativeTime
    requires |keyTimes| == |s| && forall i :: 0 <= i < |s| ==> keyTimes[i] == KeyTime(timing, s[i])
    ensures forall i, j :: 0 <= i <= j < |keyTimes| ==> keyTimes[i] <= keyTimes[j]
  {
    forall i, j | 0 <= i <= j < |keyTimes|
      ensures keyTimes[i] <= keyTimes[j]
    {
      ScaleMonotone(timing.relativeStartTime, timing.relativeDuration, s[i].relativeTime, s[j].relativeTime);
    }
  }

  lemma ScaleMonotone(a: real, d: real, x: real, y: real)
    requires d >= 0.0 && x <= y
    ensures a + d * x <= a + d * y
  {
    Animatable.MulNonneg(d, y - x);
    assert d * y == d * x + d * (y - x);
  }
}
