/**
 * `TimingParameters`: the frame-by-frame progressions of a timing over a
 * duration, and the delay until a relative value is first reached.  The
 * screen's frame rate and the timing's own `progress(at:)` are parameters.
 */
module TimingParams {
  import opened Wrappers
  import opened Progresses
  import Animatable

  /** `floor(Double(maxFPS) * duration)`: the number of frames in the duration. */
  function FrameCount(duration: real, maxFPS: int): int {
    (maxFPS as real * duration).Floor
  }

  /**
   * The times `stride(from: 0, to: 1, by: 1 / floor(maxFrames))` visits, in
   * real arithmetic: k / n for every k < n when there is at least one frame;
   * only 0 when there is none (the step is infinite); nothing when the step
   * is negative.
   */
  function StrideTimes(n: int): (r: seq<real>)
    ensures forall k :: 0 <= k < |r| ==> 0.0 <= r[k] < 1.0
    ensures |r| > 0 ==> r[0] == 0.0
  {
    if n >= 1 then seq(n, k requires 0 <= k < n => k as real / n as real)
    else if n == 0 then [0.0]
    else []
  }

  /**
   * The stride visits exactly the multiples k·(1/n) that stay below 1.
   */
  lemma StrideTimesAreSteps(n: int, k: nat)
    requires n >= 1
    ensures k < |StrideTimes(n)| <==> (k as real) * (1.0 / (n as real)) < 1.0
    ensures k < |StrideTimes(n)| ==> StrideTimes(n)[k] == (k as real) * (1.0 / (n as real))
  {
    StepArithmetic(n, k);
    if k < n {
      assert StrideTimes(n)[k] == k as real / n as real;
    }
  }

  /** For n ≥ 1, k·(1/n) is k / n, and it is below 1 exactly when k < n. */
  lemma StepArithmetic(n: int, k: nat)
    requires n >= 1
    ensures (k as real) * (1.0 / (n as real)) == k as real / n as real
    ensures (k as real / n as real < 1.0) == (k < n)
  {
    var nr := n as real;
    var step := 1.0 / nr;
    var t := k as real / nr;
    assert t * nr == k as real;
    assert step * nr == 1.0;
    assert ((k as real) * step) * nr == (k as real) * (step * nr);
    Animatable.MulCancel((k as real) * step, t, nr);
    MulLess(t, nr);
  }

  /** The stride's times increase. */
  lemma StrideTimesIncrease(n: int, k: nat)
    requires n >= 1 && k + 1 < n
    ensures StrideTimes(n)[k] < StrideTimes(n)[k + 1]
  {
    var nr := n as real;
    var t := k as real / nr;
    var u := (k + 1) as real / nr;
    assert t * nr == k as real;
    assert u * nr == (k + 1) as real;
    MulCancelLess(t, u, nr);
  }

  /** For c > 0, x < 1 exactly when x·c < c. */
  lemma MulLess(x: real, c: real)
    requires c > 0.0
    ensures x < 1.0 <==> x * c < c
  {
    assert x * c - c == (x - 1.0) * c;
  }

  /** For c > 0, x·c < y·c gives x < y. */
  lemma MulCancelLess(x: real, y: real, c: real)
    requires c > 0.0 && x * c < y * c
    ensures x < y
  {
    assert (y - x) * c > 0.0;
  }

  /** `progressions(from:)`. */
  function Progressions(duration: real, maxFPS: int, progressAt: real -> Progress): (r: seq<Progress>)
    ensures |r| >= 1 && r[|r| - 1] == End()
    ensures duration <= 0.0 ==> r == [Start(), End()]
    ensures duration > 0.0 ==>
      var times := StrideTimes(FrameCount(duration, maxFPS));
      |r| == |times| + 1 && forall k :: 0 <= k < |times| ==> r[k] == progressAt(times[k])
  {
    if !(duration > 0.0) then [Start(), End()]
    else
      var times := StrideTimes(FrameCount(duration, maxFPS));
      seq(|times|, k requires 0 <= k < |times| => progressAt(times[k])) + [End()]
  }

  /**
   * With N = floor(maxFPS · duration) ≥ 1 frames there are N + 1
   * progressions: the progress at k / N for every k < N, starting at the
   * progress at 0, and then the end.
   */
  lemma ProgressionsPerFrame(duration: real, maxFPS: int, progressAt: real -> Progress)
    requires duration > 0.0 && FrameCount(duration, maxFPS) >= 1
    ensures var n := FrameCount(duration, maxFPS);
      var r := Progressions(duration, maxFPS, progressAt);
      |r| == n + 1 && r[0] == progressAt(0.0) && r[n] == End()
      && forall k :: 0 <= k < n ==> r[k] == progressAt(k as real / n as real)
  {
    var n := FrameCount(duration, maxFPS);
    assert StrideTimes(n)[0] == 0.0;
  }

  /** A duration too short for one frame still yields the progress at 0, then the end. */
  lemma ProgressionsBelowOneFrame(duration: real, maxFPS: int, progressAt: real -> Progress)
    requires duration > 0.0 && maxFPS >= 0 && FrameCount(duration, maxFPS) < 1
    ensures Progressions(duration, maxFPS, progressAt) == [progressAt(0.0), End()]
  {
    assert 0.0 <= maxFPS as real * duration;
  }

  /** `first(where:)`, as the index of the first element satisfying the predicate. */
  function FirstWhere<T>(s: seq<T>, p: T -> bool): (r: Option<nat>)
    ensures r.Some? ==> r.value < |s| && p(s[r.value]) && forall j :: 0 <= j < r.value ==> !p(s[j])
    ensures r.None? ==> forall j :: 0 <= j < |s| ==> !p(s[j])
    decreases |s|
  {
    if s == [] then None
    else if p(s[0]) then Some(0)
    else match FirstWhere(s[1..], p)
      case None => None
      case Some(i) => Some(i + 1)
  }

  /** The closure `{ relativeValue <= $0.relativeValue }`. */
  function Reaching(relativeValue: real): (p: Progress -> bool)
    ensures forall q :: p(q) <==> relativeValue <= q.relativeValue
  {
    (q: Progress) => relativeValue <= q.relativeValue
  }

  /** `delay(forRelativeValue:withDuration:)`. */
  function Delay(relativeValue: real, duration: real, maxFPS: int, progressAt: real -> Progress): real {
    var progressions := Progressions(duration, maxFPS, progressAt);
    match FirstWhere(progressions, Reaching(relativeValue))
    case None => 1.0
    case Some(i) => progressions[i].relativeTime
  }

  /** Entry i is the first whose relative value reaches v. */
  predicate FirstReachingAt(r: seq<Progress>, v: real, i: int) {
    0 <= i < |r| && v <= r[i].relativeValue && forall j :: 0 <= j < i ==> v > r[j].relativeValue
  }

  /**
   * The delay is the relative time of the first progression whose value
   * reaches the given one, and 1 when none does; a value of at most 1 is
   * always reached, at the end at the latest.
   */
  lemma DelayIsFirstReaching(relativeValue: real, duration: real, maxFPS: int, progressAt: real -> Progress)
    ensures var r := Progressions(duration, maxFPS, progressAt);
      var d := Delay(relativeValue, duration, maxFPS, progressAt);
      (forall i :: 0 <= i < |r| ==> relativeValue > r[i].relativeValue) ==> d == 1.0
    ensures var r := Progressions(duration, maxFPS, progressAt);
      var d := Delay(relativeValue, duration, maxFPS, progressAt);
      forall i :: FirstReachingAt(r, relativeValue, i) ==> d == r[i].relativeTime
    ensures relativeValue <= 1.0 ==>
      FirstWhere(Progressions(duration, maxFPS, progressAt), Reaching(relativeValue)).Some?
  {
    var r := Progressions(duration, maxFPS, progressAt);
    var p := Reaching(relativeValue);
    var f := FirstWhere(r, p);
    forall i | FirstReachingAt(r, relativeValue, i)
      ensures Delay(relativeValue, duration, maxFPS, progressAt) == r[i].relativeTime
    {
      assert p(r[i]);
    }
    if relativeValue <= 1.0 {
      assert p(r[|r| - 1]);
    }
  }

  /** For a non-positive duration the delay is 0 for values up to 0, and 1 above. */
  lemma DelayWithoutDuration(relativeValue: real, duration: real, maxFPS: int, progressAt: real -> Progress)
    requires duration <= 0.0
    ensures Delay(relativeValue, duration, maxFPS, progressAt) == if relativeValue <= 0.0 then 0.0 else 1.0
  {
    var r := Progressions(duration, maxFPS, progressAt);
    var p := Reaching(relativeValue);
    assert r == [Start(), End()];
    if relativeValue <= 0.0 {
      assert p(r[0]);
    } else {
      assert !p(r[0]);
    }
  }
}
