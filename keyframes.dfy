/**
 * A keyframe as containers compare it: its hash value and its timing.  Two
 * keyframes are `==` when their hashes agree and their timings overlap, so
 * the relation is symmetric but not reflexive.
 */
module Keyframes {
  import opened KeyframeTimings

  /** A `LayerKeyframe`'s hash value and its timing, which is fixed once the keyframe exists. */
  datatype Keyframe = Keyframe(hashValue: int, timing: Timing)

  /** The timing of a keyframe is a valid range. */
  predicate ValidKeyframe(k: Keyframe) {
    k.timing.relativeDuration >= 0.0
  }

  /**
   * `==` reads the ranges only once the hashes agree, and building a range
   * traps on a negative duration.
   */
  predicate EqualDefined(lhs: Keyframe, rhs: Keyframe) {
    lhs.hashValue == rhs.hashValue ==> ValidKeyframe(lhs) && ValidKeyframe(rhs)
  }

  /** `Keyframe.==`. */
  predicate Equal(lhs: Keyframe, rhs: Keyframe)
    requires EqualDefined(lhs, rhs)
  {
    lhs.hashValue == rhs.hashValue && TimingOverlaps(lhs.timing, rhs.timing)
  }

  /**
   * `==` holds exactly for equal hashes and overlapping timings; it is
   * symmetric, fails for different hashes, and fails even against itself
   * when the timing has no duration.
   */
  lemma EqualLaws(a: Keyframe, b: Keyframe)
    requires EqualDefined(a, b)
    ensures Equal(a, b) <==>
      a.hashValue == b.hashValue
      && a.timing.relativeDuration > 0.0 && b.timing.relativeDuration > 0.0
      && a.timing.relativeStartTime < b.timing.relativeStartTime + b.timing.relativeDuration
      && b.timing.relativeStartTime < a.timing.relativeStartTime + a.timing.relativeDuration
    ensures Equal(a, b) == Equal(b, a)
    ensures a.hashValue != b.hashValue ==> !Equal(a, b)
    ensures a.timing.relativeDuration == 0.0 ==> !Equal(a, a)
  {
    if a.hashValue == b.hashValue {
      TimingOverlapsIff(a.timing, b.timing);
      TimingOverlapsLaws(a.timing, b.timing);
    }
    if a.timing.relativeDuration == 0.0 {
      TimingOverlapsLaws(a.timing, a.timing);
    }
  }

  /** A keyframe with some duration equals itself. */
  lemma EqualReflexiveWithDuration(a: Keyframe)
    requires ValidKeyframe(a) && a.timing.relativeDuration > 0.0
    ensures Equal(a, a)
  {
    TimingOverlapsIff(a.timing, a.timing);
  }
}
