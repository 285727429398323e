/**
 * The floating-point `lerp(to:with:)` of the Animatable protocol, over
 * unbounded reals.  Progress is never clamped, so values outside [0, 1]
 * extrapolate (overshooting curves such as easeOutBack rely on this).
 */
module Animatable {

  function Lerp(a: real, b: real, progress: real): (r: real)
    ensures progress == 0.0 ==> r == a
    ensures progress == 1.0 ==> r == b
    ensures a == b ==> r == a
  {
    a + (b - a) * progress
  }

  /** Between the endpoints for progress in [0, 1]. */
  lemma LerpBetween(a: real, b: real, progress: real)
    requires 0.0 <= progress <= 1.0 && a <= b
    ensures a <= Lerp(a, b, progress) <= b
  {
    var d, q := b - a, 1.0 - progress;
    MulNonneg(d, progress);
    MulNonneg(d, q);
    assert Lo: d * progress >= 0.0;
    assert Hi: d * q >= 0.0;
    assert Split: d * progress == d - d * q;
    assert Lerp(a, b, progress) == a + d * progress;
  }

  /** No clamping: past 1 the result overshoots the target. */
  lemma LerpOvershoots(a: real, b: real, progress: real)
    requires progress > 1.0 && a < b
    ensures Lerp(a, b, progress) > b
  {
    var d, q := b - a, progress - 1.0;
    MulPos(d, q);
    assert Pos: d * q > 0.0;
    assert Split: d * progress == d * q + d;
    assert Lerp(a, b, progress) == a + d * progress;
  }

  lemma MulCancel(x: real, y: real, c: real)
    requires c != 0.0 && x * c == y * c
    ensures x == y
  {
    assert (x - y) * c == 0.0;
  }

  lemma MulNonneg(x: real, y: real)
    requires x >= 0.0 && y >= 0.0
    ensures x * y >= 0.0
  {
  }

  lemma MulPos(x: real, y: real)
    requires x > 0.0 && y > 0.0
    ensures x * y > 0.0
  {
  }
}
