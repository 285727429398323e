# Delight, modelled in Dafny

Delight animates the properties of views and layers.
Each animation block becomes a container of keyframes.
Every keyframe is sampled frame by frame along its timing curve into a `CAKeyframeAnimation`.
Already-running UIKit transactions are caught through a swizzled `CALayer` action.
This project models the arithmetic and the bookkeeping behind that, over unbounded reals:

- the interpolation primitives: scalar `lerp`, componentwise vectors, key-path lerp, and the QuartzCore value types;
- the cubic Bézier curve value, its control-point syncing, equality, circle approximation and bounding box, and its De Casteljau subdivision;
- the two revisions of the monomial-coefficient solver, one clamping and one extrapolating;
- path elements, with their cubic forms, custom operation order, interpolation and segmentation;
- reading a `CGPath` into segments and subpaths, re-segmenting a path to a target count, the cyclic reordering, and the path morph;
- keyframe timing ranges, keyframe equality, frame progressions, delays and layer animations;
- the regular and keyframe containers and the animation-queue stack;
- the commit-once value provider;
- two helpers of the example app: De Casteljau line generation and option-set point movement.

There is one module per source file.
State that the source changes in place is a Dafny `class`:

- `Path`
- `KeyframeTiming`
- `RegularContainer`
- `KeyframeContainer`
- the queue stack (`AnimationQueueStack`)
- `LayerValueProvider`

Each loop in the source is a method with invariants, proved equal to a specification function.
Lemmas then prove the source's promises about that function.
Swift traps are preconditions that mirror the trap condition:

- a closed range with upper < lower;
- an index out of bounds;
- integer division by zero;
- `removeLast` on an empty array;
- `fatalError`.

A trap that only shows up deep inside a computation is a `None` result instead.
Swift's truncating `Int` division and remainder are written out (`Utilities.SwiftQuot`, `Utilities.SwiftRem`).

## Model

| member | source | states |
|---|---|---|
| Animatable.Lerp | Sources/Delight/Animatable/Animatable.swift:12-14 | progress 0 gives the start, progress 1 the end, and lerping a value to itself gives it back |
| Animatable.LerpBetween | Sources/Delight/Animatable/Animatable.swift:12-14 | for progress in [0, 1] the result lies between the endpoints |
| Animatable.LerpOvershoots | Sources/Delight/Animatable/Animatable.swift:12-14 | progress is not clamped: past 1 the result overshoots the target |
| Vectors.Broadcast | Sources/Delight/Utilities/Vectors.swift:84-86 | `s.vector()` puts the scalar on both axes |
| Vectors.Div | Sources/Delight/Utilities/Vectors.swift:162-167 | componentwise division, the inverse of componentwise multiplication |
| Vectors.Neg | Sources/Delight/Utilities/Vectors.swift:133-135 | negation, defined as multiplication by the broadcast -1, negates both coordinates |
| Vectors.Sub | Sources/Delight/Utilities/Vectors.swift:124-126 | `a - b`, defined as `a + -b`, is componentwise subtraction and undoes `+ b` |
| Vectors.ScalarAdd | Sources/Delight/Utilities/Vectors.swift:96-98 | a scalar on the left is broadcast, then added componentwise |
| Vectors.AddScalar | Sources/Delight/Utilities/Vectors.swift:99-101 | a scalar on the right is broadcast, then added componentwise |
| Vectors.ScalarSub | Sources/Delight/Utilities/Vectors.swift:118-120 | a broadcast scalar minus a vector, componentwise |
| Vectors.SubScalar | Sources/Delight/Utilities/Vectors.swift:121-123 | a vector minus a broadcast scalar, componentwise |
| Vectors.ScalarMul | Sources/Delight/Utilities/Vectors.swift:140-142 | a broadcast scalar times a vector, componentwise |
| Vectors.MulScalar | Sources/Delight/Utilities/Vectors.swift:143-145 | a vector times a broadcast scalar, componentwise |
| Vectors.ScalarDiv | Sources/Delight/Utilities/Vectors.swift:156-158 | a broadcast scalar divided by a vector, componentwise |
| Vectors.DivScalar | Sources/Delight/Utilities/Vectors.swift:159-161 | a vector divided by a broadcast scalar, componentwise |
| Vectors.AddAssign | Sources/Delight/Utilities/Vectors.swift:111-113 | `+=` stores the value of `+` |
| Vectors.AddAssignScalar | Sources/Delight/Utilities/Vectors.swift:108-110 | the scalar `+=` stores the value of the scalar `+` |
| Vectors.SubAssign | Sources/Delight/Utilities/Vectors.swift:130-132 | `-=` stores the componentwise difference |
| Vectors.SubAssignScalar | Sources/Delight/Utilities/Vectors.swift:127-129 | the scalar `-=` stores the value of the scalar `-` |
| Vectors.Slope | Sources/Delight/Utilities/Vectors.swift:74-77 | zero when the x coordinates are equal; otherwise the result times the run is the rise |
| Vectors.SlopeSymmetric | Sources/Delight/Utilities/Vectors.swift:74-77 | `p.slope(to: q) == q.slope(to: p)` |
| Vectors.DistanceSquared | Sources/Delight/Utilities/Vectors.swift:67-72 | the squared distance is never negative |
| Vectors.DistanceSymmetric | Sources/Delight/Utilities/Vectors.swift:67-72 | the distance is symmetric and is zero from a point to itself |
| Vectors.AddLaws | Sources/Delight/Utilities/Vectors.swift:102-126 | `+` is commutative and associative with unit zero, and `v - v` and `v + -v` are zero |
| Vectors.MulLaws | Sources/Delight/Utilities/Vectors.swift:133-151 | `*` is commutative with the broadcast 1 as its unit, and double negation is the identity |
| KeyPaths.KeyPathLerped | Sources/Delight/Animatable/KeyPathProvider.swift:7-18 | the lerped value has as many components as the start value |
| KeyPaths.KeyPathLerp | Sources/Delight/Animatable/KeyPathProvider.swift:7-18 | the `forEach` over the key paths, which writes into a copy of `self`, yields the listed components lerped and every other component unchanged |
| KeyPaths.KeyPathLerpAtZero | Sources/Delight/Animatable/KeyPathProvider.swift:7-18 | with progress 0 the result is `self` |
| KeyPaths.KeyPathLerpAtOne | Sources/Delight/Animatable/KeyPathProvider.swift:7-18 | with progress 1 every listed component is the target's and every other is `self`'s |
| KeyPaths.KeyPathOrderIrrelevant | Sources/Delight/Animatable/KeyPathProvider.swift:9-15 | the order of the key paths and repeats among them do not change the result |
| QuartzCore.PointLerp | Sources/Delight/Animatable/QuartzCore+Animatable.swift:13-19 | ControlPoint and CGPoint interpolate exactly x and y |
| QuartzCore.SizeLerp | Sources/Delight/Animatable/QuartzCore+Animatable.swift:23-28 | a size lerp is never negative, equals the plain lerp where that is non-negative, and is zero where it is negative |
| QuartzCore.SizeLerpUnclampedBetween | Sources/Delight/Animatable/QuartzCore+Animatable.swift:23-28 | between non-negative sizes with progress in [0, 1] the clamp never engages |
| QuartzCore.LerpNonneg | Sources/Delight/Animatable/QuartzCore+Animatable.swift:25-26 | the lerp of non-negative values with progress in [0, 1] is non-negative |
| QuartzCore.RectLerp | Sources/Delight/Animatable/QuartzCore+Animatable.swift:32-37 | the origin is lerped componentwise and the size through the clamped size lerp |
| QuartzCore.AffineLerpsEveryEntry | Sources/Delight/Animatable/QuartzCore+Animatable.swift:44-46 | a CGAffineTransform lerp interpolates all six entries |
| QuartzCore.Transform3DLerpsEveryEntry | Sources/Delight/Animatable/QuartzCore+Animatable.swift:48-55 | a CATransform3D lerp interpolates all sixteen entries |
| Progresses.Start | Sources/Delight/Timing/Progress.swift:7-9 | `Progress.start()` is (0, 0) |
| Progresses.End | Sources/Delight/Timing/Progress.swift:10-12 | `Progress.end()` is (1, 1) |
| Utilities.AppendedRemovingDuplicate | Sources/Delight/Utilities/Utilities.swift:116-120 | the element ends up last; the length is unchanged when the old last element equalled it and grows by one otherwise; everything before stays |
| Utilities.AppendRemovingPossibleDuplicate | Sources/Delight/Utilities/Utilities.swift:116-120 | the guarded `removeLast` followed by the deferred `append` yields the specified list |
| Utilities.AppendIdempotent | Sources/Delight/Utilities/Utilities.swift:116-120 | appending the same element twice is appending it once |
| Utilities.AppendKeepsEarlier | Sources/Delight/Utilities/Utilities.swift:116-120 | every element before the replaced or new last one is untouched |
| Utilities.Clamped | Sources/Delight/Utilities/Utilities.swift:141-146 | the result lies in the range; it is the value inside the range, the lower bound below it, and the upper bound above it |
| Utilities.Max | Sources/Delight/Utilities/Utilities.swift:143 | Swift's `max` is the larger of its arguments |
| Utilities.Min | Sources/Delight/Utilities/Utilities.swift:142 | Swift's `min` is the smaller of its arguments |
| Utilities.ClampedIdempotent | Sources/Delight/Utilities/Utilities.swift:141-146 | clamping twice is clamping once |
| Utilities.UniformIffClampFixes | Sources/Delight/Utilities/Utilities.swift:124-146 | `isUniform` holds exactly when clamping to 0...1 changes nothing |
| Utilities.RoundHalfAway | Sources/Delight/Utilities/Utilities.swift:133 | `rounded()` is within one half of the value, with halfway cases away from zero |
| Utilities.RoundIntegral | Sources/Delight/Utilities/Utilities.swift:133 | rounding an integral value gives it back |
| Utilities.RemovedSlop | Sources/Delight/Utilities/Utilities.swift:131-134 | zero stays zero; any other value moves by at most half a thousandth onto a multiple of 1/1000 |
| Utilities.RemovedSlopIdempotent | Sources/Delight/Utilities/Utilities.swift:131-134 | removing the slop twice is removing it once |
| Utilities.Trim | Sources/Delight/Utilities/Utilities.swift:137-139 | `trim(digitsPastDecimal:)` as written: the scale factor is 10·places |
| Utilities.TrimMisrounds | Sources/Delight/Utilities/Utilities.swift:137-139 | as written, trimming 0.26 to two places gives 0.25 |
| Utilities.TrimToDecimalsWithinHalfUnit | Sources/Delight/Utilities/Utilities.swift:137-139 | the intended trim moves a value by at most half a unit in the last kept place |
| Utilities.TrimToDecimalsKeeps | Sources/Delight/Utilities/Utilities.swift:137-139 | the intended trim keeps a value that already has at most `places` decimals |
| Utilities.TrimToDecimalsExample | Sources/Delight/Utilities/Utilities.swift:137-139 | the intended trim keeps 0.26 at two places |
| Utilities.SwiftQuot | Sources/Delight/Animatable/Segmentable.swift:50 | Swift's `Int` division truncates toward zero |
| Utilities.SwiftRem | Sources/Delight/Animatable/Segmentable.swift:49 | Swift's `%` takes the dividend's sign, and quotient times divisor plus remainder is the dividend |
| Utilities.Abs | Sources/Delight/Animatable/Segmentable.swift:49-50 | the magnitude of an `Int`, non-negative and equal to n or -n, which the truncating division and remainder are built on |
| Utilities.AbsReal | Sources/Delight/Animatable/Path.swift:45 | `abs` on a floating-point value is its non-negative magnitude |
| BezierCurves.FromControls | Sources/Delight/Timing/CubicBezierCurve.swift:52-55 | `init(_:_:)` fixes c0 = (0,0) and c3 = (1,1), keeps the two inner controls, and syncs the four-point array |
| BezierCurves.FromPoints | Sources/Delight/Timing/CubicBezierCurve.swift:57-60 | `init(points:)` traps on fewer than four points and otherwise uses exactly the first four |
| BezierCurves.WithControlPoints | Sources/Delight/Timing/CubicBezierCurve.swift:28-35 | assigning `controlPoints` stores the array and the observer re-syncs c0…c3 from indices 0…3, which traps on fewer than four |
| BezierCurves.EqualIffSamePoints | Sources/Delight/Timing/CubicBezierCurve.swift:83-85 | for synced four-point curves `==` is equality of the curves |
| BezierCurves.EqualIgnoresNamedPoints | Sources/Delight/Timing/CubicBezierCurve.swift:83-85 | `==` looks only at the array: a named point that disagrees with it does not matter |
| BezierCurves.CircleApproximation | Sources/Delight/Timing/CubicBezierCurve.swift:10-23 | on a descending diagonal the endpoints stay and c1, c2 lie on the quarter-circle arms; otherwise all four points collapse to c3 |
| BezierCurves.Xs | Sources/Delight/Timing/CubicBezierCurve.swift:40-44 | `map(\.x)` keeps the order and the length |
| BezierCurves.Ys | Sources/Delight/Timing/CubicBezierCurve.swift:41-45 | `map(\.y)` keeps the order and the length |
| BezierCurves.BoundingBoxExtremes | Sources/Delight/Timing/CubicBezierCurve.swift:37-48 | the origin holds the least x and y of the control points and the size fields the greatest x and y; without points every field is 0 |
| BezierCurves.BoundingBoxSizeIsFarCorner | Sources/Delight/Timing/CubicBezierCurve.swift:43-46 | the size fields are the far corner, not the extent |
| BezierCurves.ZeroCurve | Sources/Delight/Timing/CubicBezierCurve.swift:50 | `zero` has both inner controls at the origin |
| TimingSolver.CoefficientsFor | Sources/Delight/Timing/CubicBezierSolver.swift:199-212 | per axis, d is the start coordinate and a + b + c + d is the end coordinate |
| TimingSolver.PolynomialIsBernstein | Sources/Delight/Timing/CubicBezierSolver.swift:180-212 | a·t³ + b·t² + c·t + d equals the Bernstein form of the control points for every real t |
| TimingSolver.PartialSumComplete | Sources/Delight/Timing/CubicBezierSolver.swift:237-246 | the four accumulation steps sum to the monomial form |
| TimingSolver.PointOnCurve | Sources/Delight/Timing/CubicBezierSolver.swift:220-251 | the clamp guard, then the accumulation loop over the zipped coefficients with a falling exponent, yields the specified point |
| TimingSolver.EvaluatedClamps | Sources/Delight/Timing/CubicBezierSolver.swift:221-227 | for t ≤ 0 the point is (0,0) and for t ≥ 1 it is (1,1), whatever the controls |
| TimingSolver.EvaluatedInside | Sources/Delight/Timing/CubicBezierSolver.swift:229-250 | inside (0, 1) both coordinates are the Bernstein cubic of the control points |
| TimingSolver.DiagonalCurveIsIdentityLike | Sources/Delight/Timing/CubicBezierSolver.swift:229-246 | when every control point has x == y, relative time and relative value agree |
| TimingSolver.ProgressAt | Sources/Delight/Timing/CubicBezierSolver.swift:271-274 | outside (0, 1), `progress(at:)` is `pointOnCurve` of the clamped time; inside it is the root-solving branch, passed in |
| TimingSolver.ProgressAtOutside | Sources/Delight/Timing/CubicBezierSolver.swift:272-274 | the clamp branch is exactly `Progress.start()` or `Progress.end()` |
| TimingSolver.TranslatedBy | Sources/Delight/Timing/CubicBezierSolver.swift:35-37 | `translatedBy(dx:dy:)` adds the offsets, with dy 0 by default |
| TimingSolver.TranslatedByInverse | Sources/Delight/Timing/CubicBezierSolver.swift:35-37 | translating back by the opposite offsets restores the point, and the default moves only x |
| UtilitySolver.PointOnCurve | Sources/Delight/Utilities/CubicBezierSolver.swift:230-256 | the unclamped accumulation loop yields the cubic at every real time |
| UtilitySolver.ExtrapolatedEndpoints | Sources/Delight/Utilities/CubicBezierSolver.swift:205-256 | time 0 gives c0 and time 1 gives c3 |
| UtilitySolver.ExtrapolatedIsBernstein | Sources/Delight/Utilities/CubicBezierSolver.swift:205-256 | every real time, inside the unit interval or not, gives the Bernstein cubic |
| UtilitySolver.RevisionsAgreeInside | Sources/Delight/Utilities/CubicBezierSolver.swift:230-256 | inside (0, 1) the utilities revision agrees with the timing revision |
| UtilitySolver.ExtrapolatesPastEnd | Sources/Delight/Utilities/CubicBezierSolver.swift:230-256 | past the end, a curve that does not end at (1,1) extrapolates instead of clamping |
| PathElements.RawValue | Sources/Delight/Animatable/PathElement.swift:11-17 | the `Int` raw values follow declaration order, from 0 to 5 |
| PathElements.Max | Sources/Delight/Animatable/PathElement.swift:77 | Swift's `max` on the custom order returns one of its arguments |
| PathElements.LessOrder | Sources/Delight/Animatable/PathElement.swift:19-21 | closeSubpath is below everything, itself included; any other pair compares by raw value, with closeSubpath never on the right |
| PathElements.MaxOperation | Sources/Delight/Animatable/PathElement.swift:19-21 | under `max`, closeSubpath loses to the other side; otherwise the higher raw value wins |
| PathElements.Init | Sources/Delight/Animatable/PathElement.swift:47-60 | missing points fall back along `origin ?? destination ?? zero` and the symmetric chains; a move puts all four points on its destination |
| PathElements.InitKeepsGivenPoints | Sources/Delight/Animatable/PathElement.swift:47-60 | with all four points given, any operation but a move keeps them exactly |
| PathElements.InitFixesItsOutput | Sources/Delight/Animatable/PathElement.swift:47-60 | re-initialising an element from its own points gives it back |
| PathElements.DefaultElement | Sources/Delight/Animatable/PathElement.swift:47-60 | `PathElement()` is a move to the origin |
| PathElements.BezierCurve | Sources/Delight/Animatable/PathElement.swift:31-45 | the cubic always starts at the origin and ends at the destination; move, curve and open keep their controls |
| PathElements.LineControlsAtThirds | Sources/Delight/Animatable/PathElement.swift:39-43 | a line's or close's cubic controls sit at 1/3 and 2/3 of the segment |
| PathElements.LineCubicIsStraight | Sources/Delight/Animatable/PathElement.swift:39-43 | the cubic of a line traces the straight segment |
| PathElements.QuadCubicIsQuadratic | Sources/Delight/Animatable/PathElement.swift:33-36 | degree elevation is exact: the cubic of a quadratic element traces the quadratic |
| PathElements.ToPathElement | Sources/Delight/Animatable/PathElement.swift:152-160 | `pathElement` is an addCurve element through the curve's four named points |
| PathElements.PathElementRoundTrip | Sources/Delight/Animatable/PathElement.swift:152-160 | curve to element and back to curve gives an equal curve, and the same value for a four-point curve |
| PathElements.CurveElementRoundTrip | Sources/Delight/Animatable/PathElement.swift:31-45 | an addCurve element survives the trip through its cubic |
| PathElements.LerpOperation | Sources/Delight/Animatable/PathElement.swift:77-84 | openSubpath when exactly one side is a move, otherwise the `max` of the two operations |
| PathElements.LerpWithClose | Sources/Delight/Animatable/PathElement.swift:77-84 | pairing with closeSubpath, with no move involved, yields the other side's operation |
| PathElements.ElementLerp | Sources/Delight/Animatable/PathElement.swift:74-95 | progress exactly 1 returns the target; otherwise the resolved operation with the pointwise lerps of both cubic forms, normalised by `init` |
| PathElements.MoveMoveLerp | Sources/Delight/Animatable/PathElement.swift:86-94 | a move–move lerp collapses to a move to the lerped destination |
| PathElements.ElementLerpAtZero | Sources/Delight/Animatable/PathElement.swift:74-95 | progress 0 between two addCurve elements gives the first back |
| Folds.MinBy | Sources/Delight/Animatable/Path.swift:42-63 | `min(by:)` is nil exactly for an empty list and otherwise a member |
| Folds.MaxBy | Sources/Delight/Animatable/Path.swift:61-64 | `max(by:)` is nil exactly for an empty list and otherwise a member; the fold replaces its result only when `less(result, e)` |
| Folds.FoldMinIn | Sources/Delight/Animatable/Path.swift:42-63 | the fold behind `min(by:)` returns the accumulator or an element of the rest |
| Folds.FoldMaxIn | Sources/Delight/Animatable/Path.swift:61-64 | the fold behind `max(by:)`, which replaces only on `less(result, e)`, returns the accumulator or an element of the rest |
| Folds.FoldMinLeast | Sources/Delight/Animatable/Path.swift:60-63 | under a key comparator the min fold ends on a least key |
| Folds.FoldMaxGreatest | Sources/Delight/Animatable/Path.swift:61-64 | under a key comparator the max fold ends on a greatest key |
| Folds.FoldMaxKeepsGreatest | Sources/Delight/Animatable/Path.swift:61-64 | once the accumulator has the greatest key it stays, because the comparison is strict |
| Folds.FoldMaxReachesFirstGreatest | Sources/Delight/Animatable/Path.swift:61-64 | the max fold ends on the first element of greatest key |
| Folds.FoldMinDominant | Sources/Delight/Animatable/Path.swift:42-52 | an element that beats all others and loses to none wins the min fold |
| Folds.FoldMinKeepsLeast | Sources/Delight/Animatable/CGPath+Animatable.swift:132-134 | once the accumulator has the least key it stays, because the comparison is strict |
| Folds.FoldMinReachesFirstLeast | Sources/Delight/Animatable/CGPath+Animatable.swift:132-134 | the min fold ends on the first element of least key |
| Folds.MinByLeast | Sources/Delight/Animatable/Path.swift:60-63 | under a key comparator, `min(by:)` has the least key |
| Folds.MaxByGreatest | Sources/Delight/Animatable/Path.swift:61-64 | under a key comparator, `max(by:)` has the greatest key |
| Folds.MaxByFirstGreatest | Sources/Delight/Animatable/Path.swift:61-64 | under a key comparator, `max(by:)` returns the first element of greatest key, so ties keep the earlier element |
| Folds.MinByDominant | Sources/Delight/Animatable/Path.swift:42-52 | an element that beats every other and is beaten by none is what `min(by:)` returns, whatever the comparator |
| Folds.MinByFirstLeast | Sources/Delight/Animatable/CGPath+Animatable.swift:132-134 | under a key comparator, `min(by:)` returns the first element of least key |
| Segmentable.Split | Sources/Delight/Animatable/Segmentable.swift:19-34 | one De Casteljau step: the left piece starts at c0, the right ends at c3, they meet, and each is a synced four-point curve |
| Segmentable.Curve4 | Sources/Delight/Animatable/Segmentable.swift:33-34 | `CubicBezierCurve(points:)` on four points gives a synced curve from the first to the last |
| Segmentable.Curve4FromPoints | Sources/Delight/Animatable/Segmentable.swift:33-34 | building from four points is `init(points:)` on their array |
| Segmentable.SplitAtOne | Sources/Delight/Animatable/Segmentable.swift:19-30 | at t = 1 the whole curve is the left piece |
| Segmentable.Segments | Sources/Delight/Animatable/Segmentable.swift:13-38 | `segmented(by: k)` yields exactly k pieces |
| Segmentable.SegmentsChain | Sources/Delight/Animatable/Segmentable.swift:18-35 | the pieces run from the curve's start to its end, each starting where the previous ends, all in sync |
| Segmentable.SegmentsByOne | Sources/Delight/Animatable/Segmentable.swift:18-35 | `segmented(by: 1)` is `[self]` |
| Segmentable.CurveSegmented | Sources/Delight/Animatable/Segmentable.swift:13-38 | the loop over `(1...amount).reversed()` traps for amount < 1 and otherwise yields the specified pieces |
| Segmentable.SplitOff | Sources/Delight/Animatable/Segmentable.swift:19-34 | one pass of the loop: the left piece followed by the pieces of the right one are the pieces still to come |
| Segmentable.SegmentsStep | Sources/Delight/Animatable/Segmentable.swift:19-34 | the first piece is cut with the loop's named midpoints and the rest comes from the right half, one piece fewer |
| Segmentable.ElementSegments | Sources/Delight/Animatable/Segmentable.swift:76-93 | a move yields one piece, every other operation `amount` pieces |
| Segmentable.CurvePieces | Sources/Delight/Animatable/Segmentable.swift:89 | `.map(\.pathElement)` converts each curve in order |
| Segmentable.ElementSegmented | Sources/Delight/Animatable/Segmentable.swift:76-93 | the switch that builds its result by appends yields the specified pieces |
| Segmentable.ElementPiecesChain | Sources/Delight/Animatable/Segmentable.swift:88-89 | a line, quad, curve or close becomes addCurve pieces from its origin to its destination, each starting where the previous ends |
| Segmentable.OpenSubpathPieces | Sources/Delight/Animatable/Segmentable.swift:82-87 | an openSubpath becomes a move to its destination, then `amount - 1` addCurve pieces from its origin |
| Segmentable.ResegmentLoop | Sources/Delight/Animatable/Segmentable.swift:56-64 | the loop over `segments.dropFirst()` with its mutable remainder yields the specified resampling |
| Segmentable.StepSegmentable | Sources/Delight/Animatable/Segmentable.swift:57-60 | a segment the loop reaches without a trap can take the count asked of it |
| Segmentable.StepValue | Sources/Delight/Animatable/Segmentable.swift:57-63 | one pass appends the segment's pieces and continues with the updated remainder |
| Segmentable.ResegmentDistributes | Sources/Delight/Animatable/Segmentable.swift:56-63 | when no later segment is a move, the first `remainder` segments get base + 1 pieces and the rest get base |
| Segmentable.DistributedLength | Sources/Delight/Animatable/Segmentable.swift:56-63 | that distribution delivers base pieces per segment plus one per extra |
| Segmentable.DistributedNoExtra | Sources/Delight/Animatable/Segmentable.swift:57 | a non-positive remainder gives no segment an extra piece |
| Segmentable.ResegmentedCached | Sources/Delight/Animatable/Segmentable.swift:46-67 | after a resample is cached, asking again returns the stored pieces |
| Segmentable.ResegmentedSameCount | Sources/Delight/Animatable/Segmentable.swift:46 | asking for the current count, with no cache entry, returns the segments unchanged |
| Segmentable.ResegmentedLength | Sources/Delight/Animatable/Segmentable.swift:46-68 | if every segment after the first draws and more pieces than segments are asked for, the result has exactly that many and starts with the first segment |
| Segmentable.ResampledFromParts | Sources/Delight/Animatable/Segmentable.swift:48-68 | past the guards, the result is the first segment followed by the loop's pieces of the rest |
| Segmentable.DrawingTailDrawable | Sources/Delight/Animatable/Segmentable.swift:56-60 | drawing segments can take any positive number of pieces |
| Segmentable.SplitCount | Sources/Delight/Animatable/Segmentable.swift:49-52 | dividing a count above n among n segments gives a positive base and gets past the guard that needs a base above 1 or some remainder |
| PathGeometry.MakeBox | Sources/Delight/Animatable/Path.swift:11-19 | the center is the midpoint of the two stored corners |
| PathGeometry.Coordinate | Sources/Delight/Animatable/Path.swift:21-32 | topRight is (bottomRight.x, topLeft.y) and bottomLeft is (topLeft.x, bottomRight.y) |
| PathGeometry.DiagonalsMeetAtCenter | Sources/Delight/Animatable/Path.swift:11-32 | both diagonals of the box cross at its center |
| PathGeometry.HighestLessReduces | Sources/Delight/Animatable/Path.swift:45-51 | the comparator is "higher or further left": the closest-to-center term never decides |
| PathGeometry.HighestCentered | Sources/Delight/Animatable/Path.swift:41-53 | `highestCenteredElement` is nil exactly for no segments and otherwise a segment |
| PathGeometry.HighestCenteredPicksUpperLeft | Sources/Delight/Animatable/Path.swift:41-53 | a segment strictly above and left of every other is the anchor |
| PathGeometry.BoxOfEmpty | Sources/Delight/Animatable/Path.swift:59-76 | with no segments the box collapses onto (0,0) |
| PathGeometry.BoxOfBounds | Sources/Delight/Animatable/Path.swift:60-75 | topLeft is at most every segment's smaller endpoint coordinate, bottomRight at least, so the corners are ordered |
| PathGeometry.BoxOfBottomRight | Sources/Delight/Animatable/Path.swift:61-73 | the bottom right is, per axis, the larger endpoint coordinate of the first segment of greatest key |
| PathGeometry.BoxOfTiesKeepFirst | Sources/Delight/Animatable/Path.swift:61-73 | two lines from one origin tie on the key, and the first one's far end sets the bottom right |
| PathGeometry.BoxOfMissesEndpoint | Sources/Delight/Animatable/Path.swift:61-73 | keying the bottom right on the smaller endpoint lets a long segment stick out of the box |
| PathCommands.Previous | Sources/Delight/Animatable/CGPath+Animatable.swift:21 | the last segment, or the default zero-move for the first command |
| PathCommands.SegmentFor | Sources/Delight/Animatable/CGPath+Animatable.swift:19-58 | every command but a move starts at the previous destination; a close ends at the current subpath's first destination; the others end at their own point |
| PathCommands.Appended | Sources/Delight/Animatable/CGPath+Animatable.swift:18-72 | `appendElement` appends exactly one segment |
| PathCommands.Pushed | Sources/Delight/Animatable/CGPath+Animatable.swift:60-71 | the bookkeeping appends the element to `segments` |
| PathCommands.PushLast | Sources/Delight/Animatable/CGPath+Animatable.swift:60-66 | `popLast() ?? []`, append, push back: only the last subpath grows |
| PathCommands.Built | Sources/Delight/Animatable/CGPath+Animatable.swift:67-80 | there are exactly as many segments as commands |
| PathCommands.Cleaned | Sources/Delight/Animatable/CGPath+Animatable.swift:92-94 | only a trailing empty subpath is removed |
| PathCommands.BuiltPrefix | Sources/Delight/Animatable/CGPath+Animatable.swift:67 | reading more commands only extends the segments of earlier ones |
| PathCommands.SegmentsFollowCommands | Sources/Delight/Animatable/CGPath+Animatable.swift:21-56 | segment i starts at segment i-1's destination (at zero for the first), and ends at command i's point unless it is a close |
| PathCommands.BuiltAt | Sources/Delight/Animatable/CGPath+Animatable.swift:18-67 | segment i is what command i turns into after the commands before it |
| PathCommands.FlattenPushLast | Sources/Delight/Animatable/CGPath+Animatable.swift:60-66 | growing the last subpath grows their concatenation by the same elements |
| PathCommands.PushedShaped | Sources/Delight/Animatable/CGPath+Animatable.swift:60-71 | one bookkeeping step keeps the subpaths matching the segments and the commands read so far |
| PathCommands.BuiltShaped | Sources/Delight/Animatable/CGPath+Animatable.swift:60-71 | the subpaths concatenate to the segments behind the default zero-move when the first command draws; only the last is empty, exactly after a close |
| PathCommands.ReadSubpaths | Sources/Delight/Animatable/CGPath+Animatable.swift:61-94 | after the cleanup no subpath is empty and they still hold the segments in order |
| PathCommands.CloseReturnsToStart | Sources/Delight/Animatable/CGPath+Animatable.swift:53-71 | a close ends where its subpath began and opens a fresh subpath |
| PathObjects.Path.constructor | Sources/Delight/Animatable/Path.swift:35-57 | `init(elements:)` stores the elements, with no subpaths, an empty cache and the origin box |
| PathObjects.Path.HighestCenteredElement | Sources/Delight/Animatable/Path.swift:41-53 | nil exactly without segments, otherwise one of them |
| PathObjects.Path.UpdateBoundingBox | Sources/Delight/Animatable/Path.swift:59-76 | the box becomes the value computed from the segments, and nothing else changes |
| PathObjects.Path.AppendElement | Sources/Delight/Animatable/CGPath+Animatable.swift:18-72 | the pops and appends on the class's fields produce the fold step's value; cache and box are untouched |
| PathObjects.Path.RemoveTrailingEmptySubpath | Sources/Delight/Animatable/CGPath+Animatable.swift:92-94 | the trailing empty subpath is removed |
| PathObjects.Path.Segmented | Sources/Delight/Animatable/Segmentable.swift:45-69 | the fast paths return the cached or unchanged segments; otherwise the resampled list, with the box recomputed and the result cached |
| PathObjects.PathFromCommands | Sources/Delight/Animatable/CGPath+Animatable.swift:74-97 | `path` appends every command to a fresh path in order, then removes the trailing empty subpath |
| PathMorph.FirstIndex | Sources/Delight/Animatable/CGPath+Animatable.swift:134 | `firstIndex(of:)` is the first position holding the element, and nil exactly when it is absent |
| PathMorph.Rotated | Sources/Delight/Animatable/CGPath+Animatable.swift:140-143 | k left rotations move element i + k, cyclically, to position i |
| PathMorph.RotatedStep | Sources/Delight/Animatable/CGPath+Animatable.swift:141 | `append(removeFirst())` is one more left rotation |
| PathMorph.RotatedPermutes | Sources/Delight/Animatable/CGPath+Animatable.swift:140-143 | rotating keeps the elements |
| PathMorph.Reordered | Sources/Delight/Animatable/CGPath+Animatable.swift:131-144 | `reorder` keeps the length and leaves an empty list alone |
| PathMorph.ReorderedRotatesNearest | Sources/Delight/Animatable/CGPath+Animatable.swift:132-143 | the result is the list rotated by the first position of a nearest segment, that segment now an openSubpath in front |
| PathMorph.FirstNearestExists | Sources/Delight/Animatable/CGPath+Animatable.swift:132-134 | a non-empty list always has a first nearest segment |
| PathMorph.ReorderedWithoutReference | Sources/Delight/Animatable/CGPath+Animatable.swift:133 | with a nil reference, index 0 is marked and nothing rotates |
| PathMorph.RemoveInsert | Sources/Delight/Animatable/CGPath+Animatable.swift:137-138 | `remove(at: i)` then `insert(x, at: i)` replaces element i |
| PathMorph.ReorderedAtFound | Sources/Delight/Animatable/CGPath+Animatable.swift:132-143 | the result is the marked list rotated by the index `firstIndex(of:)` finds |
| PathMorph.Reorder | Sources/Delight/Animatable/CGPath+Animatable.swift:131-144 | mark, remove, insert, and the rotating `while` loop on the `inout` list yield the specified order |
| PathMorph.MaxCount | Sources/Delight/Animatable/CGPath+Animatable.swift:115 | `Swift.max` is the larger count |
| PathMorph.PathLerp | Sources/Delight/Animatable/CGPath+Animatable.swift:102-129 | the target path itself exactly when either side has no segments |
| PathMorph.LerpPairs | Sources/Delight/Animatable/CGPath+Animatable.swift:124-126 | `zip(...).forEach` lerps each pair in order |
| PathMorph.LerpPath | Sources/Delight/Animatable/CGPath+Animatable.swift:102-129 | the morph on `Path` objects, with the pairs lerped one by one, is the specified morph |
| PathMorph.PathLerpSameCount | Sources/Delight/Animatable/CGPath+Animatable.swift:114-126 | equal counts pair segments by index, and at progress 1 the result is the target's segments |
| PathMorph.PathLerpTrapsOnSingle | Sources/Delight/Animatable/CGPath+Animatable.swift:114-117 | a one-segment path facing a longer one traps in `segmented(by:)` |
| PathMorph.PathLerpResampled | Sources/Delight/Animatable/CGPath+Animatable.swift:114-126 | different counts bring both sides to the larger count; at progress 1 the result is the target's resampled list, rotated to open with an openSubpath |
| PathMorph.MorphResampledShape | Sources/Delight/Animatable/CGPath+Animatable.swift:114-126 | the same shape, for the resampling branch on segment lists |
| PathMorph.PairedStartsOpen | Sources/Delight/Animatable/CGPath+Animatable.swift:120-126 | at progress 1 the first pair is the reordered target's head, an openSubpath |
| TimingCurves.NamedCurvesSpanUnitSquare | Sources/Delight/Timing/TimingCurve.swift:52-60 | every named curve runs from (0,0) to (1,1) with four control points |
| TimingCurves.CurveProgress | Sources/Delight/Timing/TimingCurve.swift:18-39 | the spring branch copies the spring's relative time |
| TimingCurves.CurveProgressDispatch | Sources/Delight/Timing/TimingCurve.swift:19-31 | a cubic curve's progress is its Bézier curve's, field by field; inherited and systemDefault evaluate the default curve |
| TimingCurves.CurveProgressOutside | Sources/Delight/Timing/TimingCurve.swift:19-31 | outside (0, 1) every Bézier-backed curve is at its start or its end |
| TimingCurves.EqualLaws | Sources/Delight/Timing/TimingCurve.swift:63-76 | `==` is an equivalence, and different cases are never equal, not even inherited and systemDefault |
| TimingCurves.CubicEqualIff | Sources/Delight/Timing/TimingCurve.swift:70-71 | two cubic curves are equal exactly when their four points are |
| TimingCurves.Inherit | Sources/Delight/Containers/RegularContainer.swift:65-66 | an inherited curve takes the given curve, and any other curve is kept |
| KeyframeTimings.RangeOf | Sources/Delight/Timing/KeyframeTiming.swift:16-18 | `range` is [start, start + duration); a negative duration traps |
| KeyframeTimings.TimingOverlapsIff | Sources/Delight/Timing/KeyframeTiming.swift:27-29 | two timings overlap exactly when both are non-empty and each starts before the other ends |
| KeyframeTimings.TimingOverlapsLaws | Sources/Delight/Timing/KeyframeTiming.swift:27-29 | `overlaps` is symmetric, and a zero-duration timing overlaps nothing, not even itself |
| KeyframeTimings.TimingEqualIff | Sources/Delight/Timing/KeyframeTiming.swift:39-41 | `==` holds exactly for equal curves and numbers, and equal timings overlap the same timings |
| KeyframeTimings.KeyframeTiming.constructor | Sources/Delight/Timing/KeyframeTiming.swift:20-25 | `init` stores the four arguments |
| KeyframeTimings.DefaultTiming | Sources/Delight/Timing/KeyframeTiming.swift:20-25 | the defaults are systemDefault, start 0, duration 1 and total 0, a unit range that overlaps itself |
| Keyframes.EqualLaws | Sources/Delight/Keyframes/Keyframe.swift:20-22 | `==` holds exactly for equal hashes with overlapping timings; it is symmetric, fails for different hashes, and fails against itself without duration; the ranges are needed only when the hashes agree |
| Keyframes.EqualReflexiveWithDuration | Sources/Delight/Keyframes/Keyframe.swift:20-22 | a keyframe with some duration equals itself |
| TimingParams.StrideTimes | Sources/Delight/Timing/TimingParameters.swift:43-46 | the stride's times lie in [0, 1) and start at 0 |
| TimingParams.StrideTimesAreSteps | Sources/Delight/Timing/TimingParameters.swift:44-46 | the stride visits exactly the multiples k·(1/n) below 1 |
| TimingParams.StrideTimesIncrease | Sources/Delight/Timing/TimingParameters.swift:46 | the stride's times increase |
| TimingParams.Progressions | Sources/Delight/Timing/TimingParameters.swift:40-51 | the last progression is `end()`, a non-positive duration gives exactly [start(), end()], and for a positive one the first entry is the progress at 0 |
| TimingParams.ProgressionsPerFrame | Sources/Delight/Timing/TimingParameters.swift:43-50 | with N ≥ 1 frames there are N + 1 entries, entry k < N being the progress at k/N |
| TimingParams.ProgressionsBelowOneFrame | Sources/Delight/Timing/TimingParameters.swift:43-50 | a duration shorter than one frame gives the progress at 0, then the end |
| TimingParams.FirstWhere | Sources/Delight/Timing/TimingParameters.swift:33-35 | `first(where:)` is the first satisfying position, and nil exactly when none satisfies |
| TimingParams.Reaching | Sources/Delight/Timing/TimingParameters.swift:33-35 | the closure holds exactly when the relative value is reached |
| TimingParams.DelayIsFirstReaching | Sources/Delight/Timing/TimingParameters.swift:32-38 | the delay is the relative time of the first progression reaching the value, or 1 when none does; a value of at most 1 is always reached |
| TimingParams.DelayWithoutDuration | Sources/Delight/Timing/TimingParameters.swift:32-41 | for a non-positive duration the delay is 0 for values up to 0 and 1 above |
| LayerAnimations.ProgressOf | Sources/Delight/Timing/KeyframeTiming.swift:31-37 | the closure is the timing's `progress(at:)` |
| LayerAnimations.FromKeyframe | Sources/Delight/Containers/LayerAnimation.swift:13-26 | duration = relativeDuration · totalDuration; one key time and one value per progression; key time i = start + duration · time i, and value i = lerp at value i |
| LayerAnimations.FromKeyframeEnds | Sources/Delight/Containers/LayerAnimation.swift:18-25 | there is at least one key time; the last is the end of the keyframe's range, and the last value is the lerp at 1 |
| LayerAnimations.ScalarAnimationEndsAtEnd | Sources/Delight/Containers/LayerAnimation.swift:23-25 | for scalars the last value is the end value |
| LayerAnimations.FromKeyframeStarts | Sources/Delight/Containers/LayerAnimation.swift:18-25 | with a Bézier-backed curve the first key time is the range start and the first value the lerp at 0 |
| LayerAnimations.FromKeyframeWithoutDuration | Sources/Delight/Containers/LayerAnimation.swift:15-25 | without duration there are exactly two key frames, at the start and the end of the range |
| LayerAnimations.KeyTimesNondecreasing | Sources/Delight/Containers/LayerAnimation.swift:20-22 | key times never decrease when the progression times never decrease and relativeDuration ≥ 0 |
| LayerAnimations.KeyTimesFollowTimes | Sources/Delight/Containers/LayerAnimation.swift:20-22 | scaling by a non-negative relative duration keeps the order of the times |
| Containers.ContainerTiming | Sources/Delight/Containers/RegularContainer.swift:33-39 | total = delay + duration, the shares sum to 1 and scale back to delay and duration, and with no delay they are 0 and 1 |
| Containers.SharesSumToOne | Sources/Delight/Containers/RegularContainer.swift:33-39 | delay share plus duration share is 1 for a non-zero total |
| Containers.KeptLatestReplacesOrAppends | Sources/Delight/Containers/RegularContainer.swift:45-51 | the added keyframe ends the list; it replaces a last keyframe `==` to it, keeping the length, and is appended otherwise; earlier keyframes stay |
| Containers.KeptLatestAppendsWithoutDuration | Sources/Delight/Containers/RegularContainer.swift:47-51 | a keyframe without duration is never `==` to anything, so it is always appended |
| Containers.Added | Sources/Delight/Containers/RegularContainer.swift:42-58 | nil changes nothing; otherwise only the list under the keyframe's hash changes, and every list holds keyframes of its own hash; only a keyframe joining a non-empty list needs valid ranges |
| Containers.AddedFirstUnderHash | Sources/Delight/Containers/RegularContainer.swift:45-51 | the first keyframe under a hash is stored alone without any comparison, whatever its duration |
| Containers.RegularContainer.constructor | Sources/Delight/Containers/RegularContainer.swift:25-40 | the timing is the shares of the total, the block is held, and nothing is stored |
| Containers.RegularContainer.AddAnimation | Sources/Delight/Containers/RegularContainer.swift:42-58 | the stored map becomes the specified map, and nothing runs |
| Containers.RegularContainer.Nest | Sources/Delight/Containers/RegularContainer.swift:60-72 | an inherited curve takes the container's, or systemDefault; the block runs once at most; the values are committed; no longer executing |
| Containers.RegularContainer.ExecuteAnimations | Sources/Delight/Containers/RegularContainer.swift:74-76 | every stored animation runs, and nothing else changes |
| Containers.NestTwice | Sources/Delight/Containers/RegularContainer.swift:68-69 | a second nest does not run the block again |
| Containers.NestedInsideParent | Sources/Delight/Keyframes/KeyframeContainer.swift:32-33 | a child range inside [0, 1] lands inside the parent's range |
| Containers.NestedInWholeRange | Sources/Delight/Keyframes/KeyframeContainer.swift:32-35 | inside a parent spanning [0, 1] the start and duration stay as they are |
| Containers.Compacted | Sources/Delight/Keyframes/KeyframeContainer.swift:40 | `compactMap(identity)` keeps exactly the non-nil entries |
| Containers.CompactedAllPresent | Sources/Delight/Keyframes/KeyframeContainer.swift:40 | when nothing is nil, compacting keeps every entry in order |
| Containers.KeyframeContainer.constructor | Sources/Delight/Keyframes/KeyframeContainer.swift:13-21 | the timing stores the arguments and the transaction's duration; the block is held; there is no parent and no finalizer |
| Containers.KeyframeContainer.AddAnimation | Sources/Delight/Keyframes/KeyframeContainer.swift:23-26 | forwards to the parent and records exactly one finalizer, possibly nil |
| Containers.KeyframeContainer.Nest | Sources/Delight/Keyframes/KeyframeContainer.swift:28-41 | with no parent, or a keyframe parent, nothing changes; otherwise the timing is composed, the block runs once, and the non-nil finalizers run in order |
| AnimationQueues.ParentAnimation | Sources/Delight/Queue/AnimationQueue.swift:84-90 | nil exactly when no queue at or below has an executing first container; otherwise an executing container |
| AnimationQueues.ParentIsNearestExecutingHead | Sources/Delight/Queue/AnimationQueue.swift:84-90 | the parent is the executing first container of the nearest queue at or below that has one |
| AnimationQueues.ParentIsQueued | Sources/Delight/Queue/AnimationQueue.swift:84-90 | a parent animation is the first container of some queue at or below |
| AnimationQueues.EnclosingIsQueuedAndExecuting | Sources/Delight/Queue/AnimationQueue.swift:19-28 | nil under a non-zero inherited duration; otherwise current ?? parent, always an executing, queued container |
| AnimationQueues.AnimationQueueStack.constructor | Sources/Delight/Queue/AnimationQueue.swift:10 | the stack starts empty, with no swizzle applied |
| AnimationQueues.AnimationQueueStack.Begin | Sources/Delight/Queue/AnimationQueue.swift:34-42 | prepares on an empty stack, then pushes one queue linked to the old top |
| AnimationQueues.AnimationQueueStack.Enqueue | Sources/Delight/Queue/AnimationQueue.swift:44-51 | traps with no queue, or for a keyframe container into an empty queue; otherwise appends to the top queue only and nests in its parent animation |
| AnimationQueues.AnimationQueueStack.Commit | Sources/Delight/Queue/AnimationQueue.swift:57-67 | runs the top queue's containers in order, pops exactly one queue (trapping on an empty stack), and cleans up an emptied stack |
| AnimationQueues.SwizzleBalanced | Sources/Delight/Queue/AnimationQueue.swift:35-66 | prepare is the last swizzle exactly while a queue is open, and prepare and cleanup strictly alternate |
| AnimationQueues.FirstEnqueuedNestsInItself | Sources/Delight/Queue/AnimationQueue.swift:44-51 | a container enqueued into an empty queue while executing is its own nest target |
| AnimationQueues.Round | Sources/Delight/Queue/AnimationQueue.swift:34-67 | begin, enqueue and commit on an empty stack run exactly that container, leave the stack empty, and prepare and clean up once each |
| LayerValueProviders.LayerValueProvider.constructor | Sources/Delight/Animatable/LayerValueProvider.swift:18-22 | end equals start, both from the one provider call |
| LayerValueProviders.LayerValueProvider.CommitValues | Sources/Delight/Animatable/LayerValueProvider.swift:24-29 | the first commit takes the provided value as end; later commits change nothing |
| LayerValueProviders.CommitTwice | Sources/Delight/Animatable/LayerValueProvider.swift:12-29 | after two commits the end is the first provided value and the start is unchanged |
| GraphContainer.Lines | Sources/Example/Components/GraphContainer.swift:51-53 | the consecutive pairs of n points are n - 1 lines |
| GraphContainer.Lerped | Sources/Example/Components/GraphContainer.swift:55-58 | the next level has one point fewer |
| GraphContainer.LineEndpointsFor | Sources/Example/Components/GraphContainer.swift:47-60 | returns the accumulator below two points; otherwise appends the consecutive pairs and recurses on the lerped points, as specified |
| GraphContainer.AllLinesCount | Sources/Example/Components/GraphContainer.swift:47-71 | n points add n(n-1)/2 lines whatever t is, so lines drawn at one time can be updated index by index |
| GraphContainer.AllLinesStartWithFirstLevel | Sources/Example/Components/GraphContainer.swift:49-53 | the first level's lines come first, after the accumulator |
| GraphContainer.KeepsPrefix | Sources/Example/Components/GraphContainer.swift:47-60 | the recursion only ever appends |
| GraphView.Moved | Example/Components/GraphView.swift:40-57 | the four conditional updates in order give the specified position |
| GraphView.EmptyMovementStays | Example/Components/GraphView.swift:40-57 | an empty movement leaves the point unchanged |
| GraphView.SingleDirections | Example/Components/GraphView.swift:30-57 | left and right change only x, by ∓distance; up and down change only y, by ∓distance |
| GraphView.OppositesCancel | Example/Components/GraphView.swift:43-54 | left with right keeps x, and up with down keeps y |
| GraphView.OppositePairsStay | Example/Components/GraphView.swift:30-57 | `[.toTheLeft, .toTheRight]` and `[.upwards, .downwards]` do not move the point |
| GraphView.UpwardsDecreasesY | Example/Components/GraphView.swift:49-51 | moving upwards by a positive distance lowers y, in screen coordinates |

## Left out

- Cubic root solving and rotation are not modelled. This covers the Cardano `root` of both solvers, the C solver, `rotatedAroundOrigin` and `CurvePointIntersectingCurveAtT`. They rely on complex arithmetic, `cbrt`, `acos`, `cos` and `sin`. The interior branch of `progress(at:)` comes in as a function parameter (`TimingCurves.Solvers`, and the `interior` argument of `TimingSolver.ProgressAt`).
- SpringTiming's damped oscillator uses `exp`, `cos` and `cosh`, so the spring's value is a parameter too. Only its case in the dispatch and in `==` is modelled.
- Floating point is not modelled: every scalar is an unbounded real. For example, the model proves `lerp(to: b, with: 1) == b` and exact De Casteljau identities, which `Double` only approximates.
- Vectors.DistanceSquared: `distance(to:)` takes a square root. The model keeps the squared distance, which orders pairs the same way and is all that `reorder` needs.
- Utilities.RoundHalfAway: `rounded()` and `Darwin.round` are stated on reals, so the binary representation of 0.001 and the like is not captured.
- `degrees`, `radians` and the Complex extensions depend on π or are notation only.
- Platform glue is left out: method swizzling (modelled as a log of `Prepare`/`Cleanup` events), `Displayable.perform`, CATransaction and the UIKit/AppKit bridges.
- `UIScreen` `maxFPS` and `+[UIView inheritedAnimationDuration]` are parameters of the model.
- CAMediaTimingFunction cannot be called here. The system curves (`linear`, the default curve and the others built by `init(functionName:)`) are given control points.
- `CGPath.applyWithBlock` is not modelled: a path is the list of draw commands it would enumerate (`PathCommands.DrawCommand`). `CGMutablePath` output and `PathElement.add(to:)` are left out: a morphed path is its list of lerped elements (`PathMorph.MorphedPath`). The debug list `allPaths` is left out.
- CGColor and CAShapeLayer segmentation, and the colour lerps, are not part of this model.
- Closures are not run. Animation blocks are a flag for whether the block is still held. Commits, stored animations and finalizers are logged in order as `Containers.Effect` values. `AnyAnimation`, `DeferredAnimation` and the `as? [T]` cast of the keyed lists are left out: the model stores the keyframes themselves.
- In the queue, whether a container is still executing is a parameter. `AnimationQueues.AnimationQueueStack.Enqueue` returns the container the new one is to be nested inside, instead of calling `nest(inside:)`.
- A `LayerKeyframe`'s timing object is never written after it is created. Keyframes therefore carry a value snapshot of their timing (`KeyframeTimings.Timing`).
- Containers.RegularContainer.constructor requires a non-zero total duration. With a zero total the source divides 0 by 0 and stores NaN shares, which reals cannot express.
- Containers: the order in which `animations.values` is visited is not specified in Swift. The logs record the whole stored map instead of one event per stored animation.
- TimingCurves: the equality of two springs compares constant parameters only, so every spring equals every other.
- `TimingProgress.description` and the other `description` properties are printing only.
- The example app beyond `lineEndpoints` and `moved(_:by:)` is not part of this model: views, gestures, `StarPath`, controllers and playgrounds. Example/Components/Vectors.swift repeats the package's vector arithmetic.
- Earlier revisions that sit outside the package's target path `Sources/Delight`, such as Sources/Timing, Sources/Animatable, Sources/Utilities, Sources/Keyframes and Sources/Containers, repeat logic modelled here once.

## Findings

| source | as written | input that shows it | evidently intended | confidence | as-written member | corrected member |
|---|---|---|---|---|---|---|
| Sources/Delight/Utilities/Utilities.swift:137-139 | `trim(digitsPastDecimal:)` scales by `10.0 * places` instead of 10 to the power `places` | 0.26 trimmed to 2 places: 0.26 · 20 = 5.2 rounds to 5, and 5 / 20 = 0.25 | round to `places` decimal digits, so that 0.26 stays 0.26 | not executed | Utilities.TrimMisrounds | Utilities.TrimToDecimalsKeeps |
