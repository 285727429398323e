/**
 * Animation containers: the regular container an `animate(withDuration:)`
 * call creates, and the keyframe container an `addKeyframe(...)` call
 * creates inside one.  Their animation blocks, value commits and
 * finalizers are closures; the model records running them as effects, in
 * order, instead of running them.
 */
module Containers {
  import opened Wrappers
  import TimingCurves
  import opened KeyframeTimings
  import opened Keyframes
  import Animatable

  /** What a container has run, in order. */
  datatype Effect =
    | RanBlock
      /** Every stored animation's `cachedCommits`, over the stored keyframes. */
    | CommittedValues(stored: map<int, seq<Keyframe>>)
      /** Every stored animation's `cachedAnimations`, over the stored keyframes. */
    | ExecutedAnimations(stored: map<int, seq<Keyframe>>)
      /** The non-nil finalizers, one per keyframe, in order. */
    | RanFinalizers(keyframes: seq<Keyframe>)

  /** Either kind of container, as the queue and `nest(inside:)` see it. */
  datatype AnyContainer = Regular(regular: RegularContainer) | Keyframed(keyframed: KeyframeContainer)

  // ---------------------------------------------------------------------
  // Regular containers

  /** The timing a regular container starts with: delay and duration as shares of their sum. */
  function ContainerTiming(delay: real, duration: real, curve: TimingCurves.TimingCurve): (t: Timing)
    requires delay + duration != 0.0
    ensures t.curve == curve && t.totalDuration == delay + duration
    ensures t.relativeStartTime + t.relativeDuration == 1.0
    ensures t.relativeStartTime * t.totalDuration == delay && t.relativeDuration * t.totalDuration == duration
    ensures delay == 0.0 ==> t.relativeStartTime == 0.0 && t.relativeDuration == 1.0
  {
    SharesSumToOne(delay, duration);
    Timing(curve, delay / (delay + duration), duration / (delay + duration), delay + duration)
  }

  lemma SharesSumToOne(delay: real, duration: real)
    requires delay + duration != 0.0
    ensures delay / (delay + duration) + duration / (delay + duration) == 1.0
  {
    var total := delay + duration;
    var start, share := delay / total, duration / total;
    var a, b := start * total, share * total;
    assert a == delay && b == duration;
    assert (start + share) * total == a + b;
    assert a + b == total;
    assert total == 1.0 * total;
    Animatable.MulCancel(start + share, 1.0, total);
  }

  /** Every keyframe is stored under its own hash. */
  ghost predicate WellStored(animations: map<int, seq<Keyframe>>) {
    forall h, i :: h in animations && 0 <= i < |animations[h]| ==> animations[h][i].hashValue == h
  }

  /** The keyframes stored under a hash, or none. */
  function StoredUnder(animations: map<int, seq<Keyframe>>, hash: int): seq<Keyframe> {
    if hash in animations then animations[hash] else []
  }

  /** The keyed list after adding a keyframe: a last keyframe `==` to it gives way to it. */
  function KeptLatest(keyframes: seq<Keyframe>, keyframe: Keyframe): (r: seq<Keyframe>)
    requires |keyframes| > 0 ==> EqualDefined(keyframes[|keyframes| - 1], keyframe)
  {
    if |keyframes| > 0 && Equal(keyframes[|keyframes| - 1], keyframe) then keyframes[..|keyframes| - 1] + [keyframe]
    else keyframes + [keyframe]
  }

  /**
   * The added keyframe always ends the list; it replaces a last keyframe
   * that is `==` to it, leaving the length unchanged, and is appended
   * otherwise; all earlier keyframes stay.
   */
  lemma KeptLatestReplacesOrAppends(keyframes: seq<Keyframe>, keyframe: Keyframe)
    requires |keyframes| > 0 ==> EqualDefined(keyframes[|keyframes| - 1], keyframe)
    ensures var r := KeptLatest(keyframes, keyframe);
      |r| > 0 && r[|r| - 1] == keyframe
      && (if |keyframes| > 0 && Equal(keyframes[|keyframes| - 1], keyframe)
          then |r| == |keyframes| && r[..|r| - 1] == keyframes[..|keyframes| - 1]
          else |r| == |keyframes| + 1 && r[..|keyframes|] == keyframes)
  {
  }

  /** A keyframe without duration is never `==` to anything, so it is always appended. */
  lemma KeptLatestAppendsWithoutDuration(keyframes: seq<Keyframe>, keyframe: Keyframe)
    requires |keyframes| > 0 ==> EqualDefined(keyframes[|keyframes| - 1], keyframe)
    requires keyframe.timing.relativeDuration == 0.0
    ensures KeptLatest(keyframes, keyframe) == keyframes + [keyframe]
  {
    if |keyframes| > 0 {
      EqualLaws(keyframes[|keyframes| - 1], keyframe);
    }
  }

  /**
   * Adding a keyframe compares it with the last one stored under its hash,
   * if there is one, and that comparison builds both ranges, which traps on
   * a negative duration; the first keyframe under a hash is never compared.
   */
  predicate Addable(animations: map<int, seq<Keyframe>>, keyframe: Keyframe) {
    var stored := StoredUnder(animations, keyframe.hashValue);
    |stored| > 0 ==> ValidKeyframe(stored[|stored| - 1]) && ValidKeyframe(keyframe)
  }

  /** `addAnimation(for:using:)` on the stored map: nothing for nil, else the keyed list keeps the latest. */
  function Added(animations: map<int, seq<Keyframe>>, keyframe: Option<Keyframe>): (r: map<int, seq<Keyframe>>)
    requires WellStored(animations)
    requires keyframe.Some? ==> Addable(animations, keyframe.value)
    ensures WellStored(r)
    ensures keyframe.None? ==> r == animations
    ensures keyframe.Some? ==> r.Keys == animations.Keys + {keyframe.value.hashValue}
    ensures keyframe.Some? ==> forall h :: h in animations && h != keyframe.value.hashValue ==> r[h] == animations[h]
  {
    match keyframe
    case None => animations
    case Some(k) =>
      var old_ := StoredUnder(animations, k.hashValue);
      KeptLatestReplacesOrAppends(old_, k);
      var r := animations[k.hashValue := KeptLatest(old_, k)];
      assert forall i :: 0 <= i < |r[k.hashValue]| ==> r[k.hashValue][i] == k || r[k.hashValue][i] in old_ by {
        forall i | 0 <= i < |r[k.hashValue]|
          ensures r[k.hashValue][i] == k || r[k.hashValue][i] in old_
        {
          if i < |r[k.hashValue]| - 1 {
            assert r[k.hashValue][i] == old_[i];
          }
        }
      }
      r
  }

  /** The first keyframe under a hash is stored alone, whatever its duration, even a negative one. */
  lemma AddedFirstUnderHash(animations: map<int, seq<Keyframe>>, keyframe: Keyframe)
    requires WellStored(animations) && keyframe.hashValue !in animations
    ensures Added(animations, Some(keyframe)) == animations[keyframe.hashValue := [keyframe]]
  {
    assert StoredUnder(animations, keyframe.hashValue) == [];
    assert KeptLatest([], keyframe) == [keyframe];
  }

  class RegularContainer {
    const timing: KeyframeTiming
    /** `animationBlock != nil`. */
    var hasBlock: bool
    var animations: map<int, seq<Keyframe>>
    var performed: seq<Effect>

    /** The block runs at most once: it is either still held or has run exactly once. */
    ghost predicate Valid()
      reads this
    {
      multiset(performed)[RanBlock] + (if hasBlock then 1 else 0) == 1 && WellStored(animations)
    }

    /** `init(withDelay:duration:curve:animations:)`; a zero total duration has no shares. */
    constructor(delay: real, duration: real, curve: TimingCurves.TimingCurve)
      requires delay + duration != 0.0
      ensures Valid() && fresh(timing)
      ensures timing.Value() == ContainerTiming(delay, duration, curve)
      ensures hasBlock && animations == map[] && performed == []
    {
      timing := new KeyframeTiming(curve, delay / (delay + duration), duration / (delay + duration), delay + duration);
      hasBlock := true;
      animations := map[];
      performed := [];
    }

    predicate IsExecuting()
      reads this
    {
      hasBlock
    }

    method AddAnimation(keyframe: Option<Keyframe>)
      requires Valid() && (keyframe.Some? ==> Addable(animations, keyframe.value))
      modifies this
      ensures Valid()
      ensures animations == Added(old(animations), keyframe)
      ensures hasBlock == old(hasBlock) && performed == old(performed)
    {
      if keyframe.None? {
        return;
      }
      var k := keyframe.value;
      var newKeyframes := if k.hashValue in animations then animations[k.hashValue] else [];
      if |newKeyframes| > 0 && Equal(newKeyframes[|newKeyframes| - 1], k) {
        newKeyframes := newKeyframes[..|newKeyframes| - 1];
      }
      newKeyframes := newKeyframes + [k];
      animations := animations[k.hashValue := newKeyframes];
    }

    /**
     * `nest(inside:)`, given the enclosing container's curve if there is
     * one: an inherited curve takes it (or the system default), the block
     * runs if it has not, and the stored values are committed.
     */
    method Nest(containerCurve: Option<TimingCurves.TimingCurve>)
      requires Valid()
      modifies this, timing
      ensures Valid() && !IsExecuting()
      ensures timing.Value() == old(timing.Value()).(curve := TimingCurves.Inherit(old(timing.curve), containerCurve.GetOr(TimingCurves.SystemDefault)))
      ensures animations == old(animations)
      ensures performed == old(performed) + (if old(hasBlock) then [RanBlock] else []) + [CommittedValues(animations)]
      ensures multiset(performed)[RanBlock] == 1
    {
      var inheritedCurve := containerCurve.GetOr(TimingCurves.SystemDefault);
      timing.curve := if TimingCurves.Equal(timing.curve, TimingCurves.Inherited) then inheritedCurve else timing.curve;
      if hasBlock {
        performed := performed + [RanBlock];
      }
      hasBlock := false;
      performed := performed + [CommittedValues(animations)];
    }

    /** `executeAnimations()`: every stored animation runs. */
    method ExecuteAnimations()
      requires Valid()
      modifies this
      ensures Valid()
      ensures hasBlock == old(hasBlock) && animations == old(animations)
      ensures performed == old(performed) + [ExecutedAnimations(animations)]
    {
      performed := performed + [ExecutedAnimations(animations)];
    }
  }

  /** A second nest runs the block no more: after two nests it has run exactly once, and is not executing. */
  method NestTwice(c: RegularContainer, first: Option<TimingCurves.TimingCurve>, second: Option<TimingCurves.TimingCurve>)
    requires c.Valid() && c.IsExecuting()
    modifies c, c.timing
    ensures !c.IsExecuting() && multiset(c.performed)[RanBlock] == 1
    ensures c.performed == old(c.performed) + [RanBlock, CommittedValues(c.animations), CommittedValues(c.animations)]
  {
    c.Nest(first);
    c.Nest(second);
  }

  // ---------------------------------------------------------------------
  // Keyframe containers

  /**
   * A keyframe's relative timing seen inside a parent's: its start and
   * duration scale into the parent's range, it takes the parent's total
   * duration, and an inherited curve takes the parent's.
   */
  function Nested(child: Timing, parent: Timing): Timing {
    Timing(TimingCurves.Inherit(child.curve, parent.curve),
           parent.relativeStartTime + child.relativeStartTime * parent.relativeDuration,
           child.relativeDuration * parent.relativeDuration,
           parent.totalDuration)
  }

  /** A child range inside [0, 1] lands inside the parent's range. */
  lemma NestedInsideParent(child: Timing, parent: Timing)
    requires 0.0 <= child.relativeStartTime && 0.0 <= child.relativeDuration
    requires child.relativeStartTime + child.relativeDuration <= 1.0
    requires parent.relativeDuration >= 0.0
    ensures var n := Nested(child, parent);
      n.relativeDuration >= 0.0
      && parent.relativeStartTime <= n.relativeStartTime
      && n.relativeStartTime + n.relativeDuration <= parent.relativeStartTime + parent.relativeDuration
  {
    var s, d, pd := child.relativeStartTime, child.relativeDuration, parent.relativeDuration;
    Animatable.MulNonneg(s, pd);
    Animatable.MulNonneg(d, pd);
    Animatable.MulNonneg(1.0 - s - d, pd);
    assert Split: s * pd + d * pd + (1.0 - s - d) * pd == pd;
  }

  /** Inside a parent spanning [0, 1] of the same total the numbers stay as they are. */
  lemma NestedInWholeRange(child: Timing, parent: Timing)
    requires parent.relativeStartTime == 0.0 && parent.relativeDuration == 1.0
    ensures Nested(child, parent) == child.(curve := TimingCurves.Inherit(child.curve, parent.curve), totalDuration := parent.totalDuration)
  {
  }

  /** `compactMap(identity)`: the non-nil entries, in order. */
  function Compacted<T(!new)>(entries: seq<Option<T>>): (r: seq<T>)
    ensures |r| <= |entries|
    ensures forall x :: x in r <==> Some(x) in entries
    decreases |entries|
  {
    if entries == [] then []
    else
      var rest := Compacted(entries[..|entries| - 1]);
      assert entries == entries[..|entries| - 1] + [entries[|entries| - 1]];
      match entries[|entries| - 1]
      case None => rest
      case Some(x) => rest + [x]
  }

  /** When nothing is nil, compacting drops nothing. */
  lemma {:induction false} CompactedAllPresent<T(!new)>(entries: seq<Option<T>>)
    requires forall i :: 0 <= i < |entries| ==> entries[i].Some?
    ensures |Compacted(entries)| == |entries|
    ensures forall i :: 0 <= i < |entries| ==> Compacted(entries)[i] == entries[i].value
  {
    if entries != [] {
      CompactedAllPresent(entries[..|entries| - 1]);
    }
  }

  class KeyframeContainer {
    const timing: KeyframeTiming
    var hasBlock: bool
    var parent: RegularContainer?
    /** One entry per added keyframe: its value provider's `commitValues`, or nil. */
    var finalizers: seq<Option<Keyframe>>
    var performed: seq<Effect>

    ghost predicate Valid()
      reads this, parent
    {
      multiset(performed)[RanBlock] + (if hasBlock then 1 else 0) == 1
      && (parent != null ==> parent.Valid() && parent.timing != timing)
    }

    /** `init(with:relativeDuration:curve:animations:)`, given the transaction's animation duration. */
    constructor(relativeStartTime: real, relativeDuration: real, curve: TimingCurves.TimingCurve, animationDuration: real)
      ensures Valid() && fresh(timing)
      ensures timing.Value() == Timing(curve, relativeStartTime, relativeDuration, animationDuration)
      ensures hasBlock && parent == null && finalizers == [] && performed == []
    {
      timing := new KeyframeTiming(curve, relativeStartTime, relativeDuration, animationDuration);
      hasBlock := true;
      parent := null;
      finalizers := [];
      performed := [];
    }

    predicate IsExecuting()
      reads this
    {
      hasBlock
    }

    /** `addAnimation(for:using:)`: forwards to the parent, and records exactly one finalizer, possibly nil. */
    method AddAnimation(keyframe: Option<Keyframe>)
      requires Valid() && (parent != null && keyframe.Some? ==> Addable(parent.animations, keyframe.value))
      modifies this, parent
      ensures Valid()
      ensures parent == old(parent) && finalizers == old(finalizers) + [keyframe]
      ensures hasBlock == old(hasBlock) && performed == old(performed)
      ensures parent != null ==>
        parent.animations == Added(old(parent.animations), keyframe)
        && parent.hasBlock == old(parent.hasBlock) && parent.performed == old(parent.performed)
    {
      if parent != null {
        parent.AddAnimation(keyframe);
      }
      finalizers := finalizers + [keyframe];
    }

    /**
     * `nest(inside:)`: inside no container or inside another keyframe
     * container nothing happens; inside a regular container the timing is
     * composed with the container's, the block runs if it has not, and the
     * finalizers run in order.
     */
    method Nest(container: Option<AnyContainer>)
      requires Valid()
      requires container.Some? && container.value.Regular? ==>
        container.value.regular.Valid() && container.value.regular.timing != timing
      modifies this, timing
      ensures Valid()
      ensures container.None? || container.value.Keyframed? ==>
        parent == old(parent) && hasBlock == old(hasBlock) && performed == old(performed)
        && timing.Value() == old(timing.Value())
      ensures container.Some? && container.value.Regular? ==>
        parent == container.value.regular && !IsExecuting()
        && timing.Value() == Nested(old(timing.Value()), parent.timing.Value())
        && performed == old(performed) + (if old(hasBlock) then [RanBlock] else []) + [RanFinalizers(Compacted(finalizers))]
        && multiset(performed)[RanBlock] == 1
      ensures finalizers == old(finalizers)
    {
      if container.None? || container.value.Keyframed? {
        return;
      }
      var p := container.value.regular;
      parent := p;
      timing.relativeStartTime := p.timing.relativeStartTime + timing.relativeStartTime * p.timing.relativeDuration;
      timing.relativeDuration := timing.relativeDuration * p.timing.relativeDuration;
      timing.totalDuration := p.timing.totalDuration;
      timing.curve := if TimingCurves.Equal(timing.curve, TimingCurves.Inherited) then p.timing.curve else timing.curve;
      if hasBlock {
        performed := performed + [RanBlock];
      }
      hasBlock := false;
      performed := performed + [RanFinalizers(Compacted(finalizers))];
    }
  }
}
