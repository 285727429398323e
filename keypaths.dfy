/**
 * The key-path-driven `lerp` of KeyPathProvider.  A value is modelled as the
 * sequence of its scalar components and a writable key path as the index
 * of the component it names.
 */
module KeyPaths {
  import opened Animatable

  /** Key paths of a type always name one of its components. */
  predicate ValidKeyPaths(keyPaths: seq<nat>, width: nat) {
    forall i :: 0 <= i < |keyPaths| ==> keyPaths[i] < width
  }

  /**
   * What the lerp computes: a listed component is the scalar lerp of the
   * start and end components, every other component is the start's.
   */
  function KeyPathLerped(start: seq<real>, end: seq<real>, keyPaths: seq<nat>, progress: real): (r: seq<real>)
    requires |end| == |start|
    ensures |r| == |start|
  {
    seq(|start|, i requires 0 <= i < |start| =>
      if i in keyPaths then Lerp(start[i], end[i], progress) else start[i])
  }

  /**
   * `lerp(to:with:)`: a copy of `self` whose listed components are
   * overwritten one key path at a time.
   */
  method KeyPathLerp(start: seq<real>, end: seq<real>, keyPaths: seq<nat>, progress: real)
    returns (newValue: seq<real>)
    requires |end| == |start| && ValidKeyPaths(keyPaths, |start|)
    ensures newValue == KeyPathLerped(start, end, keyPaths, progress)
  {
    newValue := start;
    for n := 0 to |keyPaths|
      invariant |newValue| == |start|
      invariant forall i :: 0 <= i < |start| ==>
        newValue[i] == if i in keyPaths[..n] then Lerp(start[i], end[i], progress) else start[i]
    {
      var keyPath := keyPaths[n];
      var interpolated := Lerp(start[keyPath], end[keyPath], progress);
      newValue := newValue[keyPath := interpolated];
      assert keyPaths[..n + 1] == keyPaths[..n] + [keyPath];
    }
    assert keyPaths[..|keyPaths|] == keyPaths;
  }

  /** Progress 0 gives back the start value. */
  lemma KeyPathLerpAtZero(start: seq<real>, end: seq<real>, keyPaths: seq<nat>)
    requires |end| == |start|
    ensures KeyPathLerped(start, end, keyPaths, 0.0) == start
  {
  }

  /** Progress 1 gives the end value on every listed component, the start value elsewhere. */
  lemma KeyPathLerpAtOne(start: seq<real>, end: seq<real>, keyPaths: seq<nat>)
    requires |end| == |start|
    ensures forall i :: 0 <= i < |start| ==>
      KeyPathLerped(start, end, keyPaths, 1.0)[i] == if i in keyPaths then end[i] else start[i]
  {
  }

  /**
   * Only which components are listed matters: the order of the key paths
   * and repetitions among them do not change the result.
   */
  lemma KeyPathOrderIrrelevant(start: seq<real>, end: seq<real>, k1: seq<nat>, k2: seq<nat>, progress: real)
    requires |end| == |start|
    requires forall k :: k in k1 <==> k in k2
    ensures KeyPathLerped(start, end, k1, progress) == KeyPathLerped(start, end, k2, progress)
  {
  }
}
