/**
 * The standard library's `min(by:)` and `max(by:)` as the folds they are:
 * the first element is the running result, and a later element replaces it
 * only when it is strictly smaller (`less(e, result)` for `min`) or the
 * running result is strictly smaller than it (`less(result, e)` for `max`).
 * So both keep the FIRST of several tied extremes, and the comparator need
 * not be an order at all.
 */
module Folds {
  import opened Wrappers

  function FoldMin<T>(acc: T, rest: seq<T>, less: (T, T) -> bool): T
    decreases |rest|
  {
    if rest == [] then acc
    else FoldMin(if less(rest[0], acc) then rest[0] else acc, rest[1..], less)
  }

  function FoldMax<T>(acc: T, rest: seq<T>, less: (T, T) -> bool): T
    decreases |rest|
  {
    if rest == [] then acc
    else FoldMax(if less(acc, rest[0]) then rest[0] else acc, rest[1..], less)
  }

  /** `s.min(by: less)`. */
  function MinBy<T>(s: seq<T>, less: (T, T) -> bool): (r: Option<T>)
    ensures r.None? <==> s == []
    ensures r.Some? ==> r.value in s
  {
    if s == [] then None
    else
      FoldMinIn(s[0], s[1..], less);
      Some(FoldMin(s[0], s[1..], less))
  }

  /** `s.max(by: less)`. */
  function MaxBy<T>(s: seq<T>, less: (T, T) -> bool): (r: Option<T>)
    ensures r.None? <==> s == []
    ensures r.Some? ==> r.value in s
  {
    if s == [] then None
    else
      FoldMaxIn(s[0], s[1..], less);
      Some(FoldMax(s[0], s[1..], less))
  }

  lemma {:induction false} FoldMinIn<T>(acc: T, rest: seq<T>, less: (T, T) -> bool)
    ensures FoldMin(acc, rest, less) == acc || FoldMin(acc, rest, less) in rest
  {
    if rest != [] {
      FoldMinIn(if less(rest[0], acc) then rest[0] else acc, rest[1..], less);
    }
  }

  lemma {:induction false} FoldMaxIn<T>(acc: T, rest: seq<T>, less: (T, T) -> bool)
    ensures FoldMax(acc, rest, less) == acc || FoldMax(acc, rest, less) in rest
  {
    if rest != [] {
      FoldMaxIn(if less(acc, rest[0]) then rest[0] else acc, rest[1..], less);
    }
  }

  /** A comparator that compares a real-valued key. */
  ghost predicate ComparesKey<T(!new)>(less: (T, T) -> bool, key: T -> real) {
    forall a, b :: less(a, b) == (key(a) < key(b))
  }

  /** Under a key comparator the fold's result has the least key. */
  lemma {:induction false} FoldMinLeast<T(!new)>(acc: T, rest: seq<T>, less: (T, T) -> bool, key: T -> real)
    requires ComparesKey(less, key)
    ensures key(FoldMin(acc, rest, less)) <= key(acc)
    ensures forall i :: 0 <= i < |rest| ==> key(FoldMin(acc, rest, less)) <= key(rest[i])
  {
    if rest != [] {
      var next := if less(rest[0], acc) then rest[0] else acc;
      FoldMinLeast(next, rest[1..], less, key);
      assert forall i :: 1 <= i < |rest| ==> rest[i] == rest[1..][i - 1];
    }
  }

  /** Under a key comparator the fold's result has the greatest key. */
  lemma {:induction false} FoldMaxGreatest<T(!new)>(acc: T, rest: seq<T>, less: (T, T) -> bool, key: T -> real)
    requires ComparesKey(less, key)
    ensures key(FoldMax(acc, rest, less)) >= key(acc)
    ensures forall i :: 0 <= i < |rest| ==> key(FoldMax(acc, rest, less)) >= key(rest[i])
  {
    if rest != [] {
      var next := if less(acc, rest[0]) then rest[0] else acc;
      FoldMaxGreatest(next, rest[1..], less, key);
      assert forall i :: 1 <= i < |rest| ==> rest[i] == rest[1..][i - 1];
    }
  }

  /** `min(by:)` under a key comparator: a member with the least key. */
  lemma MinByLeast<T(!new)>(s: seq<T>, less: (T, T) -> bool, key: T -> real)
    requires ComparesKey(less, key) && s != []
    ensures MinBy(s, less).Some?
    ensures forall i :: 0 <= i < |s| ==> key(MinBy(s, less).value) <= key(s[i])
  {
    FoldMinLeast(s[0], s[1..], less, key);
    assert forall i :: 1 <= i < |s| ==> s[i] == s[1..][i - 1];
  }

  /** `max(by:)` under a key comparator: a member with the greatest key. */
  lemma MaxByGreatest<T(!new)>(s: seq<T>, less: (T, T) -> bool, key: T -> real)
    requires ComparesKey(less, key) && s != []
    ensures MaxBy(s, less).Some?
    ensures forall i :: 0 <= i < |s| ==> key(MaxBy(s, less).value) >= key(s[i])
  {
    FoldMaxGreatest(s[0], s[1..], less, key);
    assert forall i :: 1 <= i < |s| ==> s[i] == s[1..][i - 1];
  }

  /**
   * An element that beats every other one, and is beaten by none, is what
   * the fold ends on, whatever the comparator does elsewhere.
   */
  lemma {:induction false} FoldMinDominant<T(!new)>(acc: T, rest: seq<T>, less: (T, T) -> bool, m: T)
    requires m == acc || m in rest
    requires forall e :: (e == acc || e in rest) && e != m ==> less(m, e) && !less(e, m)
    ensures FoldMin(acc, rest, less) == m
    decreases |rest|
  {
    if rest != [] {
      var next := if less(rest[0], acc) then rest[0] else acc;
      assert forall e :: e in rest[1..] ==> e in rest;
      if m == acc && m != rest[0] {
        assert next == m;
      } else if m == rest[0] {
        assert next == m;
      } else {
        assert m in rest[1..];
      }
      FoldMinDominant(next, rest[1..], less, m);
    }
  }

  /** `min(by:)` returns a dominating element when there is one. */
  lemma MinByDominant<T(!new)>(s: seq<T>, less: (T, T) -> bool, m: T)
    requires m in s
    requires forall e :: e in s && e != m ==> less(m, e) && !less(e, m)
    ensures MinBy(s, less) == Some(m)
  {
    assert s == [s[0]] + s[1..];
    assert forall e :: e in s[1..] ==> e in s;
    FoldMinDominant(s[0], s[1..], less, m);
  }

  /** A running result whose key no later element undercuts survives the fold. */
  lemma {:induction false} FoldMinKeepsLeast<T(!new)>(acc: T, rest: seq<T>, less: (T, T) -> bool, key: T -> real)
    requires ComparesKey(less, key)
    requires forall i :: 0 <= i < |rest| ==> key(acc) <= key(rest[i])
    ensures FoldMin(acc, rest, less) == acc
    decreases |rest|
  {
    if rest != [] {
      assert !less(rest[0], acc);
      FoldMinKeepsLeast(acc, rest[1..], less, key);
    }
  }

  /** The fold ends on the first element of least key when that key is below the running result's. */
  lemma {:induction false} FoldMinReachesFirstLeast<T(!new)>(acc: T, rest: seq<T>, less: (T, T) -> bool, key: T -> real, k: nat)
    requires ComparesKey(less, key) && k < |rest|
    requires key(rest[k]) < key(acc)
    requires forall i :: 0 <= i < |rest| ==> key(rest[k]) <= key(rest[i])
    requires forall i :: 0 <= i < k ==> key(rest[k]) < key(rest[i])
    ensures FoldMin(acc, rest, less) == rest[k]
    decreases |rest|
  {
    var next := if less(rest[0], acc) then rest[0] else acc;
    if k == 0 {
      FoldMinKeepsLeast(next, rest[1..], less, key);
    } else {
      FoldMinReachesFirstLeast(next, rest[1..], less, key, k - 1);
    }
  }

  /** `min(by:)` under a key comparator returns the first element of least key. */
  lemma MinByFirstLeast<T(!new)>(s: seq<T>, less: (T, T) -> bool, key: T -> real, k: nat)
    requires ComparesKey(less, key) && k < |s|
    requires forall i :: 0 <= i < |s| ==> key(s[k]) <= key(s[i])
    requires forall i :: 0 <= i < k ==> key(s[k]) < key(s[i])
    ensures MinBy(s, less) == Some(s[k])
  {
    if k == 0 {
      FoldMinKeepsLeast(s[0], s[1..], less, key);
    } else {
      FoldMinReachesFirstLeast(s[0], s[1..], less, key, k - 1);
    }
  }

  /** A running result whose key no later element exceeds survives the fold. */
  lemma {:induction false} FoldMaxKeepsGreatest<T(!new)>(acc: T, rest: seq<T>, less: (T, T) -> bool, key: T -> real)
    requires ComparesKey(less, key)
    requires forall i :: 0 <= i < |rest| ==> key(rest[i]) <= key(acc)
    ensures FoldMax(acc, rest, less) == acc
    decreases |rest|
  {
    if rest != [] {
      assert !less(acc, rest[0]);
      FoldMaxKeepsGreatest(acc, rest[1..], less, key);
    }
  }

  /** The fold ends on the first element of greatest key when that key is above the running result's. */
  lemma {:induction false} FoldMaxReachesFirstGreatest<T(!new)>(acc: T, rest: seq<T>, less: (T, T) -> bool, key: T -> real, k: nat)
    requires ComparesKey(less, key) && k < |rest|
    requires key(acc) < key(rest[k])
    requires forall i :: 0 <= i < |rest| ==> key(rest[i]) <= key(rest[k])
    requires forall i :: 0 <= i < k ==> key(rest[i]) < key(rest[k])
    ensures FoldMax(acc, rest, less) == rest[k]
    decreases |rest|
  {
    var next := if less(acc, rest[0]) then rest[0] else acc;
    if k == 0 {
      FoldMaxKeepsGreatest(next, rest[1..], less, key);
    } else {
      FoldMaxReachesFirstGreatest(next, rest[1..], less, key, k - 1);
    }
  }

  /** `max(by:)` under a key comparator returns the first element of greatest key. */
  lemma MaxByFirstGreatest<T(!new)>(s: seq<T>, less: (T, T) -> bool, key: T -> real, k: nat)
    requires ComparesKey(less, key) && k < |s|
    requires forall i :: 0 <= i < |s| ==> key(s[i]) <= key(s[k])
    requires forall i :: 0 <= i < k ==> key(s[i]) < key(s[k])
    ensures MaxBy(s, less) == Some(s[k])
  {
    if k == 0 {
      FoldMaxKeepsGreatest(s[0], s[1..], less, key);
    } else {
      FoldMaxReachesFirstGreatest(s[0], s[1..], less, key, k - 1);
    }
  }
}
