/**
 * `LayerValueProvider`: the start value a property had when an animation
 * captured it, and the end value it is committed to, read once.  The
 * provider function is not called by the model; each call's result is a
 * parameter.
 */
module LayerValueProviders {

  class LayerValueProvider<T> {
    const start: T
    var end: T
    var shouldCommit: bool

    /** Before the commit the end value is still the start value. */
    ghost predicate Valid()
      reads this
    {
      shouldCommit ==> end == start
    }

    /** `init(valueProvider:)`, given the provider's one result. */
    constructor(provided: T)
      ensures Valid() && start == provided && end == provided && shouldCommit
    {
      start := provided;
      end := start;
      shouldCommit := true;
    }

    /** `commitValues()`, given what the provider returns now: only the first call takes it. */
    method CommitValues(provided: T)
      requires Valid()
      modifies this
      ensures Valid() && !shouldCommit
      ensures end == if old(shouldCommit) then provided else old(end)
    {
      if !shouldCommit {
        return;
      }
      shouldCommit := false;
      end := provided;
    }
  }

  /** Only the first commit counts: the end value is the first provided value, and the start value is a constant. */
  method CommitTwice<T>(provider: LayerValueProvider<T>, first: T, second: T)
    requires provider.Valid() && provider.shouldCommit
    modifies provider
    ensures provider.end == first && !provider.shouldCommit
  {
    provider.CommitValues(first);
    provider.CommitValues(second);
  }
}
