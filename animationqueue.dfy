/**
 * `AnimationQueue`: the static stack of queues that collects the containers
 * created between `begin()` and `commit()`.  Each queue keeps the
 * containers enqueued into it and a link to the queue below it.  The
 * layer-action swizzle is installed when the stack becomes non-empty and
 * removed when it empties again.
 *
 * The model is generic in the container type; whether a container is
 * still executing is a parameter, and `enqueue` returns the container the
 * new one is to be nested inside instead of calling `nest(inside:)`.
 */
module AnimationQueues {
  import opened Wrappers

  datatype QueueFrame<C> = QueueFrame(backingQueue: seq<C>, previousQueue: Option<nat>)

  /** `prepare()` installs the swizzled layer action, `cleanup()` removes it. */
  datatype Swizzle = Prepare | Cleanup

  /** Every queue's `previousQueue` is the queue just below it. */
  ghost predicate Linked<C>(stack: seq<QueueFrame<C>>) {
    forall i :: 0 <= i < |stack| ==> stack[i].previousQueue == if i == 0 then None else Some(i - 1)
  }

  /** The swizzles so far: prepare, cleanup, prepare, … */
  ghost predicate Alternating(swizzles: seq<Swizzle>) {
    forall i :: 0 <= i < |swizzles| ==> swizzles[i] == if i % 2 == 0 then Prepare else Cleanup
  }

  /** `parentIsExecuting`: the queue's first container exists and is executing. */
  predicate HeadExecuting<C>(q: QueueFrame<C>, executing: C -> bool) {
    |q.backingQueue| > 0 && executing(q.backingQueue[0])
  }

  /**
   * `parentAnimation` of queue i: its first container if that is
   * executing, else the parent of the queue below.  It is nil exactly when
   * no queue at or below i has an executing first container.
   */
  function ParentAnimation<C>(stack: seq<QueueFrame<C>>, i: nat, executing: C -> bool): (r: Option<C>)
    requires Linked(stack) && i < |stack|
    ensures r.None? <==> forall j :: 0 <= j <= i ==> !HeadExecuting(stack[j], executing)
    ensures r.Some? ==> executing(r.value)
    decreases i
  {
    var q := stack[i];
    if HeadExecuting(q, executing) then Some(q.backingQueue[0])
    else
      match q.previousQueue
      case None => None
      case Some(below) => ParentAnimation(stack, below, executing)
  }

  /**
   * The parent animation is the executing first container of the nearest
   * queue at or below i that has one.
   */
  lemma {:induction false} ParentIsNearestExecutingHead<C>(stack: seq<QueueFrame<C>>, i: nat, j: nat, executing: C -> bool)
    requires Linked(stack) && j <= i < |stack|
    requires HeadExecuting(stack[j], executing)
    requires forall k :: j < k <= i ==> !HeadExecuting(stack[k], executing)
    ensures ParentAnimation(stack, i, executing) == Some(stack[j].backingQueue[0])
    decreases i
  {
    if j < i {
      assert stack[i].previousQueue == Some(i - 1);
      ParentIsNearestExecutingHead(stack, i - 1, j, executing);
    }
  }

  /** A parent animation is the first container of some queue at or below i. */
  lemma {:induction false} ParentIsQueued<C>(stack: seq<QueueFrame<C>>, i: nat, executing: C -> bool)
    requires Linked(stack) && i < |stack| && ParentAnimation(stack, i, executing).Some?
    ensures exists j ::
      0 <= j <= i && |stack[j].backingQueue| > 0 && ParentAnimation(stack, i, executing).value == stack[j].backingQueue[0]
    decreases i
  {
    if !HeadExecuting(stack[i], executing) {
      assert stack[i].previousQueue == Some(i - 1);
      ParentIsQueued(stack, i - 1, executing);
    }
  }

  /** `currentAnimation`: the queue's last container, if it is executing. */
  function CurrentAnimation<C>(q: QueueFrame<C>, executing: C -> bool): Option<C> {
    if |q.backingQueue| > 0 && executing(q.backingQueue[|q.backingQueue| - 1]) then Some(q.backingQueue[|q.backingQueue| - 1])
    else None
  }

  /**
   * `enclosingAnimation()`: nothing while an explicitly called animation
   * block reports an inherited duration, otherwise the top queue's current
   * animation, or failing that its parent animation.
   */
  function EnclosingAnimation<C>(inheritedDuration: real, stack: seq<QueueFrame<C>>, executing: C -> bool): Option<C>
    requires Linked(stack)
  {
    if inheritedDuration != 0.0 || stack == [] then None
    else
      match CurrentAnimation(stack[|stack| - 1], executing)
      case Some(c) => Some(c)
      case None => ParentAnimation(stack, |stack| - 1, executing)
  }

  /**
   * The enclosing animation is always an executing container of some queue;
   * it is the top queue's last container whenever that one executes.
   */
  lemma EnclosingIsQueuedAndExecuting<C>(inheritedDuration: real, stack: seq<QueueFrame<C>>, executing: C -> bool)
    requires Linked(stack)
    ensures var r := EnclosingAnimation(inheritedDuration, stack, executing);
      r.Some? ==> executing(r.value) && exists j :: 0 <= j < |stack| && r.value in stack[j].backingQueue
    ensures inheritedDuration == 0.0 && stack != [] && CurrentAnimation(stack[|stack| - 1], executing).Some? ==>
      EnclosingAnimation(inheritedDuration, stack, executing) == CurrentAnimation(stack[|stack| - 1], executing)
    ensures inheritedDuration != 0.0 ==> EnclosingAnimation(inheritedDuration, stack, executing).None?
  {
    var r := EnclosingAnimation(inheritedDuration, stack, executing);
    if r.Some? {
      var top := |stack| - 1;
      var q := stack[top];
      if CurrentAnimation(q, executing).Some? {
        assert r.value == q.backingQueue[|q.backingQueue| - 1];
      } else {
        ParentIsQueued(stack, top, executing);
        var j :| 0 <= j <= top && |stack[j].backingQueue| > 0 && r.value == stack[j].backingQueue[0];
        assert r.value in stack[j].backingQueue;
      }
    }
  }

  class AnimationQueueStack<C> {
    var queueStack: seq<QueueFrame<C>>
    var swizzles: seq<Swizzle>

    /** The queues are linked, and the swizzle is installed exactly while some queue is open. */
    ghost predicate Valid()
      reads this
    {
      Linked(queueStack) && Alternating(swizzles) && (|swizzles| % 2 == 1 <==> queueStack != [])
    }

    constructor()
      ensures Valid() && queueStack == [] && swizzles == []
    {
      queueStack := [];
      swizzles := [];
    }

    /** `begin()`: prepare on an empty stack, then push a new queue linked to the old top. */
    method Begin()
      requires Valid()
      modifies this
      ensures Valid()
      ensures queueStack == old(queueStack) + [QueueFrame([], if old(queueStack) == [] then None else Some(|old(queueStack)| - 1))]
      ensures swizzles == old(swizzles) + if old(queueStack) == [] then [Prepare] else []
    {
      if queueStack == [] {
        swizzles := swizzles + [Prepare];
      }
      var newQueue := QueueFrame([], if queueStack == [] then None else Some(|queueStack| - 1));
      queueStack := queueStack + [newQueue];
    }

    /**
     * `enqueue(_:)`: a fatal error without a queue, or for a keyframe
     * container into an empty queue; otherwise the container joins the end
     * of the top queue, and is to be nested inside that queue's parent
     * animation.
     */
    method Enqueue(animation: C, isRegular: bool, executing: C -> bool) returns (nestTarget: Option<C>)
      requires Valid() && queueStack != []
      requires isRegular || queueStack[|queueStack| - 1].backingQueue != []
      modifies this
      ensures Valid() && swizzles == old(swizzles)
      ensures var top := old(queueStack[|queueStack| - 1]);
        queueStack == old(queueStack)[|old(queueStack)| - 1 := top.(backingQueue := top.backingQueue + [animation])]
      ensures nestTarget == ParentAnimation(queueStack, |queueStack| - 1, executing)
    {
      var top := queueStack[|queueStack| - 1];
      queueStack := queueStack[|queueStack| - 1 := top.(backingQueue := top.backingQueue + [animation])];
      nestTarget := ParentAnimation(queueStack, |queueStack| - 1, executing);
    }

    /**
     * `commit()`: the top queue's containers execute their animations in
     * order, the queue is popped (a trap on an empty stack), and an emptied
     * stack is cleaned up.
     */
    method Commit() returns (executed: seq<C>)
      requires Valid() && queueStack != []
      modifies this
      ensures Valid()
      ensures executed == old(queueStack[|queueStack| - 1].backingQueue)
      ensures queueStack == old(queueStack[..|queueStack| - 1])
      ensures swizzles == old(swizzles) + if queueStack == [] then [Cleanup] else []
    {
      executed := queueStack[|queueStack| - 1].backingQueue;
      queueStack := queueStack[..|queueStack| - 1];
      if queueStack == [] {
        swizzles := swizzles + [Cleanup];
      }
    }
  }

  /** The swizzle last applied is `prepare` exactly while a queue is open, and the two never repeat. */
  lemma {:induction false} SwizzleBalanced(queueStack: seq<QueueFrame<int>>, swizzles: seq<Swizzle>)
    requires Alternating(swizzles) && (|swizzles| % 2 == 1 <==> queueStack != [])
    ensures queueStack != [] <==> |swizzles| > 0 && swizzles[|swizzles| - 1] == Prepare
    ensures forall i :: 0 <= i < |swizzles| - 1 ==> swizzles[i] != swizzles[i + 1]
  {
    forall i | 0 <= i < |swizzles| - 1
      ensures swizzles[i] != swizzles[i + 1]
    {
      assert (i + 1) % 2 != i % 2;
    }
  }

  /** A container enqueued into an empty queue while executing is its own nest target. */
  lemma FirstEnqueuedNestsInItself<C>(stack: seq<QueueFrame<C>>, animation: C, executing: C -> bool)
    requires Linked(stack) && stack != [] && stack[|stack| - 1].backingQueue == [animation] && executing(animation)
    ensures ParentAnimation(stack, |stack| - 1, executing) == Some(animation)
  {
  }

  /**
   * A begin/enqueue/commit round on an empty stack executes exactly the
   * enqueued container, leaves the stack empty, and prepares and cleans
   * up once each.
   */
  method Round<C>(q: AnimationQueueStack<C>, animation: C, executing: C -> bool) returns (executed: seq<C>)
    requires q.Valid() && q.queueStack == []
    modifies q
    ensures q.Valid() && q.queueStack == [] && executed == [animation]
    ensures q.swizzles == old(q.swizzles) + [Prepare, Cleanup]
  {
    q.Begin();
    var _ := q.Enqueue(animation, true, executing);
    executed := q.Commit();
  }
}
