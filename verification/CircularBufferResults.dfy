/** What the ring buffer's operations return, and what they make of the elements, with the elements and the
    capacity written out. */
module CircularBufferResults {
  import opened Options
  import opened LightweightSemaphores
  import opened CircularBuffers
  import opened CircularBufferRuns
  import opened CircularBufferProgress

  // ---------------------------------------------------------------------------------------------
  // One step

  /** The elements are only ever added to, and taken out in the order in which they were added: one at a time,
      when there is room for it or an element left. */
  lemma ElementsOfStep<T>(s: State<T>, a: Action<T>)
    requires Inv(s)
    ensures var t := Step(s, a).0;
            && (t.enqueued == s.enqueued
                || (s.p.Signalling? && |s.enqueued| - |s.dequeued| < s.maxcap && t.enqueued == s.enqueued + [s.p.x]))
            && (t.dequeued == s.dequeued
                || (|s.dequeued| < |s.enqueued| && t.dequeued == s.dequeued + [s.enqueued[|s.dequeued|]]))
            && 0 <= |t.enqueued| - |t.dequeued| <= t.maxcap == s.maxcap
  {
    StepRefines(s, a);
    match a
    case ProducerMove(take) => ProducerElements(s, take);
    case ConsumerMove(take) => ConsumerElements(s, take);
    case _ =>
  }

  lemma ProducerElements<T>(s: State<T>, take: bool)
    requires Inv(s)
    ensures var t := ProducerStep(s, take).0;
            && t.dequeued == s.dequeued
            && (t.enqueued == s.enqueued
                || (s.p.Signalling? && |s.enqueued| - |s.dequeued| < s.maxcap && t.enqueued == s.enqueued + [s.p.x]))
  {
    ProducerAdds(s, take);
    if s.p.Signalling? { SlotHeld(s); }
  }

  lemma ProducerAdds<T>(s: State<T>, take: bool)
    ensures var t := ProducerStep(s, take).0;
            && t.dequeued == s.dequeued
            && (t.enqueued == s.enqueued || (s.p.Signalling? && t.enqueued == s.enqueued + [s.p.x]))
  {
  }

  lemma ConsumerTakes<T>(s: State<T>, take: bool)
    ensures var t := ConsumerStep(s, take).0;
            && t.enqueued == s.enqueued
            && (t.dequeued == s.dequeued || (s.c.Releasing? && t.dequeued == s.dequeued + [s.c.v]))
  {
  }

  lemma SlotHeld<T>(s: State<T>)
    requires Permits(s) && s.p.Signalling?
    ensures |s.enqueued| - |s.dequeued| < s.maxcap
  {
  }

  lemma ItemHeld<T>(s: State<T>)
    requires Permits(s) && Contents(s) && s.c.Releasing?
    ensures |s.dequeued| < |s.enqueued| && s.c.v == s.enqueued[|s.dequeued|]
  {
  }

  lemma ConsumerElements<T>(s: State<T>, take: bool)
    requires Inv(s)
    ensures var t := ConsumerStep(s, take).0;
            && t.enqueued == s.enqueued
            && (t.dequeued == s.dequeued
                || (|s.dequeued| < |s.enqueued| && t.dequeued == s.dequeued + [s.enqueued[|s.dequeued|]]))
  {
    ConsumerTakes(s, take);
    if s.c.Releasing? { ItemHeld(s); }
  }

  /** An enqueue returns false only at a moment at which the buffer holds as many elements as it can. */
  lemma FalseMeansFull<T>(s: State<T>, a: Action<T>)
    requires Inv(s) && s.p != Finished(false) && Step(s, a).0.p == Finished(false)
    ensures |s.enqueued| - |s.dequeued| == s.maxcap
  {
    SlotDenied(s, a);
  }

  lemma SlotDenied<T>(s: State<T>, a: Action<T>)
    requires Permits(s) && s.p != Finished(false) && Step(s, a).0.p == Finished(false)
    ensures |s.enqueued| - |s.dequeued| == s.maxcap
  {
    if s.p.Acquiring? && a.ProducerMove? {
      WaiterStepAccounted(s.slots, s.p.w, s.c.Waking?, s.maxcap - (|s.enqueued| - |s.dequeued|), a.take);
    }
  }

  /** A dequeue, pop or peek comes back empty-handed only at a moment at which the buffer is empty. */
  lemma NoneMeansEmpty<T>(s: State<T>, a: Action<T>)
    requires Inv(s) && s.c != Completed(None) && Step(s, a).0.c == Completed(None)
    ensures |s.enqueued| == |s.dequeued|
  {
    ItemDenied(s, a);
  }

  lemma ItemDenied<T>(s: State<T>, a: Action<T>)
    requires Permits(s) && s.c != Completed(None) && Step(s, a).0.c == Completed(None)
    ensures |s.enqueued| == |s.dequeued|
  {
    if s.c.Obtaining? && a.ConsumerMove? {
      WaiterStepAccounted(s.items, s.c.w, s.p.Posting?, |s.enqueued| - |s.dequeued|, a.take);
    }
  }

  // ---------------------------------------------------------------------------------------------
  // One call

  /** How far an enqueue of `x` has come that found the elements `before`. */
  predicate Enqueuing<T(==)>(p: Producer<T>, enqueued: seq<T>, before: seq<T>, x: T) {
    match p
    case Resting => false
    case Acquiring(_, y, _) => y == x && enqueued == before
    case Claiming(y) => y == x && enqueued == before
    case Constructing(y, _) => y == x && enqueued == before
    case Signalling(y) => y == x && enqueued == before
    case Posting => enqueued == before + [x]
    case Finished(ok) => enqueued == if ok then before + [x] else before
  }

  lemma {:induction false} EnqueuingRuns<T>(s: State<T>, before: seq<T>, x: T, acts: seq<Action<T>>)
    requires Enqueuing(s.p, s.enqueued, before, x) && NoEnqueueCall(acts)
    ensures var t := Exec(s, acts); Enqueuing(t.p, t.enqueued, before, x)
    decreases |acts|
  {
    if acts != [] {
      EnqueuingStep(s, before, x, acts[0]);
      EnqueuingRuns(Step(s, acts[0]).0, before, x, acts[1..]);
    }
  }

  lemma EnqueuingStep<T>(s: State<T>, before: seq<T>, x: T, a: Action<T>)
    requires Enqueuing(s.p, s.enqueued, before, x) && !a.CallEnqueue?
    ensures var t := Step(s, a).0; Enqueuing(t.p, t.enqueued, before, x)
  {
  }

  /** An enqueue that has returned true has added its element, once, to those that were there when it was
      called; one that has returned false, or has not come to that yet, has added nothing. */
  lemma EnqueueAppends<T>(s: State<T>, op: EnqueueOp, x: T, acts: seq<Action<T>>)
    requires !s.fault && (s.p.Resting? || s.p.Finished?) && NoEnqueueCall(acts)
    ensures var t := Exec(Step(s, CallEnqueue(op, x)).0, acts);
            && (t.p == Finished(true) ==> t.enqueued == s.enqueued + [x])
            && (t.p == Finished(false) ==> t.enqueued == s.enqueued)
            && (t.enqueued == s.enqueued + [x] || t.enqueued == s.enqueued)
  {
    EnqueuingRuns(Step(s, CallEnqueue(op, x)).0, s.enqueued, x, acts);
  }

  /** How far a consumer call has come that found the elements `before` taken out. */
  predicate Dequeuing<T(==)>(c: Consumer<T>, dequeued: seq<T>, before: seq<T>) {
    match c
    case Waking(v) => dequeued == before + [v]
    case Completed(Some(v)) => dequeued == before + [v]
    case Idling | PeekLoad | PeekRead => false
    case _ => dequeued == before
  }

  lemma {:induction false} DequeuingRuns<T>(s: State<T>, before: seq<T>, acts: seq<Action<T>>)
    requires Dequeuing(s.c, s.dequeued, before) && NoDequeueCall(acts)
    ensures var t := Exec(s, acts); Dequeuing(t.c, t.dequeued, before)
    decreases |acts|
  {
    if acts != [] {
      DequeuingStep(s, before, acts[0]);
      DequeuingRuns(Step(s, acts[0]).0, before, acts[1..]);
    }
  }

  lemma DequeuingStep<T>(s: State<T>, before: seq<T>, a: Action<T>)
    requires Dequeuing(s.c, s.dequeued, before) && !a.CallDequeue? && !a.CallPeek?
    ensures var t := Step(s, a).0; Dequeuing(t.c, t.dequeued, before)
  {
  }

  lemma TakenIsNext<T>(t: State<T>, before: seq<T>, v: T)
    requires Contents(t) && t.dequeued == before + [v]
    ensures |before| < |t.enqueued| && v == t.enqueued[|before|]
  {
    assert t.dequeued[|before|] == v;
  }

  /** A dequeue or pop that has returned an element has taken that one out, which is the first of those added
      that had not been taken out when it was called; one that has returned nothing has taken nothing out. */
  lemma DequeueTakesNext<T>(s: State<T>, op: DequeueOp, acts: seq<Action<T>>)
    requires Inv(s) && (s.c.Idling? || s.c.Completed?) && NoDequeueCall(acts)
    ensures var t := Exec(Step(s, CallDequeue(op)).0, acts);
            && (t.c.Completed? && t.c.result.Some? ==>
                  && t.dequeued == s.dequeued + [t.c.result.value]
                  && |s.dequeued| < |t.enqueued| && t.c.result.value == t.enqueued[|s.dequeued|])
            && (t.c == Completed(None) ==> t.dequeued == s.dequeued)
  {
    var b := Step(s, CallDequeue(op)).0;
    StepRefines(s, CallDequeue(op));
    CircularBufferRuns.RunInv(b, acts);
    DequeuingRuns(b, s.dequeued, acts);
    var t := Exec(b, acts);
    if t.c.Completed? && t.c.result.Some? { TakenIsNext(t, s.dequeued, t.c.result.value); }
  }

  /** How far a peek has come. */
  predicate Peeking<T(==)>(c: Consumer<T>, enqueued: seq<T>, dequeued: seq<T>, before: seq<T>) {
    dequeued == before
    && match c
       case PeekLoad | PeekRead | Completed(None) => true
       case Completed(Some(v)) => |before| < |enqueued| && v == enqueued[|before|]
       case _ => false
  }

  lemma PeekingStep<T>(s: State<T>, before: seq<T>, a: Action<T>)
    requires Inv(s) && Peeking(s.c, s.enqueued, s.dequeued, before) && !a.CallDequeue? && !a.CallPeek?
    ensures var t := Step(s, a).0; Peeking(t.c, t.enqueued, t.dequeued, before)
  {
    if a.ProducerMove? { ProducerElements(s, a.take); }
    if a.ConsumerMove? && s.c.PeekRead? { PeekEffect(s, a.take); }
  }

  lemma {:induction false} PeekingRuns<T>(s: State<T>, before: seq<T>, acts: seq<Action<T>>)
    requires Inv(s) && Peeking(s.c, s.enqueued, s.dequeued, before) && NoDequeueCall(acts)
    ensures var t := Exec(s, acts); Peeking(t.c, t.enqueued, t.dequeued, before)
    decreases |acts|
  {
    if acts != [] {
      StepRefines(s, acts[0]);
      PeekingStep(s, before, acts[0]);
      PeekingRuns(Step(s, acts[0]).0, before, acts[1..]);
    }
  }

  /** A peek takes nothing out, and what it returns is the element that a dequeue would take out. */
  lemma PeekShowsNext<T>(s: State<T>, acts: seq<Action<T>>)
    requires Inv(s) && (s.c.Idling? || s.c.Completed?) && NoDequeueCall(acts)
    ensures var t := Exec(Step(s, CallPeek).0, acts);
            && t.dequeued == s.dequeued
            && (t.c.Completed? && t.c.result.Some? ==>
                  |s.dequeued| < |t.enqueued| && t.c.result.value == t.enqueued[|s.dequeued|])
  {
    StepRefines(s, CallPeek);
    PeekingRuns(Step(s, CallPeek).0, s.dequeued, acts);
  }

  // ---------------------------------------------------------------------------------------------
  // What is there is found

  /** A consumer that is in no call has no post for it pending, and the count is the number of elements. */
  lemma NoPostPending<T>(s: State<T>)
    requires Inv(s) && (s.c.Idling? || s.c.Completed?)
    ensures !s.p.Posting? && s.items.count == |s.enqueued| - |s.dequeued|
  {
  }

  lemma NoWakePending<T>(s: State<T>)
    requires Inv(s) && (s.p.Resting? || s.p.Finished?)
    ensures !s.c.Waking? && s.slots.count == s.maxcap - (|s.enqueued| - |s.dequeued|)
  {
  }

  lemma HasResult<T>(c: Consumer<T>)
    requires c.Completed? && c != Completed(None)
    ensures c.result.Some? && c == Completed(Some(c.result.value))
  {
  }

  /** Any dequeue or pop that is called while an element is in the buffer returns the oldest one, within eight
      steps of its own, if the kernel lets its waits succeed. */
  lemma DequeueFinds<T>(s: State<T>, op: DequeueOp, acts: seq<Action<T>>)
    requires Inv(s) && (s.c.Idling? || s.c.Completed?) && |s.dequeued| < |s.enqueued|
    requires NoDequeueCall(acts) && Willing(acts) && ConsumerMoves(acts) >= 8
    ensures var t := Exec(Step(s, CallDequeue(op)).0, acts);
            && |s.dequeued| < |t.enqueued|
            && t.c == Completed(Some(t.enqueued[|s.dequeued|]))
            && t.dequeued == s.dequeued + [t.enqueued[|s.dequeued|]]
  {
    NoPostPending(s);
    StepRefines(s, CallDequeue(op));
    DequeueRuns(Step(s, CallDequeue(op)).0, acts);
    HasResult(Exec(Step(s, CallDequeue(op)).0, acts).c);
    DequeueTakesNext(s, op, acts);
  }

  /** Any enqueue that is called while there is room returns true within seven steps of its own, likewise, and
      has added its element. */
  lemma EnqueueFinds<T>(s: State<T>, op: EnqueueOp, x: T, acts: seq<Action<T>>)
    requires Inv(s) && (s.p.Resting? || s.p.Finished?) && |s.enqueued| - |s.dequeued| < s.maxcap
    requires NoEnqueueCall(acts) && ProducerWilling(acts) && ProducerMoves(acts) >= 7
    ensures var t := Exec(Step(s, CallEnqueue(op, x)).0, acts);
            t.p == Finished(true) && t.enqueued == s.enqueued + [x]
  {
    NoWakePending(s);
    StepRefines(s, CallEnqueue(op, x));
    EnqueueRuns(Step(s, CallEnqueue(op, x)).0, acts);
    EnqueueAppends(s, op, x, acts);
  }

  /** A peek at a buffer with an element in it is on its way to it. */
  predicate Finding<T>(s: State<T>) {
    |s.dequeued| < |s.enqueued| && (s.c.PeekLoad? || s.c.PeekRead? || (s.c.Completed? && s.c.result.Some?))
  }

  lemma FindingStep<T>(s: State<T>, a: Action<T>)
    requires Inv(s) && Finding(s) && !a.CallDequeue? && !a.CallPeek?
    ensures var t := Step(s, a).0;
            Finding(t) && TryDequeueRank(t.c) <= TryDequeueRank(s.c)
            && (a.ConsumerMove? && !s.c.Completed? ==> TryDequeueRank(t.c) < TryDequeueRank(s.c))
  {
    if a.ConsumerMove? {
      if s.c.PeekLoad? { PeekSees(s); }
      if s.c.PeekRead? { PeekEffect(s, a.take); }
    } else {
      OthersKeepConsumer(s, a);
      ElementsOfStep(s, a);
    }
  }

  lemma {:induction false} FindingRuns<T>(s: State<T>, acts: seq<Action<T>>)
    requires Inv(s) && Finding(s) && NoDequeueCall(acts) && ConsumerMoves(acts) >= TryDequeueRank(s.c)
    ensures Exec(s, acts).c.Completed? && Exec(s, acts).c.result.Some?
    decreases |acts|
  {
    if acts != [] {
      StepRefines(s, acts[0]);
      FindingStep(s, acts[0]);
      FindingRuns(Step(s, acts[0]).0, acts[1..]);
    }
  }

  /** A peek that is called while an element is in the buffer returns it within two steps of its own; on an empty
      buffer it returns nothing, if the producer adds nothing before its first step. */
  lemma PeekFinds<T>(s: State<T>, acts: seq<Action<T>>, take: bool)
    requires Inv(s) && (s.c.Idling? || s.c.Completed?) && NoDequeueCall(acts) && ConsumerMoves(acts) >= 2
    ensures |s.dequeued| < |s.enqueued| ==>
              var t := Exec(Step(s, CallPeek).0, acts);
              |s.dequeued| < |t.enqueued| && t.c == Completed(Some(t.enqueued[|s.dequeued|]))
    ensures |s.dequeued| == |s.enqueued| ==>
              Step(Step(s, CallPeek).0, ConsumerMove(take)).0.c == Completed(None)
  {
    if |s.dequeued| < |s.enqueued| {
      PeekFindsNext(s, acts);
    } else {
      NoPostPending(s);
      PeekFindsNone(s, take);
    }
  }

  lemma PeekFindsNone<T>(s: State<T>, take: bool)
    requires !s.fault && (s.c.Idling? || s.c.Completed?) && s.items.count <= 0
    ensures Step(Step(s, CallPeek).0, ConsumerMove(take)).0.c == Completed(None)
  {
  }

  lemma PeekFindsNext<T>(s: State<T>, acts: seq<Action<T>>)
    requires Inv(s) && (s.c.Idling? || s.c.Completed?) && NoDequeueCall(acts) && ConsumerMoves(acts) >= 2
    requires |s.dequeued| < |s.enqueued|
    ensures var t := Exec(Step(s, CallPeek).0, acts);
            |s.dequeued| < |t.enqueued| && t.c == Completed(Some(t.enqueued[|s.dequeued|]))
  {
    var b := Step(s, CallPeek).0;
    StepRefines(s, CallPeek);
    FindingRuns(b, acts);
    PeekShowsNext(s, acts);
    HasResult(Exec(b, acts).c);
  }
}
