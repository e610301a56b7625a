/** Progress of the ring buffer's operations: how many steps of its own thread a call takes, whatever the
    other thread does in between. */
module CircularBufferProgress {
  import opened Options
  import opened Words
  import opened LightweightSemaphores
  import opened CircularBuffers
  import opened CircularBufferRuns

  /** The steps of the producer's thread in a run, and those of the consumer's. */
  function ProducerMoves<T>(acts: seq<Action<T>>): nat {
    if acts == [] then 0 else (if acts[0].ProducerMove? then 1 else 0) + ProducerMoves(acts[1..])
  }

  function ConsumerMoves<T>(acts: seq<Action<T>>): nat {
    if acts == [] then 0 else (if acts[0].ConsumerMove? then 1 else 0) + ConsumerMoves(acts[1..])
  }

  // ---------------------------------------------------------------------------------------------
  // The operations that do not wait

  /** An upper bound on the steps that a try_enqueue has still to take. */
  function TryEnqueueRank<T>(p: Producer<T>): nat {
    match p
    case Acquiring(_, _, w) => if w.TryLoad? then 6 else 5
    case Claiming(_) => 4
    case Constructing(_, _) => 3
    case Signalling(_) => 2
    case Posting => 1
    case _ => 0
  }

  /** A call of try_enqueue under way, or returned. */
  predicate TryingEnqueue<T>(p: Producer<T>) {
    && p != Resting
    && (p.Acquiring? ==> p.op == TryEnqueue && (p.w == TryLoad(Try) || p.w == TryTake))
  }

  lemma ProducerControl<T>(s: State<T>, take: bool)
    requires !ProducerStep(s, take).0.fault && !s.p.Acquiring? && s.p != Resting
    ensures var p := ProducerStep(s, take).0.p; !p.Acquiring? && p != Resting
    ensures !s.fault && !s.p.Finished? ==> TryEnqueueRank(ProducerStep(s, take).0.p) < TryEnqueueRank(s.p)
  {
  }

  lemma ProducerTries<T>(s: State<T>, take: bool)
    requires TryingEnqueue(s.p) && s.p.Acquiring?
    ensures var p := ProducerStep(s, take).0.p; TryingEnqueue(p) && TryEnqueueRank(p) < TryEnqueueRank(s.p)
  {
  }

  lemma ProducerTrying<T>(s: State<T>, take: bool)
    requires Inv(s) && TryingEnqueue(s.p)
    ensures var p := ProducerStep(s, take).0.p;
            && TryingEnqueue(p) && TryEnqueueRank(p) <= TryEnqueueRank(s.p)
            && (!s.p.Finished? ==> TryEnqueueRank(p) < TryEnqueueRank(s.p))
  {
    ProducerRefines(s, take);
    if s.p.Acquiring? { ProducerTries(s, take); } else { ProducerControl(s, take); }
  }

  lemma OthersKeepProducer<T>(s: State<T>, a: Action<T>)
    requires a.ConsumerMove? || a.CallDequeue? || a.CallPeek?
    ensures Step(s, a).0.p == s.p
  {
  }

  lemma TryEnqueueStep<T>(s: State<T>, a: Action<T>)
    requires Inv(s) && TryingEnqueue(s.p) && !a.CallEnqueue?
    ensures var t := Step(s, a).0;
            && TryingEnqueue(t.p) && TryEnqueueRank(t.p) <= TryEnqueueRank(s.p)
            && (a.ProducerMove? && !s.p.Finished? ==> TryEnqueueRank(t.p) < TryEnqueueRank(s.p))
  {
    if a.ProducerMove? {
      ProducerTrying(s, a.take);
    } else {
      OthersKeepProducer(s, a);
    }
  }

  lemma {:induction false} TryEnqueueRuns<T>(s: State<T>, acts: seq<Action<T>>)
    requires Inv(s) && TryingEnqueue(s.p) && NoEnqueueCall(acts) && ProducerMoves(acts) >= TryEnqueueRank(s.p)
    ensures Exec(s, acts).p.Finished?
    decreases |acts|
  {
    if acts == [] {
      assert s.p.Finished?;
    } else {
      StepRefines(s, acts[0]);
      TryEnqueueStep(s, acts[0]);
      TryEnqueueRuns(Step(s, acts[0]).0, acts[1..]);
    }
  }

  /** try_enqueue returns within six steps of its own, under any interleaving. */
  lemma TryEnqueueIsWaitFree<T>(s: State<T>, x: T, acts: seq<Action<T>>)
    requires Inv(s) && (s.p.Resting? || s.p.Finished?) && NoEnqueueCall(acts) && ProducerMoves(acts) >= 6
    ensures Exec(Step(s, CallEnqueue(TryEnqueue, x)).0, acts).p.Finished?
  {
    StepRefines(s, CallEnqueue(TryEnqueue, x));
    TryEnqueueRuns(Step(s, CallEnqueue(TryEnqueue, x)).0, acts);
  }

  /** An upper bound on the steps that a try_dequeue, try_pop or peek has still to take. */
  function TryDequeueRank<T>(c: Consumer<T>): nat {
    match c
    case Obtaining(_, w) => if w.TryLoad? then 7 else 6
    case Advancing(_) => 5
    case Moving(_) => 4
    case Destroying(_, _) => 3
    case Releasing(_) => 2
    case Waking(_) => 1
    case PeekLoad => 2
    case PeekRead => 1
    case _ => 0
  }

  predicate TryingDequeue<T>(c: Consumer<T>) {
    && c != Idling
    && (c.Obtaining? ==> (c.op == TryDequeue || c.op == TryPop) && (c.w == TryLoad(Try) || c.w == TryTake))
  }

  /** The fault flag and the cells aside, how the consumer's control moves on. */
  lemma ConsumerControl<T>(s: State<T>, take: bool)
    requires !ConsumerStep(s, take).0.fault && !s.c.Obtaining?
    ensures var c := ConsumerStep(s, take).0.c;
            s.c != Idling ==> !c.Obtaining? && c != Idling
    ensures !s.fault && !s.c.Completed? && !s.c.Idling? ==>
              TryDequeueRank(ConsumerStep(s, take).0.c) < TryDequeueRank(s.c)
  {
  }

  lemma ConsumerTries<T>(s: State<T>, take: bool)
    requires TryingDequeue(s.c) && s.c.Obtaining?
    ensures var c := ConsumerStep(s, take).0.c; TryingDequeue(c) && TryDequeueRank(c) < TryDequeueRank(s.c)
  {
  }

  lemma OthersKeepConsumer<T>(s: State<T>, a: Action<T>)
    requires a.ProducerMove? || a.CallEnqueue?
    ensures Step(s, a).0.c == s.c
  {
  }

  lemma TryDequeueStep<T>(s: State<T>, a: Action<T>)
    requires Inv(s) && TryingDequeue(s.c) && !a.CallDequeue? && !a.CallPeek?
    ensures var t := Step(s, a).0;
            && TryingDequeue(t.c) && TryDequeueRank(t.c) <= TryDequeueRank(s.c)
            && (a.ConsumerMove? && !s.c.Completed? ==> TryDequeueRank(t.c) < TryDequeueRank(s.c))
  {
    if a.ConsumerMove? {
      ConsumerTrying(s, a.take);
    } else {
      OthersKeepConsumer(s, a);
    }
  }

  lemma ConsumerTrying<T>(s: State<T>, take: bool)
    requires Inv(s) && TryingDequeue(s.c)
    ensures var c := ConsumerStep(s, take).0.c;
            && TryingDequeue(c) && TryDequeueRank(c) <= TryDequeueRank(s.c)
            && (!s.c.Completed? ==> TryDequeueRank(c) < TryDequeueRank(s.c))
  {
    ConsumerRefines(s, take);
    if s.c.Obtaining? { ConsumerTries(s, take); } else { ConsumerControl(s, take); }
  }

  lemma {:induction false} TryDequeueRuns<T>(s: State<T>, acts: seq<Action<T>>)
    requires Inv(s) && TryingDequeue(s.c) && NoDequeueCall(acts) && ConsumerMoves(acts) >= TryDequeueRank(s.c)
    ensures Exec(s, acts).c.Completed?
    decreases |acts|
  {
    if acts == [] {
      assert s.c.Completed?;
    } else {
      StepRefines(s, acts[0]);
      TryDequeueStep(s, acts[0]);
      TryDequeueRuns(Step(s, acts[0]).0, acts[1..]);
    }
  }

  predicate NeverWaits<T>(call: Action<T>) {
    call.CallPeek? || (call.CallDequeue? && (call.dop == TryDequeue || call.dop == TryPop))
  }

  /** try_dequeue, try_pop and peek return within seven steps of their own, under any interleaving. */
  lemma TryDequeueIsWaitFree<T>(s: State<T>, call: Action<T>, acts: seq<Action<T>>)
    requires Inv(s) && (s.c.Idling? || s.c.Completed?) && NeverWaits(call)
    requires NoDequeueCall(acts) && ConsumerMoves(acts) >= 7
    ensures Exec(Step(s, call).0, acts).c.Completed?
  {
    StepRefines(s, call);
    TryDequeueRuns(Step(s, call).0, acts);
  }

  // ---------------------------------------------------------------------------------------------
  // The waiting operations, when there is something to wait for

  /** The operations of a wait that is not to fail, up to its return, while a permit is there. */
  function WaitRank(w: Waiter): nat {
    match w
    case TryLoad(_) => 2
    case SpinLoad(_, _) => 2
    case Undo => 3
    case Redo => 2
    case Returned(_) => 0
    case Idle => 0
    case _ => 1
  }

  /** A permit is there for the wait `w`, and no kernel post is on its way. */
  predicate Served(sem: Sem, w: Waiter, posting: bool, permits: int) {
    permits >= 1 && !posting && !w.Returned? && !w.Idle?
  }

  /** With a permit there and no post pending, each operation of the wait whose kernel wait may succeed
      brings it nearer to its return. */
  lemma ServedStep(sem: Sem, w: Waiter, permits: int)
    requires Accounted(sem, w, false, permits) && Served(sem, w, false, permits)
    ensures var (sem', w') := WaiterStep(sem, w, true);
            && WaitRank(w') < WaitRank(w) && (w'.Returned? ==> w' == Returned(true))
            && (!w'.Returned? ==> Served(sem', w', false, permits) && Accounted(sem', w', false, permits))
  {
    WaiterStepAccounted(sem, w, false, permits, true);
  }

  /** The waits of a reachable state are under way. */
  lemma {:induction false} WaitsUnderWay<T>(s: State<T>, acts: seq<Action<T>>)
    requires (s.p.Acquiring? ==> !s.p.w.Idle?) && (s.c.Obtaining? ==> !s.c.w.Idle?)
    ensures var t := Exec(s, acts); (t.p.Acquiring? ==> !t.p.w.Idle?) && (t.c.Obtaining? ==> !t.c.w.Idle?)
    decreases |acts|
  {
    if acts != [] {
      WaitStarts(s, acts[0]);
      WaitsUnderWay(Step(s, acts[0]).0, acts[1..]);
    }
  }

  lemma WaitStarts<T>(s: State<T>, a: Action<T>)
    requires (s.p.Acquiring? ==> !s.p.w.Idle?) && (s.c.Obtaining? ==> !s.c.w.Idle?)
    ensures var t := Step(s, a).0; (t.p.Acquiring? ==> !t.p.w.Idle?) && (t.c.Obtaining? ==> !t.c.w.Idle?)
  {
  }

  /** The steps that a consumer which finds an element has still to take. */
  function DequeueRank<T>(c: Consumer<T>): nat {
    if c.Obtaining? then 5 + WaitRank(c.w) else TryDequeueRank(c)
  }

  /** The consumer has, or can have, an element: it holds one or has one returned, or one is in the queue
      and no kernel post for it is pending. */
  predicate CanDequeue<T>(s: State<T>) {
    && !s.c.Idling? && s.c != Completed(None) && s.c != PeekLoad
    && (s.c.Obtaining? ==> |s.dequeued| < |s.enqueued| && !s.p.Posting? && !s.c.w.Idle?)
  }

  /** Every kernel wait of the consumer may succeed. */
  predicate Willing<T>(acts: seq<Action<T>>) {
    forall i :: 0 <= i < |acts| ==> acts[i].ConsumerMove? ==> acts[i].take
  }

  lemma ConsumerNearer<T>(s: State<T>)
    requires Inv(s) && CanDequeue(s) && !s.c.Completed?
    ensures var t := ConsumerStep(s, true).0;
            CanDequeue(t) && DequeueRank(t.c) < DequeueRank(s.c)
  {
    ConsumerRefines(s, true);
    if s.c.Obtaining? { WaiterNearer(s); } else { HolderNearer(s); }
  }

  lemma WaiterNearer<T>(s: State<T>)
    requires Permits(s) && CanDequeue(s) && s.c.Obtaining?
    ensures var t := ConsumerStep(s, true).0;
            CanDequeue(t) && DequeueRank(t.c) < DequeueRank(s.c)
  {
    ServedStep(s.items, s.c.w, |s.enqueued| - |s.dequeued|);
  }

  lemma HolderNearer<T>(s: State<T>)
    requires !ConsumerStep(s, true).0.fault && !s.fault && CanDequeue(s) && !s.c.Obtaining? && !s.c.Completed?
    ensures var t := ConsumerStep(s, true).0;
            CanDequeue(t) && DequeueRank(t.c) < DequeueRank(s.c)
  {
  }

  /** A producer that adds an element owes a post only if the consumer is registered and none was there. */
  lemma ItemGiven<T>(s: State<T>)
    requires Inv(s) && CanDequeue(s) && s.c.Obtaining? && s.p.Signalling?
    ensures s.items.count >= 0
  {
  }

  lemma ProducerGrows<T>(s: State<T>, take: bool)
    requires s.p.Signalling? ==> s.items.count >= 0
    ensures var t := ProducerStep(s, take).0;
            t.dequeued == s.dequeued && |t.enqueued| >= |s.enqueued| && (t.p.Posting? ==> s.p.Posting?)
  {
  }

  /** The producer takes no element away, and owes no new post. */
  lemma ProducerLeaves<T>(s: State<T>, a: Action<T>)
    requires Inv(s) && CanDequeue(s) && (a.ProducerMove? || a.CallEnqueue?)
    ensures CanDequeue(Step(s, a).0) && Step(s, a).0.c == s.c
  {
    OthersKeepConsumer(s, a);
    if s.c.Obtaining? {
      if s.p.Signalling? { ItemGiven(s); }
      if a.ProducerMove? { ProducerGrows(s, a.take); }
    }
  }

  lemma {:induction false} DequeueRuns<T>(s: State<T>, acts: seq<Action<T>>)
    requires Inv(s) && CanDequeue(s) && NoDequeueCall(acts) && Willing(acts)
    requires ConsumerMoves(acts) >= DequeueRank(s.c)
    ensures Exec(s, acts).c.Completed? && Exec(s, acts).c != Completed(None)
    decreases |acts|
  {
    if acts == [] {
      assert s.c.Completed?;
    } else {
      var a := acts[0];
      StepRefines(s, a);
      if a.ConsumerMove? {
        if !s.c.Completed? { ConsumerNearer(s); }
      } else {
        ProducerLeaves(s, a);
      }
      DequeueRuns(Step(s, a).0, acts[1..]);
    }
  }

  /** A wait_dequeue, timed or not, that finds an element in the queue while no kernel post is pending
      returns it within eight steps of its own, wherever it stands in its wait and whatever the producer
      does, if the kernel lets its waits succeed. */
  lemma WaitDequeueReturns<T>(s: State<T>, acts: seq<Action<T>>)
    requires Inv(s) && s.c.Obtaining? && !s.c.w.Idle? && |s.dequeued| < |s.enqueued| && !s.p.Posting?
    requires NoDequeueCall(acts) && Willing(acts) && ConsumerMoves(acts) >= 8
    ensures Exec(s, acts).c.Completed? && Exec(s, acts).c != Completed(None)
  {
    DequeueRuns(s, acts);
  }

  function EnqueueRank<T>(p: Producer<T>): nat {
    if p.Acquiring? then 4 + WaitRank(p.w) else TryEnqueueRank(p)
  }

  predicate CanEnqueue<T>(s: State<T>) {
    && !s.p.Resting? && s.p != Finished(false)
    && (s.p.Acquiring? ==> |s.enqueued| - |s.dequeued| < s.maxcap && !s.c.Waking? && !s.p.w.Idle?)
  }

  predicate ProducerWilling<T>(acts: seq<Action<T>>) {
    forall i :: 0 <= i < |acts| ==> acts[i].ProducerMove? ==> acts[i].take
  }

  lemma ProducerNearer<T>(s: State<T>)
    requires Inv(s) && CanEnqueue(s) && !s.p.Finished?
    ensures var t := ProducerStep(s, true).0;
            CanEnqueue(t) && EnqueueRank(t.p) < EnqueueRank(s.p)
  {
    ProducerRefines(s, true);
    if s.p.Acquiring? { ServedStep(s.slots, s.p.w, s.maxcap - (|s.enqueued| - |s.dequeued|)); }
  }

  /** A consumer that gives a slot back owes a post only if the producer is registered and none was free. */
  lemma SlotGiven<T>(s: State<T>)
    requires Inv(s) && CanEnqueue(s) && s.p.Acquiring? && s.c.Releasing?
    ensures s.slots.count >= 0
  {
  }

  lemma ConsumerShrinks<T>(s: State<T>, take: bool)
    requires s.c.Releasing? ==> s.slots.count >= 0
    ensures var t := ConsumerStep(s, take).0;
            && t.enqueued == s.enqueued && |t.dequeued| >= |s.dequeued| && t.maxcap == s.maxcap
            && (t.c.Waking? ==> s.c.Waking?)
  {
  }

  lemma ConsumerLeaves<T>(s: State<T>, a: Action<T>)
    requires Inv(s) && CanEnqueue(s) && (a.ConsumerMove? || a.CallDequeue? || a.CallPeek?)
    ensures CanEnqueue(Step(s, a).0) && Step(s, a).0.p == s.p
  {
    OthersKeepProducer(s, a);
    if s.p.Acquiring? {
      if s.c.Releasing? { SlotGiven(s); }
      if a.ConsumerMove? { ConsumerShrinks(s, a.take); }
    }
  }

  lemma {:induction false} EnqueueRuns<T>(s: State<T>, acts: seq<Action<T>>)
    requires Inv(s) && CanEnqueue(s) && NoEnqueueCall(acts) && ProducerWilling(acts)
    requires ProducerMoves(acts) >= EnqueueRank(s.p)
    ensures Exec(s, acts).p == Finished(true)
    decreases |acts|
  {
    if acts == [] {
      assert s.p.Finished?;
    } else {
      var a := acts[0];
      StepRefines(s, a);
      if a.ProducerMove? {
        if !s.p.Finished? { ProducerNearer(s); }
      } else {
        ConsumerLeaves(s, a);
      }
      EnqueueRuns(Step(s, a).0, acts[1..]);
    }
  }

  /** A wait_enqueue, timed or not, that finds room while no kernel post is pending returns true within
      seven steps of its own, in the same sense. */
  lemma WaitEnqueueReturns<T>(s: State<T>, acts: seq<Action<T>>)
    requires Inv(s) && s.p.Acquiring? && !s.p.w.Idle? && |s.enqueued| - |s.dequeued| < s.maxcap && !s.c.Waking?
    requires NoEnqueueCall(acts) && ProducerWilling(acts) && ProducerMoves(acts) >= 7
    ensures Exec(s, acts).p == Finished(true)
  {
    EnqueueRuns(s, acts);
  }
}
