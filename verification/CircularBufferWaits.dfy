/** When the ring buffer's operations sleep, and when they give up. */
module CircularBufferWaits {
  import opened Options
  import opened LightweightSemaphores
  import opened SemaphoreWaits
  import opened CircularBuffers
  import opened CircularBufferRuns
  import opened CircularBufferProgress

  // ---------------------------------------------------------------------------------------------
  // A timed wait fails only through a kernel wait that fails

  predicate PatientEnqueue<T>(p: Producer<T>) {
    p != Resting && p != Finished(false) && (p.Acquiring? ==> Patient(p.w))
  }

  predicate PatientDequeue<T>(c: Consumer<T>) {
    && c != Idling && c != Completed(None) && c != PeekLoad && c != PeekRead
    && (c.Obtaining? ==> Patient(c.w))
  }

  lemma PatientProducer<T>(s: State<T>)
    requires PatientEnqueue(s.p)
    ensures PatientEnqueue(ProducerStep(s, true).0.p)
  {
    if s.p.Acquiring? { PatientStep(s.slots, s.p.w); }
  }

  lemma PatientConsumer<T>(s: State<T>)
    requires PatientDequeue(s.c)
    ensures PatientDequeue(ConsumerStep(s, true).0.c)
  {
    if s.c.Obtaining? { PatientStep(s.items, s.c.w); }
  }

  lemma {:induction false} PatientEnqueueRuns<T>(s: State<T>, acts: seq<Action<T>>)
    requires PatientEnqueue(s.p) && NoEnqueueCall(acts) && ProducerWilling(acts)
    ensures PatientEnqueue(Exec(s, acts).p)
    decreases |acts|
  {
    if acts != [] {
      if acts[0].ProducerMove? { PatientProducer(s); } else { OthersKeepProducer(s, acts[0]); }
      PatientEnqueueRuns(Step(s, acts[0]).0, acts[1..]);
    }
  }

  lemma {:induction false} PatientDequeueRuns<T>(s: State<T>, acts: seq<Action<T>>)
    requires PatientDequeue(s.c) && NoDequeueCall(acts) && Willing(acts)
    ensures PatientDequeue(Exec(s, acts).c)
    decreases |acts|
  {
    if acts != [] {
      if acts[0].ConsumerMove? { PatientConsumer(s); } else { OthersKeepConsumer(s, acts[0]); }
      PatientDequeueRuns(Step(s, acts[0]).0, acts[1..]);
    }
  }

  /** A wait_enqueue_timed whose timeout is not zero does not return false unless a kernel wait of its own
      has failed, whatever the consumer does. */
  lemma TimedEnqueueWaits<T>(s: State<T>, t: Timeout, x: T, acts: seq<Action<T>>)
    requires !s.fault && (s.p.Resting? || s.p.Finished?) && t != Zero
    requires NoEnqueueCall(acts) && ProducerWilling(acts)
    ensures Exec(Step(s, CallEnqueue(WaitEnqueueTimed(t), x)).0, acts).p != Finished(false)
  {
    PatientEnqueueRuns(Step(s, CallEnqueue(WaitEnqueueTimed(t), x)).0, acts);
  }

  /** A wait_dequeue_timed whose timeout is not zero does not come back empty-handed unless a kernel wait of
      its own has failed, whatever the producer does. */
  lemma TimedDequeueWaits<T>(s: State<T>, t: Timeout, acts: seq<Action<T>>)
    requires !s.fault && (s.c.Idling? || s.c.Completed?) && t != Zero
    requires NoDequeueCall(acts) && Willing(acts)
    ensures Exec(Step(s, CallDequeue(WaitDequeueTimed(t))).0, acts).c != Completed(None)
  {
    PatientDequeueRuns(Step(s, CallDequeue(WaitDequeueTimed(t))).0, acts);
  }

  // ---------------------------------------------------------------------------------------------
  // The operations that never sleep

  lemma {:induction false} SleeplessEnqueueRuns<T>(s: State<T>, acts: seq<Action<T>>)
    requires s.p.Acquiring? ==> Sleepless(s.p.w) && !s.p.op.WaitEnqueue?
    requires NoEnqueueCall(acts)
    ensures var p := Exec(s, acts).p; p.Acquiring? ==> p.w != Kernel
    decreases |acts|
  {
    if acts != [] {
      SleeplessProducer(s, acts[0]);
      SleeplessEnqueueRuns(Step(s, acts[0]).0, acts[1..]);
    }
  }

  lemma SleeplessProducer<T>(s: State<T>, a: Action<T>)
    requires s.p.Acquiring? ==> Sleepless(s.p.w) && !s.p.op.WaitEnqueue?
    requires !a.CallEnqueue?
    ensures var p := Step(s, a).0.p; p.Acquiring? ==> Sleepless(p.w) && !p.op.WaitEnqueue?
  {
    if a.ProducerMove? && s.p.Acquiring? { SleeplessStep(s.slots, s.p.w, a.take); }
  }

  lemma {:induction false} SleeplessDequeueRuns<T>(s: State<T>, acts: seq<Action<T>>)
    requires s.c.Obtaining? ==> Sleepless(s.c.w) && !s.c.op.WaitDequeue?
    requires NoDequeueCall(acts)
    ensures var c := Exec(s, acts).c; c.Obtaining? ==> c.w != Kernel
    decreases |acts|
  {
    if acts != [] {
      SleeplessConsumer(s, acts[0]);
      SleeplessDequeueRuns(Step(s, acts[0]).0, acts[1..]);
    }
  }

  lemma SleeplessConsumer<T>(s: State<T>, a: Action<T>)
    requires s.c.Obtaining? ==> Sleepless(s.c.w) && !s.c.op.WaitDequeue?
    requires !a.CallDequeue? && !a.CallPeek?
    ensures var c := Step(s, a).0.c; c.Obtaining? ==> Sleepless(c.w) && !c.op.WaitDequeue?
  {
    if a.ConsumerMove? && s.c.Obtaining? { SleeplessStep(s.items, s.c.w, a.take); }
  }

  /** try_enqueue, and wait_enqueue_timed with timeout zero, never sleep. */
  lemma EnqueueNeverSleeps<T>(s: State<T>, op: EnqueueOp, x: T, acts: seq<Action<T>>)
    requires !s.fault && (s.p.Resting? || s.p.Finished?) && (op == TryEnqueue || op == WaitEnqueueTimed(Zero))
    requires NoEnqueueCall(acts)
    ensures var p := Exec(Step(s, CallEnqueue(op, x)).0, acts).p; p.Acquiring? ==> p.w != Kernel
  {
    SleeplessEnqueueRuns(Step(s, CallEnqueue(op, x)).0, acts);
  }

  /** try_dequeue, try_pop, and wait_dequeue_timed with timeout zero, never sleep. */
  lemma DequeueNeverSleeps<T>(s: State<T>, op: DequeueOp, acts: seq<Action<T>>)
    requires !s.fault && (s.c.Idling? || s.c.Completed?)
    requires (op == TryDequeue || op == TryPop || op == WaitDequeueTimed(Zero)) && NoDequeueCall(acts)
    ensures var c := Exec(Step(s, CallDequeue(op)).0, acts).c; c.Obtaining? ==> c.w != Kernel
  {
    SleeplessDequeueRuns(Step(s, CallDequeue(op)).0, acts);
  }

  // ---------------------------------------------------------------------------------------------
  // A thread that is left alone with a full, or an empty, buffer

  function ProducerAlone<T>(n: nat): (acts: seq<Action<T>>)
    ensures |acts| == n
  {
    if n == 0 then [] else [ProducerMove(true)] + ProducerAlone(n - 1)
  }

  function ConsumerAlone<T>(n: nat): (acts: seq<Action<T>>)
    ensures |acts| == n
  {
    if n == 0 then [] else [ConsumerMove(true)] + ConsumerAlone(n - 1)
  }

  lemma ProducerAloneStep<T>(s: State<T>, n: nat)
    requires n > 0
    ensures Exec(s, ProducerAlone(n)) == Exec(Step(s, ProducerMove(true)).0, ProducerAlone(n - 1))
  {
    assert ProducerAlone<T>(n)[1..] == ProducerAlone(n - 1);
  }

  lemma ConsumerAloneStep<T>(s: State<T>, n: nat)
    requires n > 0
    ensures Exec(s, ConsumerAlone(n)) == Exec(Step(s, ConsumerMove(true)).0, ConsumerAlone(n - 1))
  {
    assert ConsumerAlone<T>(n)[1..] == ConsumerAlone(n - 1);
  }


  /** Until it returns, the wait inside an enqueue goes as the semaphore's own. */
  lemma {:induction false} EnqueueWaits<T>(s: State<T>, b: System, n: nat)
    requires !s.fault && s.p.Acquiring? && b.sem == s.slots && b.waiter == s.p.w
    requires !Run(b, Alone(n)).waiter.Returned?
    ensures var r := Run(b, Alone(n));
            Exec(s, ProducerAlone(n)) == s.(slots := r.sem, p := Acquiring(s.p.op, s.p.x, r.waiter))
    decreases n
  {
    if n > 0 {
      AloneStep(b, n);
      ProducerAloneStep(s, n);
      var b' := Apply(b, WaiterMove(true));
      if b'.waiter.Returned? { StaysPut(b', n - 1); }
      EnqueueWaits(Step(s, ProducerMove(true)).0, b', n - 1);
    }
  }

  lemma {:induction false} DequeueWaits<T>(s: State<T>, b: System, n: nat)
    requires !s.fault && s.c.Obtaining? && b.sem == s.items && b.waiter == s.c.w
    requires !Run(b, Alone(n)).waiter.Returned?
    ensures var r := Run(b, Alone(n));
            Exec(s, ConsumerAlone(n)) == s.(items := r.sem, c := Obtaining(s.c.op, r.waiter))
    decreases n
  {
    if n > 0 {
      AloneStep(b, n);
      ConsumerAloneStep(s, n);
      var b' := Apply(b, WaiterMove(true));
      if b'.waiter.Returned? { StaysPut(b', n - 1); }
      DequeueWaits(Step(s, ConsumerMove(true)).0, b', n - 1);
    }
  }

  /** A full buffer has no free slot left, no post for one and no registration. */
  lemma FullSlots<T>(s: State<T>)
    requires Inv(s) && (s.p.Resting? || s.p.Finished?) && |s.enqueued| - |s.dequeued| == s.maxcap
    ensures s.slots == Sem(0, 0) && !s.fault
  {
  }

  lemma EmptyItems<T>(s: State<T>)
    requires Inv(s) && (s.c.Idling? || s.c.Completed?) && |s.enqueued| == |s.dequeued|
    ensures s.items == Sem(0, 0) && !s.fault
  {
  }

  /** The wait that a call begins on a semaphore without permits, as the semaphore sees it. */
  ghost predicate Begun(b: System, t: Timeout) {
    b.sem == Sem(0, 0) && b.waiter == TryLoad(Wait(t))
  }

  lemma Begin(t: Timeout) returns (b: System)
    ensures Begun(b, t)
  {
    b := System(Sem(0, 0), TryLoad(Wait(t)), false, 0, 0);
  }

  lemma EnqueueCalled<T>(s: State<T>, op: EnqueueOp, x: T, t: Timeout)
    requires !s.fault && (s.p.Resting? || s.p.Finished?) && EnqueueMode(op) == Wait(t)
    ensures Step(s, CallEnqueue(op, x)).0 == s.(p := Acquiring(op, x, TryLoad(Wait(t))))
  {
  }

  lemma DequeueCalled<T>(s: State<T>, op: DequeueOp, t: Timeout)
    requires !s.fault && (s.c.Idling? || s.c.Completed?) && DequeueMode(op) == Wait(t)
    ensures Step(s, CallDequeue(op)).0 == s.(c := Obtaining(op, TryLoad(Wait(t))))
  {
  }

  lemma EnqueueAsleep<T>(s: State<T>, t: Timeout, n: nat)
    requires !s.fault && s.p.Acquiring? && s.p.w == TryLoad(Wait(t)) && s.slots == Sem(0, 0)
    requires t != Zero && n >= 1026
    ensures Exec(s, ProducerAlone(n)) == s.(slots := Sem(-1, 0), p := Acquiring(s.p.op, s.p.x, Kernel))
  {
    var b := Begin(t);
    UnsignalledWait(b, t, n);
    EnqueueWaits(s, b, n);
  }

  lemma DequeueAsleep<T>(s: State<T>, t: Timeout, n: nat)
    requires !s.fault && s.c.Obtaining? && s.c.w == TryLoad(Wait(t)) && s.items == Sem(0, 0)
    requires t != Zero && n >= 1026
    ensures Exec(s, ConsumerAlone(n)) == s.(items := Sem(-1, 0), c := Obtaining(s.c.op, Kernel))
  {
    var b := Begin(t);
    UnsignalledWait(b, t, n);
    DequeueWaits(s, b, n);
  }

  /** wait_enqueue and wait_enqueue_timed with a timeout other than zero go to sleep on a full buffer, with
      their 1026th operation, and do not wake up by themselves. */
  lemma EnqueueSleeps<T>(s: State<T>, op: EnqueueOp, x: T, n: nat)
    requires Inv(s) && (s.p.Resting? || s.p.Finished?) && |s.enqueued| - |s.dequeued| == s.maxcap
    requires (op == WaitEnqueue || (op.WaitEnqueueTimed? && op.timeout != Zero)) && n >= 1026
    ensures Exec(Step(s, CallEnqueue(op, x)).0, ProducerAlone(n))
         == s.(slots := Sem(-1, 0), p := Acquiring(op, x, Kernel))
  {
    var t := if op == WaitEnqueue then Forever else op.timeout;
    FullSlots(s);
    EnqueueCalled(s, op, x, t);
    EnqueueAsleep(s.(p := Acquiring(op, x, TryLoad(Wait(t)))), t, n);
  }

  /** The same for wait_dequeue and wait_dequeue_timed on an empty buffer. */
  lemma DequeueSleeps<T>(s: State<T>, op: DequeueOp, n: nat)
    requires Inv(s) && (s.c.Idling? || s.c.Completed?) && |s.enqueued| == |s.dequeued|
    requires (op == WaitDequeue || (op.WaitDequeueTimed? && op.timeout != Zero)) && n >= 1026
    ensures Exec(Step(s, CallDequeue(op)).0, ConsumerAlone(n))
         == s.(items := Sem(-1, 0), c := Obtaining(op, Kernel))
  {
    var t := if op == WaitDequeue then Forever else op.timeout;
    EmptyItems(s);
    DequeueCalled(s, op, t);
    DequeueAsleep(s.(c := Obtaining(op, TryLoad(Wait(t)))), t, n);
  }

  // ---------------------------------------------------------------------------------------------
  // Timing out

  /** When the kernel wait of an enqueue times out on a buffer that is full, two operations later the
      registration is gone; wait_enqueue_timed has then returned false, and wait_enqueue starts again. */
  lemma EnqueueTimesOut<T>(s: State<T>, take: bool)
    requires Inv(s) && s.p.Acquiring? && s.p.w == Kernel && |s.enqueued| - |s.dequeued| == s.maxcap
    ensures var s' := Step(Step(s, ProducerMove(false)).0, ProducerMove(take)).0;
            s' == s.(slots := Sem(0, 0),
                     p := if s.p.op == WaitEnqueue then Acquiring(WaitEnqueue, s.p.x, TryLoad(Wait(Forever)))
                          else Finished(false))
  {
    assert s.slots == Sem(-1, 0);
  }

  lemma DequeueTimesOut<T>(s: State<T>, take: bool)
    requires Inv(s) && s.c.Obtaining? && s.c.w == Kernel && |s.enqueued| == |s.dequeued|
    ensures var s' := Step(Step(s, ConsumerMove(false)).0, ConsumerMove(take)).0;
            s' == s.(items := Sem(0, 0),
                     c := if s.c.op == WaitDequeue then Obtaining(WaitDequeue, TryLoad(Wait(Forever)))
                          else Completed(None))
  {
    assert s.items == Sem(-1, 0);
  }

  lemma {:induction false} FinishedStays<T>(s: State<T>, n: nat)
    requires s.p.Finished?
    ensures Exec(s, ProducerAlone(n)) == s
    decreases n
  {
    if n > 0 {
      ProducerAloneStep(s, n);
      FinishedStays(s, n - 1);
    }
  }

  lemma {:induction false} CompletedStays<T>(s: State<T>, n: nat)
    requires s.c.Completed?
    ensures Exec(s, ConsumerAlone(n)) == s
    decreases n
  {
    if n > 0 {
      ConsumerAloneStep(s, n);
      CompletedStays(s, n - 1);
    }
  }

  /** When the wait inside a wait_enqueue_timed fails, the call returns false. */
  lemma {:induction false} EnqueueGivesIn<T>(s: State<T>, b: System, n: nat)
    requires !s.fault && s.p.Acquiring? && !s.p.op.WaitEnqueue? && b.sem == s.slots && b.waiter == s.p.w
    requires !b.waiter.Returned? && Run(b, Alone(n)).waiter == Returned(false)
    ensures Exec(s, ProducerAlone(n)) == s.(slots := Run(b, Alone(n)).sem, p := Finished(false))
    decreases n
  {
    AloneStep(b, n);
    ProducerAloneStep(s, n);
    var b' := Apply(b, WaiterMove(true));
    if b'.waiter.Returned? {
      StaysPut(b', n - 1);
      FinishedStays(Step(s, ProducerMove(true)).0, n - 1);
    } else {
      EnqueueGivesIn(Step(s, ProducerMove(true)).0, b', n - 1);
    }
  }

  lemma {:induction false} DequeueGivesIn<T>(s: State<T>, b: System, n: nat)
    requires !s.fault && s.c.Obtaining? && !s.c.op.WaitDequeue? && b.sem == s.items && b.waiter == s.c.w
    requires !b.waiter.Returned? && Run(b, Alone(n)).waiter == Returned(false)
    ensures Exec(s, ConsumerAlone(n)) == s.(items := Run(b, Alone(n)).sem, c := Completed(None))
    decreases n
  {
    AloneStep(b, n);
    ConsumerAloneStep(s, n);
    var b' := Apply(b, WaiterMove(true));
    if b'.waiter.Returned? {
      StaysPut(b', n - 1);
      CompletedStays(Step(s, ConsumerMove(true)).0, n - 1);
    } else {
      DequeueGivesIn(Step(s, ConsumerMove(true)).0, b', n - 1);
    }
  }

  lemma EnqueueTriesOnce<T>(s: State<T>, t: Timeout, n: nat)
    requires !s.fault && s.p.Acquiring? && s.p.w == TryLoad(Wait(t)) && !s.p.op.WaitEnqueue? && s.slots == Sem(0, 0)
    requires t == Zero && n >= 1027
    ensures Exec(s, ProducerAlone(n)) == s.(p := Finished(false))
  {
    var b := Begin(t);
    UnsignalledWait(b, t, n);
    EnqueueGivesIn(s, b, n);
  }

  lemma DequeueTriesOnce<T>(s: State<T>, t: Timeout, n: nat)
    requires !s.fault && s.c.Obtaining? && s.c.w == TryLoad(Wait(t)) && !s.c.op.WaitDequeue? && s.items == Sem(0, 0)
    requires t == Zero && n >= 1027
    ensures Exec(s, ConsumerAlone(n)) == s.(c := Completed(None))
  {
    var b := Begin(t);
    UnsignalledWait(b, t, n);
    DequeueGivesIn(s, b, n);
  }

  /** wait_enqueue_timed with timeout zero has returned false on a full buffer with its 1027th operation, and
      leaves no trace. */
  lemma EnqueueGivesUp<T>(s: State<T>, x: T, n: nat)
    requires Inv(s) && (s.p.Resting? || s.p.Finished?) && |s.enqueued| - |s.dequeued| == s.maxcap && n >= 1027
    ensures Exec(Step(s, CallEnqueue(WaitEnqueueTimed(Zero), x)).0, ProducerAlone(n)) == s.(p := Finished(false))
  {
    var op := WaitEnqueueTimed(Zero);
    FullSlots(s);
    EnqueueCalled(s, op, x, Zero);
    EnqueueTriesOnce(s.(p := Acquiring(op, x, TryLoad(Wait(Zero)))), Zero, n);
  }

  /** wait_dequeue_timed with timeout zero likewise has come back empty-handed from an empty buffer. */
  lemma DequeueGivesUp<T>(s: State<T>, n: nat)
    requires Inv(s) && (s.c.Idling? || s.c.Completed?) && |s.enqueued| == |s.dequeued| && n >= 1027
    ensures Exec(Step(s, CallDequeue(WaitDequeueTimed(Zero))).0, ConsumerAlone(n)) == s.(c := Completed(None))
  {
    var op := WaitDequeueTimed(Zero);
    EmptyItems(s);
    DequeueCalled(s, op, Zero);
    DequeueTriesOnce(s.(c := Obtaining(op, TryLoad(Wait(Zero)))), Zero, n);
  }
}
