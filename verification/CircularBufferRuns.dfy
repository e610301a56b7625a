/** What the step-by-step refinement of the circular buffer means for whole runs, and the buffer
    object itself, whose steps update its fields and cells in place. */
module CircularBufferRuns {
  import opened Options
  import opened Sequences
  import opened Words
  import opened LightweightSemaphores
  import opened CircularBuffers

  function Exec<T>(s: State<T>, acts: seq<Action<T>>): State<T>
    decreases |acts|
  {
    if acts == [] then s else Exec(Step(s, acts[0]).0, acts[1..])
  }

  function Trace<T>(s: State<T>, acts: seq<Action<T>>): seq<Event<T>>
    decreases |acts|
  {
    if acts == [] then [] else [Step(s, acts[0]).1] + Trace(Step(s, acts[0]).0, acts[1..])
  }

  /** The abstract bounded queue run over a list of events. */
  function Replay<T(==)>(cap: nat, q: seq<T>, es: seq<Event<T>>): Option<seq<T>>
    decreases |es|
  {
    if es == [] then Some(q)
    else match Spec(cap, q, es[0])
         case None => None
         case Some(q') => Replay(cap, q', es[1..])
  }

  function EnqueuedIn<T>(es: seq<Event<T>>): seq<T> {
    if es == [] then [] else (if es[0].Enqueued? then [es[0].x] else []) + EnqueuedIn(es[1..])
  }

  function DequeuedIn<T>(es: seq<Event<T>>): seq<T> {
    if es == [] then [] else (if es[0].Dequeued? then [es[0].v] else []) + DequeuedIn(es[1..])
  }

  lemma StartInv<T>(maxcap: nat, mask: nat)
    requires 1 <= maxcap <= SSIZE_MAX && IsMask(mask) && maxcap <= mask + 1
    ensures Inv(Start<T>(maxcap, mask))
  {
  }

  lemma StepHistories<T>(s: State<T>, a: Action<T>)
    ensures var (s', e) := Step(s, a);
            && s'.enqueued == s.enqueued + EnqueuedIn([e])
            && s'.dequeued == s.dequeued + DequeuedIn([e])
  {
    var (s', e) := Step(s, a);
    assert EnqueuedIn([e]) == if e.Enqueued? then [e.x] else [];
    assert DequeuedIn([e]) == if e.Dequeued? then [e.v] else [];
  }

  lemma {:induction false} RunInv<T>(s: State<T>, acts: seq<Action<T>>)
    requires Inv(s)
    ensures Inv(Exec(s, acts)) && Exec(s, acts).maxcap == s.maxcap
    decreases |acts|
  {
    if acts != [] {
      StepRefines(s, acts[0]);
      RunInv(Step(s, acts[0]).0, acts[1..]);
    }
  }

  lemma HistoriesCons<T>(e: Event<T>, es: seq<Event<T>>)
    ensures EnqueuedIn([e] + es) == EnqueuedIn([e]) + EnqueuedIn(es)
    ensures DequeuedIn([e] + es) == DequeuedIn([e]) + DequeuedIn(es)
  {
    OneEvent(e);
    EventCons(e, es);
  }

  lemma OneEvent<T>(e: Event<T>)
    ensures EnqueuedIn([e]) == (if e.Enqueued? then [e.x] else [])
    ensures DequeuedIn([e]) == (if e.Dequeued? then [e.v] else [])
  {
    assert [e][1..] == [];
  }

  lemma EventCons<T>(e: Event<T>, es: seq<Event<T>>)
    ensures EnqueuedIn([e] + es) == (if e.Enqueued? then [e.x] else []) + EnqueuedIn(es)
    ensures DequeuedIn([e] + es) == (if e.Dequeued? then [e.v] else []) + DequeuedIn(es)
  {
    assert ([e] + es)[1..] == es;
  }

  lemma {:induction false} RunEnqueued<T>(s: State<T>, acts: seq<Action<T>>)
    ensures Exec(s, acts).enqueued == s.enqueued + EnqueuedIn(Trace(s, acts))
    decreases |acts|
  {
    if acts != [] {
      var (t, e) := Step(s, acts[0]);
      var rest := Trace(t, acts[1..]);
      RunEnqueued(t, acts[1..]);
      assert t.enqueued == s.enqueued + EnqueuedIn([e]) by { StepHistories(s, acts[0]); }
      HistoriesCons(e, rest);
      Associative(s.enqueued, EnqueuedIn([e]), EnqueuedIn(rest));
    }
  }

  lemma {:induction false} RunDequeued<T>(s: State<T>, acts: seq<Action<T>>)
    ensures Exec(s, acts).dequeued == s.dequeued + DequeuedIn(Trace(s, acts))
    decreases |acts|
  {
    if acts != [] {
      var (t, e) := Step(s, acts[0]);
      var rest := Trace(t, acts[1..]);
      RunDequeued(t, acts[1..]);
      assert t.dequeued == s.dequeued + DequeuedIn([e]) by { StepHistories(s, acts[0]); }
      HistoriesCons(e, rest);
      Associative(s.dequeued, DequeuedIn([e]), DequeuedIn(rest));
    }
  }

  lemma {:induction false} RunReplays<T>(s: State<T>, acts: seq<Action<T>>)
    requires Inv(s)
    ensures |Exec(s, acts).dequeued| <= |Exec(s, acts).enqueued|
    ensures Replay(s.maxcap, Queue(s), Trace(s, acts)) == Some(Queue(Exec(s, acts)))
    decreases |acts|
  {
    if acts != [] {
      var (t, e) := Step(s, acts[0]);
      StepRefines(s, acts[0]);
      RunReplays(t, acts[1..]);
      assert ([e] + Trace(t, acts[1..]))[1..] == Trace(t, acts[1..]);
    }
  }

  /** Every interleaving of atomic steps is a run of a bounded FIFO queue of capacity `maxcap`: no
      step is undefined or breaks an assertion, the events are accepted one after the other by the
      abstract queue, a failing operation finds it exactly full (exactly empty), and the elements
      taken out are a prefix of the elements put in. */
  lemma LinearizableBoundedFifo<T>(maxcap: nat, mask: nat, acts: seq<Action<T>>)
    requires 1 <= maxcap <= SSIZE_MAX && IsMask(mask) && maxcap <= mask + 1
    ensures var s := Exec(Start(maxcap, mask), acts);
            var es := Trace(Start(maxcap, mask), acts);
            && !s.fault
            && DequeuedIn(es) <= EnqueuedIn(es)
            && |EnqueuedIn(es)| - |DequeuedIn(es)| <= maxcap
            && Replay(maxcap, [], es) == Some(EnqueuedIn(es)[|DequeuedIn(es)|..])
  {
    StartInv<T>(maxcap, mask);
    var s := Exec(Start(maxcap, mask), acts);
    RunInv(Start(maxcap, mask), acts);
    RunEnqueued(Start<T>(maxcap, mask), acts);
    RunDequeued(Start<T>(maxcap, mask), acts);
    RunReplays(Start(maxcap, mask), acts);
    var es := Trace(Start<T>(maxcap, mask), acts);
    assert s.enqueued == EnqueuedIn(es) && s.dequeued == DequeuedIn(es);
    assert Queue(Start<T>(maxcap, mask)) == [];
    QueueFits(s);
  }

  lemma QueueFits<T>(s: State<T>)
    requires Inv(s)
    ensures |s.dequeued| <= |s.enqueued| <= |s.dequeued| + s.maxcap && s.dequeued <= s.enqueued
  {
  }

  /** Permits are conserved: free slots, stored elements and the one operation each thread may have
      in flight add up to the capacity; the counts stay within the signed range; and the size anyone
      reads off is the abstract size less what the consumer has claimed. */
  lemma CapacityConserved<T>(maxcap: nat, mask: nat, acts: seq<Action<T>>)
    requires 1 <= maxcap <= SSIZE_MAX && IsMask(mask) && maxcap <= mask + 1
    ensures var s := Exec(Start(maxcap, mask), acts);
            && FreeSlots(s) >= 0 && FreeItems(s) >= 0
            && FreeSlots(s) + FreeItems(s) + Count(HoldsSlot(s.p)) + Count(HoldsItem(s.c)) == maxcap
            && -1 <= s.slots.count <= maxcap && -1 <= s.items.count <= maxcap
            && |s.dequeued| <= |s.enqueued|
            && |Queue(s)| - Count(HoldsItem(s.c)) - Waiting(ItemWaiter(s.c))
                 <= AvailableApprox(s.items) <= |Queue(s)|
  {
    StartInv<T>(maxcap, mask);
    RunInv(Start(maxcap, mask), acts);
  }

  /** The producer is blocked in the kernel, and no wake-up is stored or on its way. */
  predicate ProducerSleeps<T>(s: State<T>) {
    SlotWaiter(s.p) == Kernel && s.slots.kernel == 0 && !s.c.Waking?
  }

  predicate ConsumerSleeps<T>(s: State<T>) {
    ItemWaiter(s.c) == Kernel && s.items.kernel == 0 && !s.p.Posting?
  }

  lemma SleepersIn<T>(s: State<T>)
    requires Inv(s)
    ensures ProducerSleeps(s) ==> |Queue(s)| == s.maxcap
    ensures ConsumerSleeps(s) ==> Queue(s) == []
  {
  }

  /** In every reachable state a producer that sleeps finds the queue full, and a consumer that sleeps
      finds it empty; so the two never sleep at once. */
  lemma NeverBothAsleep<T>(maxcap: nat, mask: nat, acts: seq<Action<T>>)
    requires 1 <= maxcap <= SSIZE_MAX && IsMask(mask) && maxcap <= mask + 1
    ensures var s := Exec(Start(maxcap, mask), acts);
            && |s.dequeued| <= |s.enqueued|
            && (ProducerSleeps(s) ==> |Queue(s)| == maxcap)
            && (ConsumerSleeps(s) ==> Queue(s) == [])
            && !(ProducerSleeps(s) && ConsumerSleeps(s))
  {
    StartInv<T>(maxcap, mask);
    RunInv(Start(maxcap, mask), acts);
    SleepersIn(Exec(Start(maxcap, mask), acts));
    ExecKeepsCapacity(Start<T>(maxcap, mask), acts);
  }

  lemma {:induction false} ExecKeepsCapacity<T>(s: State<T>, acts: seq<Action<T>>)
    ensures Exec(s, acts).maxcap == s.maxcap
    decreases |acts|
  {
    if acts != [] { ExecKeepsCapacity(Step(s, acts[0]).0, acts[1..]); }
  }

  // ---------------------------------------------------------------------------------------------
  // Each call takes effect once, between its start and its return, with the result it returns

  predicate NoEnqueueCall<T>(acts: seq<Action<T>>) {
    forall i :: 0 <= i < |acts| ==> !acts[i].CallEnqueue?
  }

  predicate NoDequeueCall<T>(acts: seq<Action<T>>) {
    forall i :: 0 <= i < |acts| ==> !acts[i].CallDequeue? && !acts[i].CallPeek?
  }

  function ProducerEvents<T>(es: seq<Event<T>>): seq<Event<T>> {
    if es == [] then []
    else (if es[0].Enqueued? || es[0].FoundFull? then [es[0]] else []) + ProducerEvents(es[1..])
  }

  function ConsumerEvents<T>(es: seq<Event<T>>): seq<Event<T>> {
    if es == [] then []
    else (if es[0].Dequeued? || es[0].FoundEmpty? || es[0].Peeked? then [es[0]] else []) + ConsumerEvents(es[1..])
  }

  function Argument<T>(p: Producer<T>): Option<T> {
    match p
    case Acquiring(_, x, _) => Some(x)
    case Claiming(x) => Some(x)
    case Constructing(x, _) => Some(x)
    case Signalling(x) => Some(x)
    case _ => None
  }

  /** The events a producer call has still to cause when it goes from `p` to `p'`. */
  function EnqueueEffect<T>(p: Producer<T>, p': Producer<T>): seq<Event<T>> {
    match Argument(p)
    case None => []
    case Some(x) =>
      if p' == Posting || p' == Finished(true) then [Enqueued(x)]
      else if p' == Finished(false) then [FoundFull] else []
  }

  lemma {:induction false} EnqueueEffectOnce<T>(s: State<T>, acts: seq<Action<T>>)
    requires NoEnqueueCall(acts)
    ensures ProducerEvents(Trace(s, acts)) == EnqueueEffect(s.p, Exec(s, acts).p)
    ensures Argument(Exec(s, acts).p).Some? ==> Argument(Exec(s, acts).p) == Argument(s.p)
    ensures Argument(s.p).None? && s.p != Posting ==> Exec(s, acts).p == s.p
    ensures s.p == Posting ==> Exec(s, acts).p == Posting || Exec(s, acts).p == Finished(true)
    decreases |acts|
  {
    if acts != [] {
      var (t, e) := Step(s, acts[0]);
      EnqueueStep(s, acts[0]);
      EnqueueEffectOnce(t, acts[1..]);
      ProducerEventsCons(e, Trace(t, acts[1..]));
    }
  }

  lemma ProducerEventsCons<T>(e: Event<T>, es: seq<Event<T>>)
    ensures ProducerEvents([e] + es) == ProducerEvents([e]) + ProducerEvents(es)
  {
    assert ([e] + es)[1..] == es && [e][1..] == [];
  }

  lemma ConsumerEventsCons<T>(e: Event<T>, es: seq<Event<T>>)
    ensures ConsumerEvents([e] + es) == ConsumerEvents([e]) + ConsumerEvents(es)
  {
    assert ([e] + es)[1..] == es && [e][1..] == [];
  }

  lemma EnqueueStep<T>(s: State<T>, a: Action<T>)
    requires !a.CallEnqueue?
    ensures var (t, e) := Step(s, a);
            && ProducerEvents([e]) == EnqueueEffect(s.p, t.p)
            && (Argument(t.p).Some? ==> Argument(t.p) == Argument(s.p))
            && (Argument(s.p).None? && s.p != Posting ==> t.p == s.p)
            && (s.p == Posting ==> t.p == Posting || t.p == Finished(true))
            && (Argument(s.p).Some? ==> Argument(t.p).Some? || t.p == Posting || t.p.Finished?)
  {
    var (t, e) := Step(s, a);
    assert ProducerEvents([e]) == if e.Enqueued? || e.FoundFull? then [e] else [];
  }

  /** A call of wait_enqueue that has not returned false. */
  predicate WaitsForSlot<T>(p: Producer<T>) {
    p != Resting && p != Finished(false) && (p.Acquiring? ==> p.op.WaitEnqueue?)
  }

  lemma {:induction false} WaitEnqueueGoesOn<T>(s: State<T>, acts: seq<Action<T>>)
    requires NoEnqueueCall(acts) && WaitsForSlot(s.p)
    ensures WaitsForSlot(Exec(s, acts).p)
    decreases |acts|
  {
    if acts != [] { WaitEnqueueGoesOn(Step(s, acts[0]).0, acts[1..]); }
  }

  predicate WaitsForItem<T>(c: Consumer<T>) {
    c != Idling && c != PeekLoad && c != Completed(None) && (c.Obtaining? ==> c.op.WaitDequeue?)
  }

  lemma {:induction false} WaitDequeueGoesOn<T>(s: State<T>, acts: seq<Action<T>>)
    requires NoDequeueCall(acts) && WaitsForItem(s.c)
    ensures WaitsForItem(Exec(s, acts).c)
    decreases |acts|
  {
    if acts != [] { WaitDequeueGoesOn(Step(s, acts[0]).0, acts[1..]); }
  }

  /** A call of an enqueue operation, and everything that happens before the next one: it has caused
      no event while it runs towards its effect, `Enqueued(x)` once if it returns (or is about to
      return) true, and `FoundFull` once if it returns false, which wait_enqueue never does. */
  lemma EnqueueIsAtomic<T>(s: State<T>, op: EnqueueOp, x: T, acts: seq<Action<T>>)
    requires !s.fault && (s.p.Resting? || s.p.Finished?) && NoEnqueueCall(acts)
    ensures var c := Step(s, CallEnqueue(op, x)).0;
            var p := Exec(c, acts).p;
            && ProducerEvents(Trace(c, acts))
                 == (if p == Posting || p == Finished(true) then [Enqueued(x)]
                     else if p == Finished(false) then [FoundFull] else [])
            && (p.Acquiring? || HoldsSlot(p) || p == Posting || p.Finished?)
            && (op.WaitEnqueue? ==> p != Finished(false))
  {
    var c := Step(s, CallEnqueue(op, x)).0;
    EnqueueEffectOnce(c, acts);
    if op.WaitEnqueue? { WaitEnqueueGoesOn(c, acts); }
    NeverResting(c, acts);
  }

  lemma {:induction false} NeverResting<T>(s: State<T>, acts: seq<Action<T>>)
    requires s.p != Resting
    ensures Exec(s, acts).p != Resting
    decreases |acts|
  {
    if acts != [] { NeverResting(Step(s, acts[0]).0, acts[1..]); }
  }

  /** The result a consumer call is committed to, once it has taken effect. */
  function Result<T>(c: Consumer<T>): Option<Option<T>> {
    match c
    case Waking(v) => Some(Some(v))
    case Completed(r) => Some(r)
    case _ => None
  }

  ghost predicate Witnesses<T>(e: Event<T>, r: Option<T>) {
    match r
    case None => e == FoundEmpty
    case Some(v) => e == Dequeued(v) || e == Peeked(v)
  }

  lemma ConsumerCallStep<T>(s: State<T>, a: Action<T>)
    requires !a.CallDequeue? && !a.CallPeek? && !s.c.Idling?
    ensures var (t, e) := Step(s, a);
            && !t.c.Idling?
            && (Result(s.c).Some? ==> Result(t.c) == Result(s.c) && ConsumerEvents([e]) == [])
            && (Result(s.c).None? && Result(t.c).None? ==> ConsumerEvents([e]) == [])
            && (Result(s.c).None? && Result(t.c).Some? ==>
                  ConsumerEvents([e]) == [e] && Witnesses(e, Result(t.c).value))
  {
    var (t, e) := Step(s, a);
    assert ConsumerEvents([e]) == if e.Dequeued? || e.FoundEmpty? || e.Peeked? then [e] else [];
  }

  lemma {:induction false} ConsumerEffectOnce<T>(s: State<T>, acts: seq<Action<T>>)
    requires NoDequeueCall(acts) && !s.c.Idling?
    ensures var es, c := ConsumerEvents(Trace(s, acts)), Exec(s, acts).c;
            && (Result(s.c).Some? ==> Result(c) == Result(s.c) && es == [])
            && (Result(c).None? ==> es == [])
            && (Result(s.c).None? && Result(c).Some? ==> |es| == 1 && Witnesses(es[0], Result(c).value))
    decreases |acts|
  {
    if acts != [] {
      var (t, e) := Step(s, acts[0]);
      ConsumerCallStep(s, acts[0]);
      ConsumerEffectOnce(t, acts[1..]);
      ConsumerEventsCons(e, Trace(t, acts[1..]));
    }
  }

  /** A call of a dequeue, pop or peek operation causes exactly one event, which names the very
      element it returns, or `FoundEmpty` when it returns none, which wait_dequeue never does. */
  lemma DequeueIsAtomic<T>(s: State<T>, call: Action<T>, acts: seq<Action<T>>)
    requires !s.fault && (s.c.Idling? || s.c.Completed?) && NoDequeueCall(acts)
    requires call.CallDequeue? || call.CallPeek?
    ensures var b := Step(s, call).0;
            var es, c := ConsumerEvents(Trace(b, acts)), Exec(b, acts).c;
            && (if Result(c).None? then es == [] else |es| == 1 && Witnesses(es[0], Result(c).value))
            && (call.CallDequeue? && call.dop.WaitDequeue? ==> c != Completed(None))
  {
    ConsumerEffectOnce(Step(s, call).0, acts);
    if call.CallDequeue? && call.dop.WaitDequeue? { WaitDequeueGoesOn(Step(s, call).0, acts); }
  }

  // ---------------------------------------------------------------------------------------------
  // Cells

  /** In every reachable state the constructed cells are exactly those of the unbounded indices
      between the ends of the live range, and at most `maxcap` of them. */
  lemma ConstructedCells<T>(maxcap: nat, mask: nat, acts: seq<Action<T>>)
    requires 1 <= maxcap <= SSIZE_MAX && IsMask(mask) && maxcap <= mask + 1
    ensures var s := Exec(Start(maxcap, mask), acts);
            && |s.cells| == mask + 1
            && First(s) <= Last(s) <= First(s) + maxcap
            && forall j :: 0 <= j < |s.cells| ==>
                 (!s.cells[j].Raw? <==> exists k :: First(s) <= k < Last(s) && k % |s.cells| == j)
  {
    StartInv<T>(maxcap, mask);
    RunInv(Start(maxcap, mask), acts);
    var s := Exec(Start(maxcap, mask), acts);
    ExecKeepsSize(Start<T>(maxcap, mask), acts);
    LiveRange(s);
    forall j | 0 <= j < |s.cells|
      ensures !s.cells[j].Raw? <==> exists k :: First(s) <= k < Last(s) && k % |s.cells| == j
    {
      ConstructedCell(s, j);
    }
  }

  lemma {:induction false} ExecKeepsSize<T>(s: State<T>, acts: seq<Action<T>>)
    ensures |Exec(s, acts).cells| == |s.cells|
    decreases |acts|
  {
    if acts != [] { ExecKeepsSize(Step(s, acts[0]).0, acts[1..]); }
  }

  lemma LiveRange<T>(s: State<T>)
    requires Inv(s)
    ensures First(s) <= Last(s) <= First(s) + s.maxcap
  {
  }

  lemma ConstructedCell<T>(s: State<T>, j: nat)
    requires Cells(s) && j < |s.cells| && Last(s) <= First(s) + |s.cells|
    ensures !s.cells[j].Raw? <==> exists k :: First(s) <= k < Last(s) && k % |s.cells| == j
  {
    var n := |s.cells|;
    IndexOfProps(First(s), n, j);
    forall k | First(s) <= k < Last(s) && k % n == j ensures k == IndexOf(First(s), n, j) {
      IndexOfUnique(First(s), n, k);
    }
  }

  function ProducerTarget<T>(s: State<T>): Option<nat> {
    if s.p.Constructing? then Some(And(s.p.i, s.mask)) else None
  }

  function ConsumerTarget<T>(s: State<T>): Option<nat> {
    match s.c
    case Moving(i) => Some(And(i, s.mask))
    case Destroying(i, _) => Some(And(i, s.mask))
    case PeekRead => Some(And(s.nextItem, s.mask))
    case _ => None
  }

  /** No reachable state has both threads about to touch one cell. */
  lemma RaceFree<T>(maxcap: nat, mask: nat, acts: seq<Action<T>>)
    requires 1 <= maxcap <= SSIZE_MAX && IsMask(mask) && maxcap <= mask + 1
    ensures var s := Exec(Start(maxcap, mask), acts);
            ProducerTarget(s).Some? && ConsumerTarget(s).Some? ==> ProducerTarget(s) != ConsumerTarget(s)
  {
    StartInv<T>(maxcap, mask);
    RunInv(Start(maxcap, mask), acts);
    var s := Exec(Start(maxcap, mask), acts);
    Address(s, |s.enqueued|);
    Address(s, |s.dequeued|);
    if ProducerTarget(s).Some? && ConsumerTarget(s).Some? {
      ModDistinct(|s.dequeued|, |s.enqueued|, |s.cells|);
    }
  }

  // ---------------------------------------------------------------------------------------------
  // The buffer object

  lemma SignalEffect<T>(s: State<T>)
    requires Inv(s) && s.p.Signalling?
    ensures ProducerStep(s, false)
         == (s.(items := s.items.(count := s.items.count + 1),
                p := if s.items.count < 0 then Posting else Finished(true),
                enqueued := s.enqueued + [s.p.x]), Enqueued(s.p.x))
  {
    SignalsFit(s);
  }

  lemma ReleaseEffect<T>(s: State<T>)
    requires Inv(s) && s.c.Releasing?
    ensures ConsumerStep(s, false)
         == (s.(slots := s.slots.(count := s.slots.count + 1),
                c := if s.slots.count < 0 then Waking(s.c.v) else Completed(Some(s.c.v)),
                dequeued := s.dequeued + [s.c.v]), Dequeued(s.c.v))
  {
    SignalsFit(s);
  }

  /** The state after the slot of a consumer that releases it has been given back. */
  function SlotGivenBack<T>(s: State<T>): State<T>
    requires s.c.Releasing?
  {
    s.(slots := s.slots.(count := s.slots.count + 1),
       c := if s.slots.count < 0 then Waking(s.c.v) else Completed(Some(s.c.v)),
       dequeued := s.dequeued + [s.c.v])
  }

  lemma ReleaseResult<T>(s: State<T>)
    requires Inv(s) && s.c.Releasing?
    ensures ConsumerStep(s, false) == (SlotGivenBack(s), Dequeued(s.c.v)) && Inv(SlotGivenBack(s))
  {
    ReleaseRefines(s, false);
    ReleaseEffect(s);
  }

  lemma QueueExtended<T>(s: State<T>, s': State<T>, x: T)
    requires Contents(s) && s'.enqueued == s.enqueued + [x] && s'.dequeued == s.dequeued
    ensures |s'.dequeued| <= |s'.enqueued| && Queue(s') == Queue(s) + [x]
  {
  }

  lemma QueueAdvanced<T>(s: State<T>, s': State<T>, v: T)
    requires Contents(s) && Contents(s') && s'.enqueued == s.enqueued && s'.dequeued == s.dequeued + [v]
    ensures Queue(s) != [] && v == Queue(s)[0] && Queue(s') == Queue(s)[1..]
  {
    assert s'.dequeued[|s.dequeued|] == s'.enqueued[|s.dequeued|];
  }

  predicate ForConsumer<T>(env: seq<Action<T>>) {
    forall i :: 0 <= i < |env| ==> env[i].CallDequeue? || env[i].CallPeek? || env[i].ConsumerMove?
  }

  predicate ForProducer<T>(env: seq<Action<T>>) {
    forall i :: 0 <= i < |env| ==> env[i].CallEnqueue? || env[i].ProducerMove?
  }

  lemma OldestTaken<T>(s: State<T>, s': State<T>, v: T)
    requires Inv(s) && Inv(s') && s.c.Advancing? && s.enqueued <= s'.enqueued
    requires s'.dequeued == s.dequeued + [v]
    ensures Queue(s) != [] && v == Queue(s)[0]
  {
    assert s'.dequeued[|s.dequeued|] == s'.enqueued[|s.dequeued|];
  }

  class CircularBuffer<T> {
    const maxcap: nat
    const mask: nat
    const data: array<Cell<T>>
    var slots: Sem
    var items: Sem
    var nextSlot: nat
    var nextItem: nat
    var p: Producer<T>
    var c: Consumer<T>
    ghost var enqueued: seq<T>
    ghost var dequeued: seq<T>

    ghost function Abs(): State<T>
      reads this, data
    {
      State(maxcap, mask, slots, items, nextSlot, nextItem, data[..], p, c, enqueued, dequeued, false)
    }

    constructor (capacity: nat)
      requires 1 <= capacity <= SSIZE_MAX
      ensures Abs() == Start(capacity, mask)
      ensures IsMask(mask) && LeastPow2AtLeast(mask + 1, capacity) && mask + 1 < WORD
      ensures fresh(data)
    {
      var m, n := RoundUpMask(capacity);
      RoundedFits(m + 1, capacity);
      maxcap, mask := capacity, m;
      data := new Cell<T>[n](_ => Raw);
      slots, items := Sem(capacity, 0), Sem(0, 0);
      nextSlot, nextItem := 0, 0;
      p, c := Resting, Idling;
      enqueued, dequeued := [], [];
      new;
      assert data[..] == Start<T>(capacity, m).cells;
    }

    /** `std::size_t i = nextSlot++` */
    method ClaimSlot()
      requires Inv(Abs()) && p.Claiming?
      modifies this
      ensures (Abs(), Quiet) == ProducerStep(old(Abs()), false) && Inv(Abs())
      ensures p.Constructing? && p.x == old(p.x) && c == old(c)
      ensures enqueued == old(enqueued) && dequeued == old(dequeued)
    {
      ClaimRefines(Abs(), false);
      p := Constructing(p.x, nextSlot);
      nextSlot := (nextSlot + 1) % WORD;
    }

    /** `new(data + (i & mask)) T(item)` */
    method ConstructElement()
      requires Inv(Abs()) && p.Constructing?
      modifies this, data
      ensures (Abs(), Quiet) == ProducerStep(old(Abs()), false) && Inv(Abs())
      ensures p == Signalling(old(p.x)) && c == old(c) && enqueued == old(enqueued) && dequeued == old(dequeued)
    {
      ghost var s := Abs();
      ConstructRefines(s, false);
      ConstructEffect(s, false);
      Address(s, |enqueued|);
      data[And(p.i, mask)] := Live(p.x);
      p := Signalling(p.x);
      assert data[..] == s.cells[And(s.p.i, mask) := Live(s.p.x)];
    }

    /** `items->signal()` up to its kernel post. */
    method SignalItem()
      requires Inv(Abs()) && p.Signalling?
      modifies this
      ensures (Abs(), Enqueued(old(p.x))) == ProducerStep(old(Abs()), false) && Inv(Abs())
      ensures (p == Posting || p == Finished(true)) && c == old(c)
      ensures enqueued == old(enqueued + [p.x]) && dequeued == old(dequeued)
    {
      SignalRefines(Abs(), false);
      SignalEffect(Abs());
      var oldCount := items.count;
      items := items.(count := oldCount + 1);
      enqueued := enqueued + [p.x];
      p := if oldCount < 0 then Posting else Finished(true);
    }

    method PostItem()
      requires Inv(Abs()) && p.Posting?
      modifies this
      ensures (Abs(), Quiet) == ProducerStep(old(Abs()), false) && Inv(Abs())
      ensures p == Finished(true) && c == old(c) && enqueued == old(enqueued) && dequeued == old(dequeued)
    {
      PostRefines(Abs(), false);
      items := items.(kernel := items.kernel + 1);
      p := Finished(true);
    }

    /** `inner_enqueue`, with the consumer thread running between any two of its operations: the
        element is enqueued, once, and nothing else is. */
    method InnerEnqueue(first: seq<Action<T>>, second: seq<Action<T>>, third: seq<Action<T>>)
      requires Inv(Abs()) && p.Claiming? && ForConsumer(first) && ForConsumer(second) && ForConsumer(third)
      modifies this, data
      ensures Inv(Abs()) && p == Finished(true) && enqueued == old(enqueued) + [old(p.x)]
      ensures first == second == third == [] ==>
                c == old(c) && Queue(Abs()) == Queue(old(Abs())) + [old(p.x)]
    {
      ClaimSlot();
      ConsumerRuns(first);
      ConstructElement();
      ConsumerRuns(second);
      SignalItem();
      ConsumerRuns(third);
      if p.Posting? { PostItem(); }
      if first == second == third == [] { QueueExtended(old(Abs()), Abs(), old(p.x)); }
    }

    /** `std::size_t i = nextItem++` */
    method ClaimItem()
      requires Inv(Abs()) && c.Advancing?
      modifies this
      ensures (Abs(), Quiet) == ConsumerStep(old(Abs()), false) && Inv(Abs())
      ensures (c.Moving? || (c.Destroying? && c.moved.None?)) && p == old(p)
      ensures enqueued == old(enqueued) && dequeued == old(dequeued)
    {
      AdvanceRefines(Abs(), false);
      c := if c.op.TryPop? then Destroying(nextItem, None) else Moving(nextItem);
      nextItem := (nextItem + 1) % WORD;
    }

    /** `item = std::move(element)` */
    method MoveElement()
      requires Inv(Abs()) && c.Moving?
      modifies this, data
      ensures (Abs(), Quiet) == ConsumerStep(old(Abs()), false) && Inv(Abs())
      ensures c.Destroying? && p == old(p) && enqueued == old(enqueued) && dequeued == old(dequeued)
    {
      ghost var s := Abs();
      MoveRefines(s, false);
      OldestCell(s);
      var j := And(c.i, mask);
      c := Destroying(c.i, Some(data[j].value));
      data[j] := MovedFrom;
      assert data[..] == s.cells[j := MovedFrom];
    }

    /** `element.~T()` */
    method DestroyElement()
      requires Inv(Abs()) && c.Destroying?
      modifies this, data
      ensures (Abs(), Quiet) == ConsumerStep(old(Abs()), false) && Inv(Abs())
      ensures c.Releasing? && p == old(p) && enqueued == old(enqueued) && dequeued == old(dequeued)
    {
      ghost var s := Abs();
      DestroyRefines(s, false);
      OldestCell(s);
      var j := And(c.i, mask);
      c := Releasing(if c.moved.Some? then c.moved.value else data[j].value);
      data[j] := Raw;
      assert data[..] == s.cells[j := Raw];
    }

    method GiveSlot()
      requires c.Releasing?
      modifies this`slots, this`dequeued, this`c
      ensures Abs() == SlotGivenBack(old(Abs()))
      ensures c == Waking(old(c.v)) || c == Completed(Some(old(c.v)))
      ensures dequeued == old(dequeued) + [old(c.v)]
    {
      var oldCount := slots.count;
      slots := slots.(count := oldCount + 1);
      dequeued := dequeued + [c.v];
      c := if oldCount < 0 then Waking(c.v) else Completed(Some(c.v));
    }

    /** `slots_->signal()` up to its kernel post. */
    method SignalSlot()
      requires Inv(Abs()) && c.Releasing?
      modifies this
      ensures (Abs(), Dequeued(old(c.v))) == ConsumerStep(old(Abs()), false) && Inv(Abs())
      ensures (c == Waking(old(c.v)) || c == Completed(Some(old(c.v)))) && p == old(p)
      ensures enqueued == old(enqueued) && dequeued == old(dequeued) + [old(c.v)]
    {
      ReleaseResult(Abs());
      GiveSlot();
    }

    method PostSlot()
      requires Inv(Abs()) && c.Waking?
      modifies this
      ensures (Abs(), Quiet) == ConsumerStep(old(Abs()), false) && Inv(Abs())
      ensures c == Completed(Some(old(c.v))) && p == old(p) && enqueued == old(enqueued) && dequeued == old(dequeued)
    {
      WakeRefines(Abs(), false);
      slots := slots.(kernel := slots.kernel + 1);
      c := Completed(Some(c.v));
    }

    /** `inner_dequeue` and `inner_pop`, with the producer thread running between any two of their
        operations: the element that was the oldest at the start is dequeued, once, and nothing else is. */
    method InnerDequeue(first: seq<Action<T>>, second: seq<Action<T>>, third: seq<Action<T>>, fourth: seq<Action<T>>)
      requires Inv(Abs()) && c.Advancing?
      requires ForProducer(first) && ForProducer(second) && ForProducer(third) && ForProducer(fourth)
      modifies this, data
      ensures Inv(Abs()) && Inv(old(Abs())) && Queue(old(Abs())) != []
      ensures c == Completed(Some(Queue(old(Abs()))[0]))
      ensures dequeued == old(dequeued) + [Queue(old(Abs()))[0]]
      ensures first == second == third == fourth == [] ==> p == old(p) && Queue(Abs()) == Queue(old(Abs()))[1..]
    {
      TakeOut(first, second);
      GiveBack(third, fourth);
      ghost var v := dequeued[|old(dequeued)|];
      OldestTaken(old(Abs()), Abs(), v);
      if first == second == third == fourth == [] { QueueAdvanced(old(Abs()), Abs(), v); }
    }

    /** The first half: the element leaves its cell. */
    method TakeOut(first: seq<Action<T>>, second: seq<Action<T>>)
      requires Inv(Abs()) && c.Advancing? && ForProducer(first) && ForProducer(second)
      modifies this, data
      ensures Inv(Abs()) && c.Releasing? && dequeued == old(dequeued) && old(enqueued) <= enqueued
      ensures first == second == [] ==> p == old(p) && enqueued == old(enqueued)
    {
      ClaimItem();
      ProducerRuns(first);
      if c.Moving? { MoveElement(); }
      ProducerRuns(second);
      DestroyElement();
    }

    /** The second half: the slot is given back. */
    method GiveBack(third: seq<Action<T>>, fourth: seq<Action<T>>)
      requires Inv(Abs()) && c.Releasing? && ForProducer(third) && ForProducer(fourth)
      modifies this, data
      ensures Inv(Abs()) && c == Completed(Some(old(c.v))) && dequeued == old(dequeued) + [old(c.v)]
      ensures old(enqueued) <= enqueued
      ensures third == fourth == [] ==> p == old(p) && enqueued == old(enqueued)
    {
      ProducerRuns(third);
      SignalSlot();
      ProducerRuns(fourth);
      if c.Waking? { PostSlot(); }
    }

    /** The consumer's waiting, looking and calling. */
    method ConsumerControl(a: Action<T>)
      requires Inv(Abs()) && (a.CallDequeue? || a.CallPeek? || a.ConsumerMove?)
      requires a.ConsumerMove? ==> c.Obtaining? || c.PeekLoad? || c.PeekRead? || c.Idling? || c.Completed?
      modifies this
      ensures Abs() == Step(old(Abs()), a).0 && Inv(Abs())
      ensures p == old(p) && enqueued == old(enqueued) && old(dequeued) <= dequeued
    {
      StepRefines(Abs(), a);
      ghost var s := Step(Abs(), a).0;
      match a {
        case CallDequeue(op) =>
          if c.Idling? || c.Completed? { c := Obtaining(op, TryLoad(DequeueMode(op))); }
        case CallPeek =>
          if c.Idling? || c.Completed? { c := PeekLoad; }
        case ConsumerMove(take) =>
          if c.Obtaining? {
            var op := c.op;
            var (sem, w) := WaiterStep(items, c.w, take);
            items := sem;
            c := if w == Returned(true) then Advancing(op)
                 else if w != Returned(false) then Obtaining(op, w)
                 else if op.WaitDequeue? then Obtaining(op, TryLoad(DequeueMode(op)))
                 else Completed(None);
          } else if c.PeekLoad? {
            c := if AvailableApprox(items) == 0 then Completed(None) else PeekRead;
          } else if c.PeekRead? {
            PeekElement();
          }
      }
    }

    /** `*peek()` */
    method PeekElement()
      requires Inv(Abs()) && c.PeekRead?
      modifies this
      ensures Abs() == ConsumerStep(old(Abs()), false).0 && Inv(Abs())
      ensures Queue(Abs()) != [] && c == Completed(Some(Queue(Abs())[0]))
      ensures p == old(p) && enqueued == old(enqueued) && dequeued == old(dequeued)
    {
      PeekRefines(Abs(), false);
      PeekEffect(Abs(), false);
      OldestCell(Abs());
      c := Completed(Some(data[And(nextItem, mask)].value));
    }

    method ConsumerAct(a: Action<T>)
      requires Inv(Abs()) && (a.CallDequeue? || a.CallPeek? || a.ConsumerMove?)
      modifies this, data
      ensures Abs() == Step(old(Abs()), a).0 && Inv(Abs())
      ensures p == old(p) && enqueued == old(enqueued)
    {
      if !a.ConsumerMove? || !(c.Advancing? || c.Moving? || c.Destroying? || c.Releasing? || c.Waking?) {
        ConsumerControl(a);
      } else if c.Advancing? {
        ClaimItem();
      } else if c.Moving? {
        MoveElement();
      } else if c.Destroying? {
        DestroyElement();
      } else if c.Releasing? {
        SignalSlot();
      } else {
        PostSlot();
      }
    }

    /** The consumer thread performs these actions. */
    method ConsumerRuns(env: seq<Action<T>>)
      requires Inv(Abs()) && ForConsumer(env)
      modifies this, data
      ensures Abs() == Exec(old(Abs()), env) && Inv(Abs())
      ensures p == old(p) && enqueued == old(enqueued)
    {
      var rest := env;
      while rest != []
        invariant ForConsumer(rest) && Inv(Abs())
        invariant Exec(Abs(), rest) == Exec(old(Abs()), env)
        invariant p == old(p) && enqueued == old(enqueued)
        decreases |rest|
      {
        ConsumerAct(rest[0]);
        rest := rest[1..];
      }
    }

    /** The producer's waiting and calling. */
    method ProducerControl(a: Action<T>)
      requires Inv(Abs()) && (a.CallEnqueue? || a.ProducerMove?)
      requires a.ProducerMove? ==> p.Acquiring? || p.Resting? || p.Finished?
      modifies this
      ensures Abs() == Step(old(Abs()), a).0 && Inv(Abs())
      ensures c == old(c) && dequeued == old(dequeued) && enqueued == old(enqueued)
    {
      StepRefines(Abs(), a);
      match a {
        case CallEnqueue(op, x) =>
          if p.Resting? || p.Finished? { p := Acquiring(op, x, TryLoad(EnqueueMode(op))); }
        case ProducerMove(take) =>
          if p.Acquiring? {
            var op, x := p.op, p.x;
            var (sem, w) := WaiterStep(slots, p.w, take);
            slots := sem;
            p := if w == Returned(true) then Claiming(x)
                 else if w != Returned(false) then Acquiring(op, x, w)
                 else if op.WaitEnqueue? then Acquiring(op, x, TryLoad(EnqueueMode(op)))
                 else Finished(false);
          }
      }
    }

    method ProducerAct(a: Action<T>)
      requires Inv(Abs()) && (a.CallEnqueue? || a.ProducerMove?)
      modifies this, data
      ensures Abs() == Step(old(Abs()), a).0 && Inv(Abs())
      ensures c == old(c) && dequeued == old(dequeued) && old(enqueued) <= enqueued
    {
      if a.CallEnqueue? || p.Acquiring? || p.Resting? || p.Finished? {
        ProducerControl(a);
      } else if p.Claiming? {
        ClaimSlot();
      } else if p.Constructing? {
        ConstructElement();
      } else if p.Signalling? {
        SignalItem();
      } else {
        PostItem();
      }
    }

    /** The producer thread performs these actions. */
    method ProducerRuns(env: seq<Action<T>>)
      requires Inv(Abs()) && ForProducer(env)
      modifies this, data
      ensures Abs() == Exec(old(Abs()), env) && Inv(Abs())
      ensures c == old(c) && dequeued == old(dequeued) && old(enqueued) <= enqueued
    {
      var rest := env;
      while rest != []
        invariant ForProducer(rest) && Inv(Abs())
        invariant Exec(Abs(), rest) == Exec(old(Abs()), env)
        invariant c == old(c) && dequeued == old(dequeued) && old(enqueued) <= enqueued
        decreases |rest|
      {
        ProducerAct(rest[0]);
        rest := rest[1..];
      }
    }

    /** One pass of the destructor's loop: `~T` runs on the oldest element that is left. */
    method DestroyOne(ghost s: State<T>, d: nat)
      requires Quiescent(s) && nextItem == s.nextItem && mask == s.mask
      requires PartlyDestroyed(s, data[..], d) && |s.dequeued| + d < |s.enqueued|
      modifies data
      ensures PartlyDestroyed(s, data[..], d + 1)
    {
      var j := And((nextItem + d) % WORD, mask);
      ghost var before := data[..];
      DestroyNext(s, before, d);
      assert before[j] == Live(s.enqueued[|s.dequeued| + d]);
      data[j] := Raw;
      assert data[..] == before[j := Raw];
    }

    /** The destructor, called while neither thread is inside an operation: it destroys the elements
        still stored, each of them once, and nothing else. */
    method Destroy() returns (destroyed: nat)
      requires Quiescent(Abs())
      modifies data
      ensures destroyed == |Queue(old(Abs()))|
      ensures forall j :: 0 <= j < data.Length ==> data[j] == Raw
    {
      ghost var s := Abs();
      var n := AvailableApprox(items);
      DestroyBegins(s);
      destroyed := 0;
      while destroyed != n
        invariant 0 <= destroyed <= n
        invariant PartlyDestroyed(s, data[..], destroyed)
      {
        DestroyOne(s, destroyed);
        destroyed := destroyed + 1;
      }
      DestroyEnds(s, data[..]);
      assert forall j :: 0 <= j < data.Length ==> data[j] == data[..][j];
    }
  }

  /** A capacity that fits a signed counter is rounded to a power of two that fits a word. */
  lemma RoundedFits(p: nat, capacity: nat)
    requires LeastPow2AtLeast(p, capacity) && capacity <= SSIZE_MAX
    ensures p < WORD
  {
    WordIsPow2();
    assert Pow2(64) == 2 * Pow2(63);
  }

  ghost predicate Quiescent<T>(s: State<T>) {
    Inv(s) && (s.p.Resting? || s.p.Finished?) && (s.c.Idling? || s.c.Completed?)
  }

  /** The cells of the quiescent state `s` once the destructor has run on its `d` oldest elements. */
  ghost predicate PartlyDestroyed<T>(s: State<T>, cells: seq<Cell<T>>, d: nat) {
    && |cells| == |s.cells| > 0
    && forall j: nat :: j < |cells| ==>
         cells[j] == if IndexOf(|s.dequeued|, |cells|, j) < |s.dequeued| + d then Raw else s.cells[j]
  }

  lemma DestroyBegins<T>(s: State<T>)
    requires Quiescent(s)
    ensures |s.dequeued| + AvailableApprox(s.items) == |s.enqueued|
    ensures PartlyDestroyed(s, s.cells, 0)
  {
    forall j: nat | j < |s.cells| ensures IndexOf(|s.dequeued|, |s.cells|, j) >= |s.dequeued| {
      IndexOfProps(|s.dequeued|, |s.cells|, j);
    }
  }

  lemma NextItem<T>(s: State<T>, d: nat)
    requires Counters(s) && (s.c.Idling? || s.c.Completed?)
    ensures (s.nextItem + d) % WORD == (|s.dequeued| + d) % WORD
  {
    WrapAdd(|s.dequeued|, d);
  }

  lemma DestroyTarget<T>(s: State<T>, d: nat)
    requires Quiescent(s) && |s.dequeued| + d < |s.enqueued|
    ensures And((s.nextItem + d) % WORD, s.mask) == (|s.dequeued| + d) % |s.cells| < |s.cells|
    ensures |s.enqueued| <= |s.dequeued| + |s.cells|
    ensures s.cells[(|s.dequeued| + d) % |s.cells|] == CellAt(s, (|s.dequeued| + d) % |s.cells|)
  {
    NextItem(s, d);
    Address(s, |s.dequeued| + d);
    QueueFits(s);
  }

  lemma DestroyCell<T>(s: State<T>, cells: seq<Cell<T>>, d: nat, j: nat)
    requires PartlyDestroyed(s, cells, d) && j == (|s.dequeued| + d) % |cells| && d < |cells|
    ensures j < |cells| && IndexOf(|s.dequeued|, |cells|, j) == |s.dequeued| + d
    ensures PartlyDestroyed(s, cells[j := Raw], d + 1)
  {
    var lo, n := |s.dequeued|, |cells|;
    IndexOfUnique(lo, n, lo + d);
    forall i: nat | i < n && i != j ensures IndexOf(lo, n, i) != lo + d {
      IndexOfProps(lo, n, i);
    }
  }

  lemma DestroyNext<T>(s: State<T>, cells: seq<Cell<T>>, d: nat)
    requires Quiescent(s) && PartlyDestroyed(s, cells, d) && |s.dequeued| + d < |s.enqueued|
    ensures var j := And((s.nextItem + d) % WORD, s.mask);
            && j < |cells|
            && cells[j] == Live(s.enqueued[|s.dequeued| + d])
            && PartlyDestroyed(s, cells[j := Raw], d + 1)
  {
    DestroyTarget(s, d);
    DestroyCell(s, cells, d, (|s.dequeued| + d) % |cells|);
  }

  lemma DestroyEnds<T>(s: State<T>, cells: seq<Cell<T>>)
    requires Quiescent(s) && |s.dequeued| <= |s.enqueued|
    requires PartlyDestroyed(s, cells, |s.enqueued| - |s.dequeued|)
    ensures forall j :: 0 <= j < |cells| ==> cells[j] == Raw
  {
    forall j: nat | j < |cells| ensures cells[j] == Raw {
      assert s.cells[j] == CellAt(s, j);
    }
  }
}
