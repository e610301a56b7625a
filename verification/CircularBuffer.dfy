/** `BlockingReaderWriterCircularBuffer`: one producer and one consumer thread over a ring of raw
    cells and two lightweight semaphores. Every atomic operation, every cell operation and every
    update of a private counter is one step, taken by either thread in any order. */
module CircularBuffers {
  import opened Options
  import opened Words
  import opened LightweightSemaphores

  /** A cell holds raw memory, an element, or an element that has been moved from. */
  datatype Cell<+T> = Raw | Live(value: T) | MovedFrom

  datatype EnqueueOp = TryEnqueue | WaitEnqueue | WaitEnqueueTimed(timeout: Timeout)

  datatype DequeueOp = TryDequeue | WaitDequeue | WaitDequeueTimed(timeout: Timeout) | TryPop

  /** The producer's next step. `Claiming` is `nextSlot++`. */
  datatype Producer<+T> =
    | Resting
    | Acquiring(op: EnqueueOp, x: T, w: Waiter)
    | Claiming(x: T)
    | Constructing(x: T, i: nat)
    | Signalling(x: T)
    | Posting
    | Finished(ok: bool)

  /** The consumer's next step. `moved` is the element already moved out of the cell, if any. */
  datatype Consumer<+T> =
    | Idling
    | Obtaining(op: DequeueOp, w: Waiter)
    | Advancing(op: DequeueOp)
    | Moving(i: nat)
    | Destroying(i: nat, moved: Option<T>)
    | Releasing(v: T)
    | Waking(v: T)
    | PeekLoad
    | PeekRead
    | Completed(result: Option<T>)

  /** `enqueued` and `dequeued` record the elements whose operations have taken effect. `fault`
      records a step that C++ leaves undefined or that an assertion forbids. */
  datatype State<T> = State(
    maxcap: nat, mask: nat, slots: Sem, items: Sem, nextSlot: nat, nextItem: nat,
    cells: seq<Cell<T>>, p: Producer<T>, c: Consumer<T>,
    enqueued: seq<T>, dequeued: seq<T>, fault: bool)

  /** What a step makes visible of the abstract queue. */
  datatype Event<+T> = Quiet | Enqueued(x: T) | FoundFull | Dequeued(v: T) | FoundEmpty | Peeked(v: T)

  datatype Action<+T> =
    | CallEnqueue(eop: EnqueueOp, x: T)
    | ProducerMove(take: bool)
    | CallDequeue(dop: DequeueOp)
    | CallPeek
    | ConsumerMove(take: bool)

  function EnqueueMode(op: EnqueueOp): Mode {
    match op
    case TryEnqueue => Try
    case WaitEnqueue => Wait(Forever)
    case WaitEnqueueTimed(t) => Wait(t)
  }

  function DequeueMode(op: DequeueOp): Mode {
    match op
    case TryDequeue => Try
    case TryPop => Try
    case WaitDequeue => Wait(Forever)
    case WaitDequeueTimed(t) => Wait(t)
  }

  const SSIZE_MAX: nat := 0x7fff_ffff_ffff_ffff

  /** `signal()` may add one to this count: the assertion on the old count holds and the signed
      counter does not overflow. */
  predicate MaySignal(s: Sem) {
    -1 <= s.count < SSIZE_MAX
  }

  function Start<T>(maxcap: nat, mask: nat): State<T> {
    State(maxcap, mask, Sem(maxcap, 0), Sem(0, 0), 0, 0, seq(mask + 1, _ => Raw), Resting, Idling, [], [], false)
  }

  function Step<T>(s: State<T>, a: Action<T>): (State<T>, Event<T>) {
    if s.fault then (s, Quiet) else
    match a
    case CallEnqueue(op, x) =>
      (if s.p.Resting? || s.p.Finished? then s.(p := Acquiring(op, x, TryLoad(EnqueueMode(op)))) else s, Quiet)
    case CallDequeue(op) =>
      (if s.c.Idling? || s.c.Completed? then s.(c := Obtaining(op, TryLoad(DequeueMode(op)))) else s, Quiet)
    case CallPeek =>
      (if s.c.Idling? || s.c.Completed? then s.(c := PeekLoad) else s, Quiet)
    case ProducerMove(take) => ProducerStep(s, take)
    case ConsumerMove(take) => ConsumerStep(s, take)
  }

  /** The producer's wait for a slot has come to `w`. */
  function AfterSlotWait<T>(s: State<T>, op: EnqueueOp, x: T, slots: Sem, w: Waiter): (State<T>, Event<T>) {
    if w == Returned(true) then (s.(slots := slots, p := Claiming(x)), Quiet)
    else if w != Returned(false) then (s.(slots := slots, p := Acquiring(op, x, w)), Quiet)
    else if op.WaitEnqueue? then (s.(slots := slots, p := Acquiring(op, x, TryLoad(EnqueueMode(op)))), Quiet)
    else (s.(slots := slots, p := Finished(false)), FoundFull)
  }

  /** The consumer's wait for an element has come to `w`. */
  function AfterItemWait<T>(s: State<T>, op: DequeueOp, items: Sem, w: Waiter): (State<T>, Event<T>) {
    if w == Returned(true) then (s.(items := items, c := Advancing(op)), Quiet)
    else if w != Returned(false) then (s.(items := items, c := Obtaining(op, w)), Quiet)
    else if op.WaitDequeue? then (s.(items := items, c := Obtaining(op, TryLoad(DequeueMode(op)))), Quiet)
    else (s.(items := items, c := Completed(None)), FoundEmpty)
  }

  function ProducerStep<T>(s: State<T>, take: bool): (State<T>, Event<T>) {
    match s.p
    case Resting => (s, Quiet)
    case Acquiring(op, x, w) =>
      var (slots, w') := WaiterStep(s.slots, w, take);
      AfterSlotWait(s, op, x, slots, w')
    case Claiming(x) =>
      (s.(nextSlot := (s.nextSlot + 1) % WORD, p := Constructing(x, s.nextSlot)), Quiet)
    case Constructing(x, i) =>
      var j := And(i, s.mask);
      if j < |s.cells| && s.cells[j].Raw? then (s.(cells := s.cells[j := Live(x)], p := Signalling(x)), Quiet)
      else (s.(fault := true), Quiet)
    case Signalling(x) =>
      var (items, posting) := SignalStep(s.items, false);
      if MaySignal(s.items) then
        (s.(items := items, p := if posting then Posting else Finished(true), enqueued := s.enqueued + [x]),
         Enqueued(x))
      else (s.(fault := true), Quiet)
    case Posting => (s.(items := SignalStep(s.items, true).0, p := Finished(true)), Quiet)
    case Finished(_) => (s, Quiet)
  }

  function ConsumerStep<T>(s: State<T>, take: bool): (State<T>, Event<T>) {
    match s.c
    case Idling => (s, Quiet)
    case Obtaining(op, w) =>
      var (items, w') := WaiterStep(s.items, w, take);
      AfterItemWait(s, op, items, w')
    case Advancing(op) =>
      (s.(nextItem := (s.nextItem + 1) % WORD,
          c := if op.TryPop? then Destroying(s.nextItem, None) else Moving(s.nextItem)), Quiet)
    case Moving(i) =>
      var j := And(i, s.mask);
      if j < |s.cells| && s.cells[j].Live? then
        (s.(cells := s.cells[j := MovedFrom], c := Destroying(i, Some(s.cells[j].value))), Quiet)
      else (s.(fault := true), Quiet)
    case Destroying(i, moved) =>
      var j := And(i, s.mask);
      if j >= |s.cells| then (s.(fault := true), Quiet)
      else if moved.Some? && s.cells[j].MovedFrom? then
        (s.(cells := s.cells[j := Raw], c := Releasing(moved.value)), Quiet)
      else if moved.None? && s.cells[j].Live? then
        (s.(cells := s.cells[j := Raw], c := Releasing(s.cells[j].value)), Quiet)
      else (s.(fault := true), Quiet)
    case Releasing(v) =>
      var (slots, posting) := SignalStep(s.slots, false);
      if MaySignal(s.slots) then
        (s.(slots := slots, c := if posting then Waking(v) else Completed(Some(v)), dequeued := s.dequeued + [v]),
         Dequeued(v))
      else (s.(fault := true), Quiet)
    case Waking(v) => (s.(slots := SignalStep(s.slots, true).0, c := Completed(Some(v))), Quiet)
    case PeekLoad =>
      if AvailableApprox(s.items) == 0 then (s.(c := Completed(None)), FoundEmpty) else (s.(c := PeekRead), Quiet)
    case PeekRead =>
      var j := And(s.nextItem, s.mask);
      if j < |s.cells| && s.cells[j].Live? then
        (s.(c := Completed(Some(s.cells[j].value))), Peeked(s.cells[j].value))
      else (s.(fault := true), Quiet)
    case Completed(_) => (s, Quiet)
  }

  // ---------------------------------------------------------------------------------------------
  // The invariant

  function Count(b: bool): nat { if b then 1 else 0 }

  function SlotWaiter<T>(p: Producer<T>): Waiter {
    if p.Acquiring? then p.w else Idle
  }

  function ItemWaiter<T>(c: Consumer<T>): Waiter {
    if c.Obtaining? then c.w else Idle
  }

  /** The producer holds a slot permit that it has not yet turned into an element. */
  predicate HoldsSlot<T>(p: Producer<T>) { p.Claiming? || p.Constructing? || p.Signalling? }

  /** The consumer holds an element permit that it has not yet turned into a free slot. */
  predicate HoldsItem<T>(c: Consumer<T>) { c.Advancing? || c.Moving? || c.Destroying? || c.Releasing? }

  /** The unconsumed permits of the two semaphores, read off their counts. */
  function FreeSlots<T>(s: State<T>): int {
    s.slots.count + Waiting(SlotWaiter(s.p)) - RollbackGap(SlotWaiter(s.p))
  }

  function FreeItems<T>(s: State<T>): int {
    s.items.count + Waiting(ItemWaiter(s.c)) - RollbackGap(ItemWaiter(s.c))
  }

  /** The unbounded indices of the constructed cells are `First(s) .. Last(s)`. */
  function First<T>(s: State<T>): nat { |s.dequeued| + Count(s.c.Releasing?) }

  function Last<T>(s: State<T>): nat { |s.enqueued| + Count(s.p.Signalling?) }

  /** The first index from `lo` on that falls into cell `j` of a ring of `n`. */
  function IndexOf(lo: nat, n: nat, j: nat): nat
    requires n > 0
  {
    lo + (j - lo) % n
  }

  /** What cell `j` must hold. */
  function CellAt<T>(s: State<T>, j: nat): Cell<T>
    requires |s.cells| > 0
  {
    var k := IndexOf(First(s), |s.cells|, j);
    if k >= Last(s) then Raw
    else if k == |s.dequeued| && s.c.Destroying? && s.c.moved.Some? then MovedFrom
    else if k < |s.enqueued| then Live(s.enqueued[k])
    else if s.p.Signalling? then Live(s.p.x) else Raw
  }

  ghost predicate Shape<T>(s: State<T>) {
    && !s.fault
    && 1 <= s.maxcap <= SSIZE_MAX
    && s.maxcap <= |s.cells| && |s.cells| == s.mask + 1
    && IsMask(s.mask)
  }

  ghost predicate Permits<T>(s: State<T>) {
    var size := |s.enqueued| - |s.dequeued|;
    && Accounted(s.slots, SlotWaiter(s.p), s.c.Waking?, s.maxcap - size - Count(HoldsSlot(s.p)))
    && Accounted(s.items, ItemWaiter(s.c), s.p.Posting?, size - Count(HoldsItem(s.c)))
    && !SlotWaiter(s.p).Returned? && !ItemWaiter(s.c).Returned?
  }

  ghost predicate Counters<T>(s: State<T>) {
    && s.nextSlot == (|s.enqueued| + Count(s.p.Constructing? || s.p.Signalling?)) % WORD
    && s.nextItem == (|s.dequeued| + Count(s.c.Moving? || s.c.Destroying? || s.c.Releasing?)) % WORD
    && (s.p.Constructing? ==> s.p.i == |s.enqueued| % WORD)
    && (s.c.Moving? || s.c.Destroying? ==> s.c.i == |s.dequeued| % WORD)
  }

  ghost predicate Contents<T>(s: State<T>) {
    && |s.dequeued| <= |s.enqueued| && s.dequeued == s.enqueued[..|s.dequeued|]
    && (s.c.PeekRead? ==> |s.dequeued| < |s.enqueued|)
    && (s.c.Destroying? && s.c.moved.Some? && |s.dequeued| < |s.enqueued| ==>
          s.c.moved.value == s.enqueued[|s.dequeued|])
    && (s.c.Releasing? && |s.dequeued| < |s.enqueued| ==> s.c.v == s.enqueued[|s.dequeued|])
  }

  ghost predicate Cells<T>(s: State<T>) {
    |s.cells| > 0 && forall j: nat :: j < |s.cells| ==> s.cells[j] == CellAt(s, j)
  }

  ghost predicate Core<T>(s: State<T>) {
    Shape(s) && Permits(s) && Counters(s) && Contents(s)
  }

  ghost predicate Inv<T>(s: State<T>) {
    Core(s) && Cells(s)
  }

  /** The abstract queue. */
  function Queue<T>(s: State<T>): seq<T>
    requires |s.dequeued| <= |s.enqueued|
  {
    s.enqueued[|s.dequeued|..]
  }

  /** A bounded queue of capacity `cap`: which events it allows, and what they make of it. */
  function Spec<T(==)>(cap: nat, q: seq<T>, e: Event<T>): Option<seq<T>> {
    match e
    case Quiet => Some(q)
    case Enqueued(x) => if |q| < cap then Some(q + [x]) else None
    case FoundFull => if |q| == cap then Some(q) else None
    case Dequeued(v) => if q != [] && q[0] == v then Some(q[1..]) else None
    case FoundEmpty => if q == [] then Some(q) else None
    case Peeked(v) => if q != [] && q[0] == v then Some(q) else None
  }

  lemma IndexOfProps(lo: nat, n: nat, j: nat)
    requires j < n
    ensures lo <= IndexOf(lo, n, j) < lo + n
    ensures IndexOf(lo, n, j) % n == j
  {
    var d := (j - lo) % n;
    var q := (j - lo) / n;
    assert j - lo == q * n + d;
    assert lo + d == (-q) * n + j;
    ModUnique(j, -q, n, lo + d);
  }

  lemma IndexOfUnique(lo: nat, n: nat, k: nat)
    requires n > 0 && lo <= k < lo + n
    ensures IndexOf(lo, n, k % n) == k
  {
    var i := IndexOf(lo, n, k % n);
    IndexOfProps(lo, n, k % n);
    if i < k { ModDistinct(i, k, n); }
    if k < i { ModDistinct(k, i, n); }
  }

  /** Moving the lower end past its own cell sends that cell one lap ahead, no other. */
  lemma IndexOfNext(lo: nat, n: nat, j: nat)
    requires j < n
    ensures IndexOf(lo + 1, n, j) == if j == lo % n then lo + n else IndexOf(lo, n, j)
  {
    IndexOfProps(lo, n, j);
    var k := IndexOf(lo, n, j);
    if j == lo % n {
      IndexOfUnique(lo, n, lo);
      RemainderPlusMultiple(1, lo, n);
      IndexOfUnique(lo + 1, n, lo + n);
    } else {
      IndexOfUnique(lo + 1, n, k);
    }
  }

  /** The masked word counter addresses the cell of the unbounded index. */
  lemma Address<T>(s: State<T>, i: nat)
    requires Shape(s)
    ensures And(i % WORD, s.mask) == i % |s.cells| < |s.cells|
  {
    WrappedIndex(i, s.mask);
  }

  // ---------------------------------------------------------------------------------------------
  // Every step keeps the invariant and is allowed by the abstract queue

  /** The event `e` takes the abstract queue of `s` to that of `s'`. */
  ghost predicate Allowed<T>(s: State<T>, s': State<T>, e: Event<T>) {
    && s'.maxcap == s.maxcap
    && |s.dequeued| <= |s.enqueued| && |s'.dequeued| <= |s'.enqueued|
    && Spec(s.maxcap, Queue(s), e) == Some(Queue(s'))
  }

  ghost predicate Refines<T>(s: State<T>, s': State<T>, e: Event<T>) {
    Inv(s') && Allowed(s, s', e)
  }

  /** A step that touches no cell and moves neither end of the constructed range. */
  lemma CellsKept<T>(s: State<T>, s': State<T>)
    requires Cells(s) && s'.cells == s.cells && s'.enqueued == s.enqueued && s'.dequeued == s.dequeued
    requires s'.p.Signalling? == s.p.Signalling? && (s.p.Signalling? ==> s'.p == s.p)
    requires s'.c.Releasing? == s.c.Releasing? && (s.c.Destroying? ==> s'.c == s.c)
    requires s'.c.Destroying? ==> s'.c == s.c || s'.c.moved.None?
    ensures Cells(s')
  {
    assert forall j: nat :: j < |s.cells| ==> CellAt(s', j) == CellAt(s, j);
  }

  /** The word counters only matter through the steps that hold a claimed index. */
  lemma CountersKept<T>(s: State<T>, s': State<T>)
    requires Counters(s) && s'.nextSlot == s.nextSlot && s'.nextItem == s.nextItem
    requires |s'.enqueued| + Count(s'.p.Constructing? || s'.p.Signalling?)
          == |s.enqueued| + Count(s.p.Constructing? || s.p.Signalling?)
    requires |s'.dequeued| + Count(s'.c.Moving? || s'.c.Destroying? || s'.c.Releasing?)
          == |s.dequeued| + Count(s.c.Moving? || s.c.Destroying? || s.c.Releasing?)
    requires s'.p.Constructing? ==> s'.p == s.p && s'.enqueued == s.enqueued
    requires s'.c.Moving? || s'.c.Destroying? ==> s'.c == s.c && s'.dequeued == s.dequeued
    ensures Counters(s')
  {
  }

  predicate Touching<T>(c: Consumer<T>) { c.Moving? || c.Destroying? || c.Releasing? }

  /** A step that causes no event and moves only the control of the two threads. */
  lemma ControlKept<T>(s: State<T>, s': State<T>)
    requires Shape(s) && Counters(s) && Contents(s)
    requires s'.enqueued == s.enqueued && s'.dequeued == s.dequeued && s'.cells == s.cells
    requires s'.maxcap == s.maxcap && s'.mask == s.mask && !s'.fault
    requires s'.nextSlot == s.nextSlot && s'.nextItem == s.nextItem
    requires s'.p.Constructing? == s.p.Constructing? && s'.p.Signalling? == s.p.Signalling?
    requires s'.p.Constructing? ==> s'.p == s.p
    requires Touching(s.c) || Touching(s'.c) ==> s'.c == s.c
    requires s'.c.PeekRead? ==> s'.c == s.c || |s.dequeued| < |s.enqueued|
    ensures Shape(s') && Counters(s') && Contents(s') && Allowed(s, s', Quiet)
    ensures |s.enqueued| == |s.dequeued| ==> Allowed(s, s', FoundEmpty)
    ensures |s.enqueued| - |s.dequeued| == s.maxcap ==> Allowed(s, s', FoundFull)
  {
    CountersKept(s, s');
  }

  lemma CallPermits<T>(s: State<T>, a: Action<T>)
    requires !s.fault && Permits(s) && (a.CallEnqueue? || a.CallDequeue? || a.CallPeek?)
    ensures Permits(Step(s, a).0)
  {
  }

  lemma CallCore<T>(s: State<T>, a: Action<T>)
    requires Core(s) && (a.CallEnqueue? || a.CallDequeue? || a.CallPeek?)
    ensures Core(Step(s, a).0) && Allowed(s, Step(s, a).0, Step(s, a).1)
  {
    CallPermits(s, a);
    ControlKept(s, Step(s, a).0);
  }

  lemma SlotWaitPermits<T>(s: State<T>, slots: Sem, w: Waiter)
    requires Permits(s) && s.p.Acquiring?
    requires Accounted(slots, w, s.c.Waking?,
                       s.maxcap - (|s.enqueued| - |s.dequeued|) - (if w == Returned(true) then 1 else 0))
    ensures Permits(AfterSlotWait(s, s.p.op, s.p.x, slots, w).0)
  {
  }

  lemma SlotWaitContents<T>(s: State<T>, slots: Sem, w: Waiter)
    requires Shape(s) && Counters(s) && Contents(s) && s.p.Acquiring?
    requires w == Returned(false) ==> |s.enqueued| - |s.dequeued| == s.maxcap
    ensures var (s', e) := AfterSlotWait(s, s.p.op, s.p.x, slots, w);
            Shape(s') && Counters(s') && Contents(s') && Allowed(s, s', e)
  {
    ControlKept(s, AfterSlotWait(s, s.p.op, s.p.x, slots, w).0);
  }

  lemma SlotWaitCore<T>(s: State<T>, slots: Sem, w: Waiter)
    requires Core(s) && s.p.Acquiring?
    requires Accounted(slots, w, s.c.Waking?,
                       s.maxcap - (|s.enqueued| - |s.dequeued|) - (if w == Returned(true) then 1 else 0))
    requires w == Returned(false) ==> |s.enqueued| - |s.dequeued| == s.maxcap
    ensures var (s', e) := AfterSlotWait(s, s.p.op, s.p.x, slots, w); Core(s') && Allowed(s, s', e)
  {
    SlotWaitPermits(s, slots, w);
    SlotWaitContents(s, slots, w);
  }

  lemma AcquireCore<T>(s: State<T>, take: bool)
    requires Core(s) && s.p.Acquiring?
    ensures var (s', e) := ProducerStep(s, take); Core(s') && Allowed(s, s', e)
  {
    var (slots, w) := WaiterStep(s.slots, s.p.w, take);
    WaiterStepAccounted(s.slots, s.p.w, s.c.Waking?, s.maxcap - (|s.enqueued| - |s.dequeued|), take);
    SlotWaitCore(s, slots, w);
  }

  lemma WrapNext(n: nat)
    ensures (n % WORD + 1) % WORD == (n + 1) % WORD
  {
  }

  lemma ClaimCore<T>(s: State<T>, take: bool)
    requires Core(s) && s.p.Claiming?
    ensures var (s', e) := ProducerStep(s, take); Core(s') && Allowed(s, s', e)
  {
    WrapNext(|s.enqueued|);
  }

  /** Construction hits a raw cell. */
  lemma ConstructEffect<T>(s: State<T>, take: bool)
    requires Inv(s) && s.p.Constructing?
    ensures ProducerStep(s, take)
         == (s.(cells := s.cells[|s.enqueued| % |s.cells| := Live(s.p.x)], p := Signalling(s.p.x)), Quiet)
  {
    Address(s, |s.enqueued|);
    IndexOfUnique(First(s), |s.cells|, |s.enqueued|);
    assert CellAt(s, |s.enqueued| % |s.cells|) == Raw;
  }

  lemma ConstructCells<T>(s: State<T>, s': State<T>)
    requires Cells(s) && s.p.Constructing? && s'.p == Signalling(s.p.x) && s'.c == s.c
    requires s'.enqueued == s.enqueued && s'.dequeued == s.dequeued
    requires First(s) <= |s.enqueued| < First(s) + |s.cells|
    requires s'.cells == s.cells[|s.enqueued| % |s.cells| := Live(s.p.x)]
    requires s.c.Destroying? ==> |s.dequeued| < |s.enqueued|
    ensures Cells(s')
  {
    var n, k := |s.cells|, |s.enqueued|;
    IndexOfUnique(First(s), n, k);
    forall j: nat | j < n ensures s'.cells[j] == CellAt(s', j) {
      IndexOfProps(First(s), n, j);
      if j != k % n { assert IndexOf(First(s), n, j) != k; }
    }
  }

  lemma SignalCells<T>(s: State<T>, s': State<T>)
    requires Cells(s) && s.p.Signalling? && !s'.p.Signalling?
    requires s'.cells == s.cells && s'.enqueued == s.enqueued + [s.p.x] && s'.dequeued == s.dequeued && s'.c == s.c
    ensures Cells(s')
  {
    assert forall j: nat :: j < |s.cells| ==> CellAt(s', j) == CellAt(s, j);
  }

  lemma SignalPermits<T>(s: State<T>, s': State<T>)
    requires Permits(s) && s.p.Signalling? && |s.dequeued| <= |s.enqueued|
    requires s'.slots == s.slots && s'.c == s.c && s'.maxcap == s.maxcap
    requires s'.items == SignalStep(s.items, false).0
    requires s'.p == if SignalStep(s.items, false).1 then Posting else Finished(true)
    requires |s'.enqueued| == |s.enqueued| + 1 && s'.dequeued == s.dequeued
    ensures Permits(s')
  {
    SignalStepAccounted(s.items, ItemWaiter(s.c), false,
                        |s.enqueued| - |s.dequeued| - Count(HoldsItem(s.c)));
  }

  /** The counts leave room for one more signal. */
  lemma SignalsFit<T>(s: State<T>)
    requires Shape(s) && Permits(s)
    ensures s.p.Signalling? ==> MaySignal(s.items)
    ensures s.c.Releasing? ==> MaySignal(s.slots)
  {
  }

  lemma SignalContents<T>(s: State<T>, s': State<T>, x: T)
    requires Contents(s) && s.p.Signalling? && s'.c == s.c && s'.maxcap == s.maxcap
    requires s'.enqueued == s.enqueued + [x] && s'.dequeued == s.dequeued
    requires |s.dequeued| == |s.enqueued| ==> !s.c.Destroying? && !s.c.Releasing?
    ensures Contents(s')
    ensures |s.enqueued| - |s.dequeued| < s.maxcap ==> Allowed(s, s', Enqueued(x))
  {
    assert Queue(s') == Queue(s) + [x];
    assert s'.enqueued[..|s.dequeued|] == s.enqueued[..|s.dequeued|];
  }

  lemma SignalCore<T>(s: State<T>, take: bool)
    requires Core(s) && s.p.Signalling?
    ensures var (s', e) := ProducerStep(s, take); Core(s') && Allowed(s, s', e)
    ensures var s' := ProducerStep(s, take).0;
            !s'.p.Signalling? && s'.cells == s.cells && s'.enqueued == s.enqueued + [s.p.x]
            && s'.dequeued == s.dequeued && s'.c == s.c
  {
    SignalsFit(s);
    var s' := ProducerStep(s, take).0;
    SignalPermits(s, s');
    SignalContents(s, s', s.p.x);
    CountersKept(s, s');
  }

  lemma PostPermits<T>(s: State<T>, take: bool)
    requires Permits(s) && (s.p.Posting? || s.p.Resting? || s.p.Finished?)
    ensures Permits(ProducerStep(s, take).0)
  {
  }

  lemma PostCore<T>(s: State<T>, take: bool)
    requires Core(s) && (s.p.Posting? || s.p.Resting? || s.p.Finished?)
    ensures var (s', e) := ProducerStep(s, take); Core(s') && Allowed(s, s', e)
  {
    PostPermits(s, take);
    ControlKept(s, ProducerStep(s, take).0);
  }

  lemma ItemWaitPermits<T>(s: State<T>, items: Sem, w: Waiter)
    requires Permits(s) && s.c.Obtaining?
    requires Accounted(items, w, s.p.Posting?,
                       |s.enqueued| - |s.dequeued| - (if w == Returned(true) then 1 else 0))
    ensures Permits(AfterItemWait(s, s.c.op, items, w).0)
  {
  }

  lemma ItemWaitContents<T>(s: State<T>, items: Sem, w: Waiter)
    requires Shape(s) && Counters(s) && Contents(s) && s.c.Obtaining?
    requires w == Returned(false) ==> |s.enqueued| == |s.dequeued|
    ensures var (s', e) := AfterItemWait(s, s.c.op, items, w);
            Shape(s') && Counters(s') && Contents(s') && Allowed(s, s', e)
  {
    ControlKept(s, AfterItemWait(s, s.c.op, items, w).0);
  }

  lemma ItemWaitCore<T>(s: State<T>, items: Sem, w: Waiter)
    requires Core(s) && s.c.Obtaining?
    requires Accounted(items, w, s.p.Posting?,
                       |s.enqueued| - |s.dequeued| - (if w == Returned(true) then 1 else 0))
    requires w == Returned(false) ==> |s.enqueued| == |s.dequeued|
    ensures var (s', e) := AfterItemWait(s, s.c.op, items, w); Core(s') && Allowed(s, s', e)
  {
    ItemWaitPermits(s, items, w);
    ItemWaitContents(s, items, w);
  }

  lemma ObtainCore<T>(s: State<T>, take: bool)
    requires Core(s) && s.c.Obtaining?
    ensures var (s', e) := ConsumerStep(s, take); Core(s') && Allowed(s, s', e)
  {
    var (items, w) := WaiterStep(s.items, s.c.w, take);
    WaiterStepAccounted(s.items, s.c.w, s.p.Posting?, |s.enqueued| - |s.dequeued|, take);
    ItemWaitCore(s, items, w);
  }

  lemma AdvanceCore<T>(s: State<T>, take: bool)
    requires Core(s) && s.c.Advancing?
    ensures var (s', e) := ConsumerStep(s, take); Core(s') && Allowed(s, s', e)
  {
    WrapNext(|s.dequeued|);
  }

  /** The cell of the oldest element, as the consumer meets it. */
  lemma OldestCell<T>(s: State<T>)
    requires Inv(s) && |s.dequeued| < |s.enqueued| && !s.c.Releasing?
    ensures And(|s.dequeued| % WORD, s.mask) == |s.dequeued| % |s.cells| < |s.cells|
    ensures s.cells[|s.dequeued| % |s.cells|]
         == if s.c.Destroying? && s.c.moved.Some? then MovedFrom else Live(s.enqueued[|s.dequeued|])
  {
    Address(s, |s.dequeued|);
    IndexOfUnique(First(s), |s.cells|, |s.dequeued|);
  }

  lemma MoveCells<T>(s: State<T>, s': State<T>)
    requires Cells(s) && s.c.Moving? && s'.c.Destroying? && s'.c.moved.Some? && s'.p == s.p
    requires s'.enqueued == s.enqueued && s'.dequeued == s.dequeued && |s.dequeued| < |s.enqueued|
    requires s'.cells == s.cells[|s.dequeued| % |s.cells| := MovedFrom]
    ensures Cells(s')
  {
    var n, k := |s.cells|, |s.dequeued|;
    IndexOfUnique(k, n, k);
    forall j: nat | j < n ensures s'.cells[j] == CellAt(s', j) {
      IndexOfProps(k, n, j);
      if j != k % n { assert IndexOf(k, n, j) != k; }
    }
  }

  lemma MoveCore<T>(s: State<T>, s': State<T>, j: nat)
    requires Core(s) && s.c.Moving? && j < |s.cells|
    requires s' == s.(cells := s.cells[j := MovedFrom], c := Destroying(s.c.i, Some(s.enqueued[|s.dequeued|])))
    ensures Core(s') && Allowed(s, s', Quiet)
  {
  }

  lemma MoveRefines<T>(s: State<T>, take: bool)
    requires Inv(s) && s.c.Moving?
    ensures Refines(s, ConsumerStep(s, take).0, ConsumerStep(s, take).1)
  {
    OldestCell(s);
    var s' := ConsumerStep(s, take).0;
    MoveCore(s, s', |s.dequeued| % |s.cells|);
    MoveCells(s, s');
  }

  lemma DestroyCells<T>(s: State<T>, s': State<T>)
    requires Cells(s) && s.c.Destroying? && s'.c.Releasing? && s'.p == s.p
    requires s'.enqueued == s.enqueued && s'.dequeued == s.dequeued
    requires Last(s) <= |s.dequeued| + |s.cells|
    requires s'.cells == s.cells[|s.dequeued| % |s.cells| := Raw]
    ensures Cells(s')
  {
    var n, k := |s.cells|, |s.dequeued|;
    IndexOfUnique(k, n, k);
    forall j: nat | j < n ensures s'.cells[j] == CellAt(s', j) {
      IndexOfProps(k, n, j);
      IndexOfNext(k, n, j);
      if j != k % n { assert IndexOf(k, n, j) != k; }
    }
  }

  lemma DestroyCore<T>(s: State<T>, s': State<T>, j: nat)
    requires Core(s) && s.c.Destroying? && j < |s.cells|
    requires s' == s.(cells := s.cells[j := Raw], c := Releasing(s.enqueued[|s.dequeued|]))
    ensures Core(s') && Allowed(s, s', Quiet)
    ensures Last(s) <= |s.dequeued| + |s.cells|
  {
  }

  lemma DestroyRefines<T>(s: State<T>, take: bool)
    requires Inv(s) && s.c.Destroying?
    ensures Refines(s, ConsumerStep(s, take).0, ConsumerStep(s, take).1)
  {
    OldestCell(s);
    var s' := ConsumerStep(s, take).0;
    DestroyCore(s, s', |s.dequeued| % |s.cells|);
    DestroyCells(s, s');
  }

  lemma ReleaseCells<T>(s: State<T>, s': State<T>)
    requires Cells(s) && s.c.Releasing? && !s'.c.Releasing? && !s'.c.Destroying? && s'.p == s.p
    requires s'.cells == s.cells && s'.enqueued == s.enqueued && |s'.dequeued| == |s.dequeued| + 1
    ensures Cells(s')
  {
    assert forall j: nat :: j < |s.cells| ==> CellAt(s', j) == CellAt(s, j);
  }

  lemma ReleasePermits<T>(s: State<T>, s': State<T>)
    requires Permits(s) && s.c.Releasing? && |s.dequeued| <= |s.enqueued|
    requires s'.items == s.items && s'.p == s.p && s'.maxcap == s.maxcap
    requires s'.slots == SignalStep(s.slots, false).0
    requires s'.c == if SignalStep(s.slots, false).1 then Waking(s.c.v) else Completed(Some(s.c.v))
    requires s'.enqueued == s.enqueued && |s'.dequeued| == |s.dequeued| + 1
    ensures Permits(s')
  {
    SignalStepAccounted(s.slots, SlotWaiter(s.p), false,
                        s.maxcap - (|s.enqueued| - |s.dequeued|) - Count(HoldsSlot(s.p)));
  }

  lemma ReleaseContents<T>(s: State<T>, s': State<T>)
    requires Contents(s) && s.c.Releasing? && |s.dequeued| < |s.enqueued| && s'.maxcap == s.maxcap
    requires s'.enqueued == s.enqueued && s'.dequeued == s.dequeued + [s.c.v]
    requires s'.c.Waking? || s'.c.Completed?
    ensures Contents(s') && Allowed(s, s', Dequeued(s.c.v))
  {
    assert Queue(s)[1..] == Queue(s');
  }

  lemma ReleaseCore<T>(s: State<T>, take: bool)
    requires Core(s) && s.c.Releasing?
    ensures var (s', e) := ConsumerStep(s, take); Core(s') && Allowed(s, s', e)
    ensures var s' := ConsumerStep(s, take).0;
            !s'.c.Releasing? && !s'.c.Destroying? && s'.p == s.p && s'.cells == s.cells
            && s'.enqueued == s.enqueued && s'.dequeued == s.dequeued + [s.c.v]
  {
    SignalsFit(s);
    var s' := ConsumerStep(s, take).0;
    ReleasePermits(s, s');
    ReleaseContents(s, s');
    CountersKept(s, s');
  }

  lemma WakePermits<T>(s: State<T>, take: bool)
    requires Permits(s) && (s.c.Waking? || s.c.Idling? || s.c.Completed?)
    ensures Permits(ConsumerStep(s, take).0)
  {
  }

  /** The permits do not change when no permit is held or waited for, before or after. */
  lemma FreeConsumer<T>(s: State<T>, c: Consumer<T>)
    requires Permits(s) && !s.c.Obtaining? && !HoldsItem(s.c) && !s.c.Waking?
    requires !c.Obtaining? && !HoldsItem(c) && !c.Waking?
    ensures Permits(s.(c := c))
  {
  }

  lemma PeekSees<T>(s: State<T>)
    requires Permits(s) && s.c.PeekLoad?
    ensures AvailableApprox(s.items) == 0 ==> |s.dequeued| == |s.enqueued|
    ensures AvailableApprox(s.items) > 0 ==> |s.dequeued| < |s.enqueued|
  {
    assert s.items.count == |s.enqueued| - |s.dequeued|;
  }

  lemma PeekPermits<T>(s: State<T>, take: bool)
    requires Permits(s) && s.c.PeekLoad?
    ensures Permits(ConsumerStep(s, take).0)
  {
    FreeConsumer(s, Completed(None));
    FreeConsumer(s, PeekRead);
  }

  lemma WakeCore<T>(s: State<T>, take: bool)
    requires Core(s) && (s.c.Waking? || s.c.PeekLoad? || s.c.Idling? || s.c.Completed?)
    ensures var (s', e) := ConsumerStep(s, take); Core(s') && Allowed(s, s', e)
  {
    if s.c.PeekLoad? {
      PeekSees(s);
      PeekPermits(s, take);
    } else {
      WakePermits(s, take);
    }
    ControlKept(s, ConsumerStep(s, take).0);
  }

  lemma ConstructCore<T>(s: State<T>, s': State<T>, j: nat)
    requires Core(s) && s.p.Constructing? && j < |s.cells|
    requires s' == s.(cells := s.cells[j := Live(s.p.x)], p := Signalling(s.p.x))
    ensures Core(s') && Allowed(s, s', Quiet)
    ensures First(s) <= |s.enqueued| < First(s) + |s.cells|
    ensures s.c.Destroying? ==> |s.dequeued| < |s.enqueued|
  {
  }

  lemma ConstructRefines<T>(s: State<T>, take: bool)
    requires Inv(s) && s.p.Constructing?
    ensures Refines(s, ProducerStep(s, take).0, ProducerStep(s, take).1)
  {
    ConstructEffect(s, take);
    var s' := ProducerStep(s, take).0;
    ConstructCore(s, s', |s.enqueued| % |s.cells|);
    ConstructCells(s, s');
  }

  lemma AcquireCells<T>(s: State<T>, take: bool)
    requires Cells(s) && s.p.Acquiring?
    ensures Cells(ProducerStep(s, take).0)
  {
    CellsKept(s, ProducerStep(s, take).0);
  }

  lemma AcquireRefines<T>(s: State<T>, take: bool)
    requires Inv(s) && s.p.Acquiring?
    ensures Refines(s, ProducerStep(s, take).0, ProducerStep(s, take).1)
  {
    AcquireCore(s, take);
    AcquireCells(s, take);
  }

  lemma ClaimRefines<T>(s: State<T>, take: bool)
    requires Inv(s) && s.p.Claiming?
    ensures Refines(s, ProducerStep(s, take).0, ProducerStep(s, take).1)
  {
    ClaimCore(s, take);
    CellsKept(s, ProducerStep(s, take).0);
  }

  lemma SignalRefines<T>(s: State<T>, take: bool)
    requires Inv(s) && s.p.Signalling?
    ensures Refines(s, ProducerStep(s, take).0, ProducerStep(s, take).1)
  {
    SignalCore(s, take);
    SignalCells(s, ProducerStep(s, take).0);
  }

  lemma PostRefines<T>(s: State<T>, take: bool)
    requires Inv(s) && (s.p.Posting? || s.p.Resting? || s.p.Finished?)
    ensures Refines(s, ProducerStep(s, take).0, ProducerStep(s, take).1)
  {
    PostCore(s, take);
    CellsKept(s, ProducerStep(s, take).0);
  }

  lemma ProducerRefines<T>(s: State<T>, take: bool)
    requires Inv(s)
    ensures Refines(s, ProducerStep(s, take).0, ProducerStep(s, take).1)
  {
    match s.p
    case Acquiring(_, _, _) => AcquireRefines(s, take);
    case Claiming(_) => ClaimRefines(s, take);
    case Constructing(_, _) => ConstructRefines(s, take);
    case Signalling(_) => SignalRefines(s, take);
    case _ => PostRefines(s, take);
  }

  lemma PeekCore<T>(s: State<T>, v: T)
    requires Core(s) && s.c.PeekRead?
    ensures Core(s.(c := Completed(Some(v))))
    ensures v == s.enqueued[|s.dequeued|] ==> Allowed(s, s.(c := Completed(Some(v))), Peeked(v))
  {
    FreeConsumer(s, Completed(Some(v)));
    CountersKept(s, s.(c := Completed(Some(v))));
  }

  lemma PeekEffect<T>(s: State<T>, take: bool)
    requires Inv(s) && s.c.PeekRead?
    ensures var v := s.enqueued[|s.dequeued|]; ConsumerStep(s, take) == (s.(c := Completed(Some(v))), Peeked(v))
  {
    OldestCell(s);
  }

  lemma PeekCells<T>(s: State<T>, v: T)
    requires Cells(s) && s.c.PeekRead?
    ensures Cells(s.(c := Completed(Some(v))))
  {
    CellsKept(s, s.(c := Completed(Some(v))));
  }

  lemma PeekRefines<T>(s: State<T>, take: bool)
    requires Inv(s) && s.c.PeekRead?
    ensures Refines(s, ConsumerStep(s, take).0, ConsumerStep(s, take).1)
  {
    PeekEffect(s, take);
    PeekCore(s, s.enqueued[|s.dequeued|]);
    PeekCells(s, s.enqueued[|s.dequeued|]);
  }

  lemma ObtainCells<T>(s: State<T>, take: bool)
    requires Cells(s) && s.c.Obtaining?
    ensures Cells(ConsumerStep(s, take).0)
  {
    CellsKept(s, ConsumerStep(s, take).0);
  }

  lemma ObtainRefines<T>(s: State<T>, take: bool)
    requires Inv(s) && s.c.Obtaining?
    ensures Refines(s, ConsumerStep(s, take).0, ConsumerStep(s, take).1)
  {
    ObtainCore(s, take);
    ObtainCells(s, take);
  }

  lemma AdvanceRefines<T>(s: State<T>, take: bool)
    requires Inv(s) && s.c.Advancing?
    ensures Refines(s, ConsumerStep(s, take).0, ConsumerStep(s, take).1)
  {
    AdvanceCore(s, take);
    CellsKept(s, ConsumerStep(s, take).0);
  }

  lemma ReleaseRefines<T>(s: State<T>, take: bool)
    requires Inv(s) && s.c.Releasing?
    ensures Refines(s, ConsumerStep(s, take).0, ConsumerStep(s, take).1)
  {
    ReleaseCore(s, take);
    ReleaseCells(s, ConsumerStep(s, take).0);
  }

  lemma WakeRefines<T>(s: State<T>, take: bool)
    requires Inv(s) && (s.c.Waking? || s.c.PeekLoad? || s.c.Idling? || s.c.Completed?)
    ensures Refines(s, ConsumerStep(s, take).0, ConsumerStep(s, take).1)
  {
    WakeCore(s, take);
    CellsKept(s, ConsumerStep(s, take).0);
  }

  lemma ConsumerRefines<T>(s: State<T>, take: bool)
    requires Inv(s)
    ensures Refines(s, ConsumerStep(s, take).0, ConsumerStep(s, take).1)
  {
    match s.c
    case Obtaining(_, _) => ObtainRefines(s, take);
    case Advancing(_) => AdvanceRefines(s, take);
    case Moving(_) => MoveRefines(s, take);
    case Destroying(_, _) => DestroyRefines(s, take);
    case Releasing(_) => ReleaseRefines(s, take);
    case PeekRead => PeekRefines(s, take);
    case _ => WakeRefines(s, take);
  }

  lemma CallRefines<T>(s: State<T>, a: Action<T>)
    requires Inv(s) && (a.CallEnqueue? || a.CallDequeue? || a.CallPeek?)
    ensures Refines(s, Step(s, a).0, Step(s, a).1)
  {
    CallCore(s, a);
    CellsKept(s, Step(s, a).0);
  }

  lemma StepRefines<T>(s: State<T>, a: Action<T>)
    requires Inv(s)
    ensures Refines(s, Step(s, a).0, Step(s, a).1)
  {
    match a
    case ProducerMove(take) => ProducerRefines(s, take);
    case ConsumerMove(take) => ConsumerRefines(s, take);
    case _ => CallRefines(s, a);
  }
}
