/** A tree of stream processors and threaded buffers, run by the source thread and one thread for
    each buffer. Every access a thread makes to a stage, a visitor or a queue is one step, and the
    threads interleave freely. A buffer's queue is the bounded FIFO that module CircularBufferRuns
    proves the ring buffer to be. */
module Pipelines {
  import opened Options
  import opened Streams

  /** A `StreamThreadedBuffer` has a queue and a thread; any other processor runs in its caller's. */
  datatype Kind = Plain | Buffered(maxBlocks: nat)

  /** How far the activation of `StreamProcessor::pushData` on this node has come. */
  datatype Activity<+D> =
    | Idle
    | Called(b: Block<D>)
    | Visiting(o: Block<D>, v: nat)
    | Pushing(o: Block<D>, k: nat, inside: bool)

  /** `received` are the blocks with which the processing of this node was entered, `handled` those
      that reached `processData`, `out` its answers, `visitors[v]` what visitor v was shown; the visitors
      in `sinks` are `StreamSink`s. */
  datatype Node<!D> = Node(
    kind: Kind, stage: Stage<D>, hadError: bool,
    received: seq<Block<D>>, handled: seq<Block<D>>, out: seq<Block<D>>,
    visitors: seq<seq<Block<D>>>, sinks: set<nat>,
    act: Activity<D>, queue: seq<Block<D>>, started: bool, sawEop: bool,
    kids: seq<Node<D>>)

  /** `pushData` called on a node: a plain node is entered, a buffer takes the block if it has room. */
  function Offer<D>(t: Node<D>, b: Block<D>): Option<Node<D>> {
    if t.kind.Plain? then
      if t.act.Idle? then Some(t.(act := Called(b), received := t.received + [b])) else None
    else
      if |t.queue| < t.kind.maxBlocks then Some(t.(queue := t.queue + [b], started := true)) else None
  }

  /** The next step of whichever thread is at work on this node; the node itself when that thread has
      nothing to do or is blocked. */
  function LocalStep<D>(t: Node<D>): Node<D> {
    match t.act
    case Idle =>
      if t.kind.Buffered? && t.started && !t.sawEop && t.queue != [] then
        t.(act := Called(t.queue[0]), received := t.received + [t.queue[0]], queue := t.queue[1..],
           sawEop := IsEop(t.queue[0]))
      else t
    case Called(b) =>
      if t.hadError then t.(act := Idle)
      else
        var o := t.stage(t.handled + [b]);
        t.(handled := t.handled + [b], out := t.out + [o], hadError := IsError(o), act := Visiting(o, 0))
    case Visiting(o, v) =>
      if v < |t.visitors| then t.(visitors := t.visitors[v := t.visitors[v] + [o]], act := Visiting(o, v + 1))
      else t.(act := Pushing(o, 0, false))
    case Pushing(o, k, inside) =>
      if k >= |t.kids| then t.(act := Idle)
      else if inside then
        if t.kids[k].act.Idle? then t.(act := Pushing(o, k + 1, false)) else t
      else
        match Offer(t.kids[k], o)
        case None => t
        case Some(kid) => HandOver(t, o, k, kid)
  }

  /** Child `k` has accepted the block: a plain one is now at work on it, a buffer has returned. */
  function HandOver<D>(t: Node<D>, o: Block<D>, k: nat, kid: Node<D>): Node<D>
    requires k < |t.kids|
  {
    t.(kids := t.kids[k := kid], act := Pushing(o, if kid.kind.Plain? then k else k + 1, kid.kind.Plain?))
  }

  /** The step of the node at `path`. */
  function StepAt<D>(t: Node<D>, path: seq<nat>): Node<D>
    decreases |path|
  {
    if path == [] then LocalStep(t)
    else if path[0] < |t.kids| then t.(kids := t.kids[path[0] := StepAt(t.kids[path[0]], path[1..])])
    else t
  }

  /** A sink of the subtree has been shown a second end-of-processing block. The exception that its
      promise then throws leaves `pushData` and the thread, which ends the program. */
  predicate Crashed<D>(t: Node<D>) {
    || (exists v :: 0 <= v < |t.visitors| && v in t.sinks && SinkAfter(t.visitors[v]).thrown)
    || (exists i :: 0 <= i < |t.kids| && Crashed(t.kids[i]))
  }

  /** The blocks that visitor `v` has been shown, and those pushed into child `i`, given what the
      stage has put out. */
  function ShownTo<D>(t: Node<D>, v: nat): seq<Block<D>> {
    if t.act.Visiting? && t.act.v <= v then Init(t.out) else t.out
  }

  function SentTo<D>(t: Node<D>, i: nat): seq<Block<D>> {
    match t.act
    case Visiting(_, _) => Init(t.out)
    case Pushing(_, k, inside) => if i < k || (i == k && inside) then t.out else Init(t.out)
    case _ => t.out
  }

  /** The blocks received whose processing has got past the error latch. */
  function Entered<D>(t: Node<D>): seq<Block<D>> {
    if t.act.Called? then Init(t.received) else t.received
  }

  ghost predicate StageInv<D>(t: Node<D>) {
    && (t.act.Called? ==> t.received != [] && Last(t.received) == t.act.b)
    && t.out == Outputs(t.stage, Entered(t))
    && |t.out| <= |t.received| && t.handled == t.received[..|t.out|]
    && t.hadError == Failed(t.out)
  }

  ghost predicate ControlInv<D>(t: Node<D>) {
    && (t.act.Visiting? ==> t.out != [] && Last(t.out) == t.act.o && t.act.v <= |t.visitors|)
    && (t.act.Pushing? ==> t.out != [] && Last(t.out) == t.act.o && t.act.k <= |t.kids|)
    && (t.act.Pushing? && t.act.inside ==> t.act.k < |t.kids| && t.kids[t.act.k].kind.Plain?)
    && (forall v :: 0 <= v < |t.visitors| ==> t.visitors[v] == ShownTo(t, v))
    && (forall i :: 0 <= i < |t.kids| && t.kids[i].kind.Plain? && !t.kids[i].act.Idle? ==>
          t.act.Pushing? && t.act.inside && t.act.k == i)
  }

  ghost predicate InputInv<D(!new)>(t: Node<D>, sent: seq<Block<D>>) {
    if t.kind.Plain? then
      t.received == sent
    else
      && t.received + t.queue == sent
      && |t.queue| <= t.kind.maxBlocks
      && IsNoop(t.stage)
      && EopOnlyLast(t.received)
      && t.sawEop == (t.received != [] && IsEop(Last(t.received)))
      && (!t.started ==> t.received == [] && t.queue == [])
  }

  ghost predicate NodeInv<D(!new)>(t: Node<D>, sent: seq<Block<D>>) {
    StageInv(t) && ControlInv(t) && InputInv(t, sent)
  }

  /** What holds of a subtree into which the blocks `sent` have been pushed. */
  ghost predicate Inv<D(!new)>(t: Node<D>, sent: seq<Block<D>>) {
    && NodeInv(t, sent)
    && forall i :: 0 <= i < |t.kids| ==> Inv(t.kids[i], SentTo(t, i))
  }

  // ---------------------------------------------------------------------------------------------
  // Steps keep the invariant

  /** The children are as before, and so is what each of them has been sent. */
  lemma SameKids<D(!new)>(t: Node<D>, u: Node<D>, sent: seq<Block<D>>, sent': seq<Block<D>>)
    requires Inv(t, sent) && NodeInv(u, sent') && u.kids == t.kids
    requires forall i :: 0 <= i < |t.kids| ==> SentTo(u, i) == SentTo(t, i)
    ensures Inv(u, sent')
  {
  }

  lemma InputKept<D(!new)>(t: Node<D>, u: Node<D>, sent: seq<Block<D>>)
    requires InputInv(t, sent)
    requires u.kind == t.kind && u.stage == t.stage && u.received == t.received && u.queue == t.queue
    requires u.started == t.started && u.sawEop == t.sawEop
    ensures InputInv(u, sent)
  {
  }

  lemma StageKept<D(!new)>(t: Node<D>, u: Node<D>)
    requires StageInv(t) && !t.act.Called? && !u.act.Called?
    requires u.stage == t.stage && u.received == t.received && u.handled == t.handled && u.out == t.out
    requires u.hadError == t.hadError
    ensures StageInv(u)
  {
  }

  lemma EnterStage<D(!new)>(t: Node<D>, u: Node<D>, b: Block<D>)
    requires StageInv(t) && !t.act.Called? && u.act == Called(b)
    requires u.stage == t.stage && u.received == t.received + [b] && u.handled == t.handled && u.out == t.out
    requires u.hadError == t.hadError
    ensures StageInv(u)
  {
    assert Init(u.received) == t.received;
  }

  lemma EnterControl<D(!new)>(t: Node<D>, u: Node<D>, b: Block<D>)
    requires ControlInv(t) && t.act.Idle? && u.act == Called(b)
    requires u.kids == t.kids && u.visitors == t.visitors && u.out == t.out
    ensures ControlInv(u)
  {
  }

  lemma OfferInv<D(!new)>(t: Node<D>, sent: seq<Block<D>>, b: Block<D>)
    requires Inv(t, sent) && Offer(t, b).Some?
    ensures Inv(Offer(t, b).value, sent + [b])
    ensures Offer(t, b).value.kind == t.kind
  {
    var u := Offer(t, b).value;
    OfferNodeInv(t, sent, b);
    SameKids(t, u, sent, sent + [b]);
  }

  lemma OfferInput<D(!new)>(t: Node<D>, sent: seq<Block<D>>, b: Block<D>)
    requires InputInv(t, sent) && Offer(t, b).Some?
    ensures InputInv(Offer(t, b).value, sent + [b])
  {
    assert t.received + (t.queue + [b]) == (t.received + t.queue) + [b];
  }

  lemma OfferNodeInv<D(!new)>(t: Node<D>, sent: seq<Block<D>>, b: Block<D>)
    requires NodeInv(t, sent) && Offer(t, b).Some?
    ensures NodeInv(Offer(t, b).value, sent + [b])
  {
    var u := Offer(t, b).value;
    OfferInput(t, sent, b);
    if t.kind.Plain? {
      EnterStage(t, u, b);
      EnterControl(t, u, b);
    } else {
      SameStage(t, u);
      SameControl(t, u);
    }
  }

  lemma SameStage<D(!new)>(t: Node<D>, u: Node<D>)
    requires StageInv(t) && u.act == t.act
    requires u.stage == t.stage && u.received == t.received && u.handled == t.handled && u.out == t.out
    requires u.hadError == t.hadError
    ensures StageInv(u)
  {
  }

  lemma SameControl<D(!new)>(t: Node<D>, u: Node<D>)
    requires ControlInv(t) && u.act == t.act && u.kids == t.kids && u.visitors == t.visitors && u.out == t.out
    ensures ControlInv(u)
  {
    assert forall v :: 0 <= v < |u.visitors| ==> ShownTo(u, v) == ShownTo(t, v);
  }

  lemma TakeInput<D(!new)>(t: Node<D>, u: Node<D>, sent: seq<Block<D>>)
    requires InputInv(t, sent) && t.kind.Buffered? && t.started && !t.sawEop && t.queue != []
    requires u.kind == t.kind && u.stage == t.stage && u.started
    requires u.received == t.received + [t.queue[0]] && u.queue == t.queue[1..] && u.sawEop == IsEop(t.queue[0])
    ensures InputInv(u, sent)
  {
    assert t.received + t.queue == u.received + u.queue;
  }

  lemma TakeInv<D(!new)>(t: Node<D>, sent: seq<Block<D>>)
    requires Inv(t, sent) && t.act.Idle?
    ensures Inv(LocalStep(t), sent)
  {
    var u := LocalStep(t);
    if u != t {
      EnterStage(t, u, t.queue[0]);
      EnterControl(t, u, t.queue[0]);
      TakeInput(t, u, sent);
      SameKids(t, u, sent, sent);
    }
  }

  lemma HandleOne<D(!new)>(f: Stage<D>, r: seq<Block<D>>, b: Block<D>)
    requires !Failed(Outputs(f, r))
    ensures |Outputs(f, r)| == |r|
    ensures Outputs(f, r + [b]) == Outputs(f, r) + [f(r + [b])]
  {
    OutputsBasics(f, r);
    assert Init(r + [b]) == r;
  }

  lemma ProcessStage<D(!new)>(t: Node<D>)
    requires StageInv(t) && t.act.Called?
    ensures StageInv(LocalStep(t))
  {
    var r := Init(t.received);
    assert t.received == r + [t.act.b];
    if t.hadError {
      assert Init(t.received) == r && Outputs(t.stage, t.received) == t.out;
    } else {
      HandleOne(t.stage, r, t.act.b);
      assert t.handled == r;
      assert t.received[..|t.received|] == t.received;
    }
  }

  lemma ProcessControl<D(!new)>(t: Node<D>)
    requires ControlInv(t) && t.act.Called?
    ensures ControlInv(LocalStep(t))
    ensures forall i :: 0 <= i < |t.kids| ==> SentTo(LocalStep(t), i) == SentTo(t, i)
  {
    var u := LocalStep(t);
    if !t.hadError { assert Init(u.out) == t.out; }
  }

  lemma ProcessInv<D(!new)>(t: Node<D>, sent: seq<Block<D>>)
    requires Inv(t, sent) && t.act.Called?
    ensures Inv(LocalStep(t), sent)
  {
    ProcessStage(t);
    ProcessControl(t);
    InputKept(t, LocalStep(t), sent);
    SameKids(t, LocalStep(t), sent, sent);
  }

  lemma VisitControl<D(!new)>(t: Node<D>)
    requires ControlInv(t) && t.act.Visiting?
    ensures ControlInv(LocalStep(t))
    ensures forall i :: 0 <= i < |t.kids| ==> SentTo(LocalStep(t), i) == SentTo(t, i)
  {
    var u := LocalStep(t);
    assert t.out == Init(t.out) + [t.act.o];
    forall v | 0 <= v < |u.visitors| ensures u.visitors[v] == ShownTo(u, v) {
      assert t.visitors[v] == ShownTo(t, v);
    }
  }

  lemma VisitInv<D(!new)>(t: Node<D>, sent: seq<Block<D>>)
    requires Inv(t, sent) && t.act.Visiting?
    ensures Inv(LocalStep(t), sent)
  {
    VisitControl(t);
    StageKept(t, LocalStep(t));
    InputKept(t, LocalStep(t), sent);
    SameKids(t, LocalStep(t), sent, sent);
  }

  /** The cursor moves past child `k`, or off the end of the children. */
  lemma CursorControl<D(!new)>(t: Node<D>, u: Node<D>)
    requires ControlInv(t) && t.act.Pushing? && u == t.(act := u.act)
    requires t.act.k == |t.kids| || (t.act.inside && t.kids[t.act.k].act.Idle?)
    requires u.act == if t.act.k == |t.kids| then Idle else Pushing(t.act.o, t.act.k + 1, false)
    ensures ControlInv(u)
    ensures forall i :: 0 <= i < |t.kids| ==> SentTo(u, i) == SentTo(t, i)
  {
  }

  lemma HandOverControl<D(!new)>(t: Node<D>, k: nat, kid: Node<D>)
    requires ControlInv(t) && t.act.Pushing? && !t.act.inside && t.act.k == k && k < |t.kids|
    requires kid.kind == t.kids[k].kind
    ensures ControlInv(HandOver(t, t.act.o, k, kid))
  {
    var u := HandOver(t, t.act.o, k, kid);
    assert forall v :: 0 <= v < |u.visitors| ==> ShownTo(u, v) == ShownTo(t, v);
  }

  lemma HandOverSent<D(!new)>(t: Node<D>, k: nat, kid: Node<D>, i: nat)
    requires t.act.Pushing? && !t.act.inside && t.act.k == k && k < |t.kids|
    ensures SentTo(HandOver(t, t.act.o, k, kid), i) == if i == k then t.out else SentTo(t, i)
    ensures SentTo(t, k) == Init(t.out)
  {
  }

  lemma HandOverNode<D(!new)>(t: Node<D>, kid: Node<D>, sent: seq<Block<D>>)
    requires NodeInv(t, sent) && t.act.Pushing? && !t.act.inside && t.act.k < |t.kids|
    requires kid.kind == t.kids[t.act.k].kind
    ensures NodeInv(HandOver(t, t.act.o, t.act.k, kid), sent)
  {
    var u := HandOver(t, t.act.o, t.act.k, kid);
    HandOverControl(t, t.act.k, kid);
    StageKept(t, u);
    InputKept(t, u, sent);
  }

  lemma HandOverKids<D(!new)>(t: Node<D>, k: nat, kid: Node<D>)
    requires t.act.Pushing? && !t.act.inside && t.act.k == k && k < |t.kids|
    ensures var u := HandOver(t, t.act.o, k, kid);
            && |u.kids| == |t.kids| && u.kids[k] == kid && SentTo(u, k) == t.out
            && forall i :: 0 <= i < |t.kids| && i != k ==> u.kids[i] == t.kids[i] && SentTo(u, i) == SentTo(t, i)
  {
    forall i: nat ensures SentTo(HandOver(t, t.act.o, k, kid), i) == if i == k then t.out else SentTo(t, i) {
      HandOverSent(t, k, kid, i);
    }
  }

  lemma HandOverInv<D(!new)>(t: Node<D>, kid: Node<D>, sent: seq<Block<D>>)
    requires Inv(t, sent) && t.act.Pushing? && !t.act.inside && t.act.k < |t.kids|
    requires kid.kind == t.kids[t.act.k].kind && Inv(kid, t.out)
    ensures Inv(HandOver(t, t.act.o, t.act.k, kid), sent)
  {
    HandOverNode(t, kid, sent);
    HandOverKids(t, t.act.k, kid);
    OneKidChanged(t, HandOver(t, t.act.o, t.act.k, kid), sent, t.act.k);
  }

  lemma OneKidChanged<D(!new)>(t: Node<D>, u: Node<D>, sent: seq<Block<D>>, k: nat)
    requires Inv(t, sent) && NodeInv(u, sent) && k < |t.kids| == |u.kids|
    requires Inv(u.kids[k], SentTo(u, k))
    requires forall i :: 0 <= i < |t.kids| && i != k ==> u.kids[i] == t.kids[i] && SentTo(u, i) == SentTo(t, i)
    ensures Inv(u, sent)
  {
  }

  lemma OfferOnInv<D(!new)>(t: Node<D>, sent: seq<Block<D>>)
    requires Inv(t, sent) && t.act.Pushing? && !t.act.inside && t.act.k < |t.kids|
    ensures Inv(LocalStep(t), sent)
  {
    if Offer(t.kids[t.act.k], t.act.o).Some? { AcceptedInv(t, Offer(t.kids[t.act.k], t.act.o).value, sent); }
  }

  lemma AcceptedInv<D(!new)>(t: Node<D>, kid: Node<D>, sent: seq<Block<D>>)
    requires Inv(t, sent) && t.act.Pushing? && !t.act.inside && t.act.k < |t.kids|
    requires Offer(t.kids[t.act.k], t.act.o) == Some(kid)
    ensures Inv(LocalStep(t), sent)
  {
    OfferedKidInv(t, sent);
    HandOverInv(t, kid, sent);
    assert LocalStep(t) == HandOver(t, t.act.o, t.act.k, kid);
  }

  lemma OfferedKidInv<D(!new)>(t: Node<D>, sent: seq<Block<D>>)
    requires Inv(t, sent) && t.act.Pushing? && !t.act.inside && t.act.k < |t.kids|
    requires Offer(t.kids[t.act.k], t.act.o).Some?
    ensures var kid := Offer(t.kids[t.act.k], t.act.o).value; Inv(kid, t.out) && kid.kind == t.kids[t.act.k].kind
  {
    OfferInv(t.kids[t.act.k], SentTo(t, t.act.k), t.act.o);
    LastSent(t, t.act.k);
  }

  lemma LastSent<D(!new)>(t: Node<D>, k: nat)
    requires ControlInv(t) && t.act.Pushing? && !t.act.inside && t.act.k == k
    ensures SentTo(t, k) + [t.act.o] == t.out
  {
  }

  lemma MoveOnInv<D(!new)>(t: Node<D>, sent: seq<Block<D>>)
    requires Inv(t, sent) && t.act.Pushing? && (t.act.inside || t.act.k == |t.kids|)
    ensures Inv(LocalStep(t), sent)
  {
    var u := LocalStep(t);
    if u != t {
      CursorControl(t, u);
      StageKept(t, u);
      InputKept(t, u, sent);
      SameKids(t, u, sent, sent);
    }
  }

  lemma LocalStepInv<D(!new)>(t: Node<D>, sent: seq<Block<D>>)
    requires Inv(t, sent)
    ensures Inv(LocalStep(t), sent)
  {
    match t.act
    case Idle => TakeInv(t, sent);
    case Called(_) => ProcessInv(t, sent);
    case Visiting(_, _) => VisitInv(t, sent);
    case Pushing(_, k, inside) =>
      if inside || k == |t.kids| { MoveOnInv(t, sent); } else { OfferOnInv(t, sent); }
  }

  /** A plain node that nobody has entered does nothing. */
  lemma IdleStays<D>(t: Node<D>, path: seq<nat>)
    requires t.kind.Plain? && t.act.Idle?
    ensures StepAt(t, path).kind == t.kind && StepAt(t, path).act == t.act
  {
  }

  lemma StepAtKind<D>(t: Node<D>, path: seq<nat>)
    ensures StepAt(t, path).kind == t.kind
  {
  }

  lemma KidStepControl<D(!new)>(t: Node<D>, u: Node<D>, k: nat, kid: Node<D>)
    requires ControlInv(t) && k < |t.kids| && u == t.(kids := t.kids[k := kid])
    requires kid.kind == t.kids[k].kind
    requires kid.kind.Plain? && t.kids[k].act.Idle? ==> kid.act.Idle?
    ensures ControlInv(u)
    ensures forall i :: 0 <= i < |t.kids| ==> SentTo(u, i) == SentTo(t, i)
  {
    assert forall v :: 0 <= v < |u.visitors| ==> ShownTo(u, v) == ShownTo(t, v);
  }

  lemma KidStepInv<D(!new)>(t: Node<D>, k: nat, kid: Node<D>, sent: seq<Block<D>>)
    requires Inv(t, sent) && k < |t.kids| && Inv(kid, SentTo(t, k)) && kid.kind == t.kids[k].kind
    requires kid.kind.Plain? && t.kids[k].act.Idle? ==> kid.act.Idle?
    ensures Inv(t.(kids := t.kids[k := kid]), sent)
  {
    var u := t.(kids := t.kids[k := kid]);
    KidStepControl(t, u, k, kid);
    InputKept(t, u, sent);
    SameStage(t, u);
    OneKidChanged(t, u, sent, k);
  }

  lemma {:induction false} StepAtInv<D(!new)>(t: Node<D>, path: seq<nat>, sent: seq<Block<D>>)
    requires Inv(t, sent)
    ensures Inv(StepAt(t, path), sent)
    decreases |path|
  {
    if path == [] {
      LocalStepInv(t, sent);
    } else if path[0] < |t.kids| {
      var k := path[0];
      var kid := t.kids[k];
      StepAtInv(kid, path[1..], SentTo(t, k));
      StepAtKind(kid, path[1..]);
      if kid.kind.Plain? && kid.act.Idle? { IdleStays(kid, path[1..]); }
      KidStepInv(t, k, StepAt(kid, path[1..]), sent);
    }
  }
}
