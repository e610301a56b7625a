/** Whole runs of a pipeline: what every visitor sees under every interleaving, compared with the
    purely synchronous recursion of `pushData`; progress and termination; the sinks. */
module PipelineRuns {
  import opened Options
  import opened Streams
  import opened Pipelines

  // ---------------------------------------------------------------------------------------------
  // The source and the schedule

  /** The source thread pushes `pending` into the root; `inside` while it executes a plain root. */
  datatype System<!D> = System(pending: seq<Block<D>>, sent: seq<Block<D>>, inside: bool, root: Node<D>)

  datatype Agent = Source | At(path: seq<nat>)

  function SourceStep<D>(s: System<D>): System<D> {
    if s.inside then
      if s.root.act.Idle? then s.(inside := false) else s
    else if s.pending == [] then s
    else match Offer(s.root, s.pending[0])
         case None => s
         case Some(r) => System(s.pending[1..], s.sent + [s.pending[0]], r.kind.Plain?, r)
  }

  function Move<D>(s: System<D>, a: Agent): System<D> {
    match a
    case Source => SourceStep(s)
    case At(path) => s.(root := StepAt(s.root, path))
  }

  /** Nothing moves once a sink has thrown. */
  function Step<D>(s: System<D>, a: Agent): System<D> {
    if Crashed(s.root) then s else Move(s, a)
  }

  function Run<D>(s: System<D>, schedule: seq<Agent>): System<D>
    decreases |schedule|
  {
    if schedule == [] then s else Run(Step(s, schedule[0]), schedule[1..])
  }

  /** A pipeline as it is connected, before anything is pushed into it. */
  ghost predicate Fresh<D(!new)>(t: Node<D>) {
    && !t.hadError && t.received == [] && t.handled == [] && t.out == [] && t.act.Idle?
    && (forall v :: 0 <= v < |t.visitors| ==> t.visitors[v] == [])
    && t.queue == [] && !t.started && !t.sawEop
    && (t.kind.Buffered? ==> IsNoop(t.stage))
    && forall i :: 0 <= i < |t.kids| ==> Fresh(t.kids[i])
  }

  function Begin<D>(t: Node<D>, s: seq<Block<D>>): System<D> {
    System(s, [], false, t)
  }

  ghost predicate SysInv<D(!new)>(s: System<D>, all: seq<Block<D>>) {
    && s.sent + s.pending == all
    && Inv(s.root, s.sent)
    && (s.inside ==> s.root.kind.Plain?)
    && (s.root.kind.Plain? && !s.root.act.Idle? ==> s.inside)
  }

  lemma {:induction false} FreshInv<D(!new)>(t: Node<D>)
    requires Fresh(t)
    ensures Inv(t, [])
  {
    forall i | 0 <= i < |t.kids| ensures Inv(t.kids[i], SentTo(t, i)) {
      FreshInv(t.kids[i]);
    }
  }

  lemma StepSysInv<D(!new)>(s: System<D>, a: Agent, all: seq<Block<D>>)
    requires SysInv(s, all)
    ensures SysInv(Step(s, a), all)
  {
    if !Crashed(s.root) { MoveSysInv(s, a, all); }
  }

  lemma SourceSysInv<D(!new)>(s: System<D>, all: seq<Block<D>>)
    requires SysInv(s, all)
    ensures SysInv(SourceStep(s), all)
  {
    if !s.inside && s.pending != [] && Offer(s.root, s.pending[0]).Some? { AcceptedSysInv(s, all); }
  }

  lemma AcceptedSysInv<D(!new)>(s: System<D>, all: seq<Block<D>>)
    requires SysInv(s, all) && !s.inside && s.pending != [] && Offer(s.root, s.pending[0]).Some?
    ensures SysInv(SourceStep(s), all)
  {
    var r := Offer(s.root, s.pending[0]).value;
    OfferInv(s.root, s.sent, s.pending[0]);
    Handed(s.sent, s.pending);
    SysInvOf(System(s.pending[1..], s.sent + [s.pending[0]], r.kind.Plain?, r), all);
  }

  lemma SysInvOf<D(!new)>(s: System<D>, all: seq<Block<D>>)
    requires s.sent + s.pending == all && Inv(s.root, s.sent) && s.inside == s.root.kind.Plain?
    ensures SysInv(s, all)
  {
  }

  lemma Handed<T>(sent: seq<T>, pending: seq<T>)
    requires pending != []
    ensures (sent + [pending[0]]) + pending[1..] == sent + pending
  {
  }

  lemma ThreadSysInv<D(!new)>(s: System<D>, path: seq<nat>, all: seq<Block<D>>)
    requires SysInv(s, all)
    ensures SysInv(s.(root := StepAt(s.root, path)), all)
  {
    StepAtInv(s.root, path, s.sent);
    StepAtKind(s.root, path);
    if s.root.kind.Plain? && s.root.act.Idle? { IdleStays(s.root, path); }
  }

  lemma MoveSysInv<D(!new)>(s: System<D>, a: Agent, all: seq<Block<D>>)
    requires SysInv(s, all)
    ensures SysInv(Move(s, a), all)
  {
    match a
    case At(path) => ThreadSysInv(s, path, all);
    case Source => SourceSysInv(s, all);
  }

  lemma {:induction false} RunSysInv<D(!new)>(s: System<D>, schedule: seq<Agent>, all: seq<Block<D>>)
    requires SysInv(s, all)
    ensures SysInv(Run(s, schedule), all)
    decreases |schedule|
  {
    if schedule != [] {
      StepSysInv(s, schedule[0], all);
      RunSysInv(Step(s, schedule[0]), schedule[1..], all);
    }
  }

  lemma ReachableInv<D(!new)>(t: Node<D>, all: seq<Block<D>>, schedule: seq<Agent>)
    requires Fresh(t)
    ensures SysInv(Run(Begin(t, all), schedule), all)
  {
    FreshInv(t);
    RunSysInv(Begin(t, all), schedule, all);
  }

  /** Nothing is being processed and nothing waits to be: a buffer's thread has drained its queue or
      has stopped at an end-of-processing block. */
  ghost predicate Quiet<D>(t: Node<D>) {
    && t.act.Idle?
    && (t.kind.Buffered? ==> t.queue == [] || t.sawEop)
    && forall i :: 0 <= i < |t.kids| ==> Quiet(t.kids[i])
  }

  ghost predicate Completed<D>(s: System<D>) {
    s.pending == [] && !s.inside && Quiet(s.root) && !Crashed(s.root)
  }

  // ---------------------------------------------------------------------------------------------
  // What a subtree sees

  /** The blocks that get past the node's own thread, if it has one. */
  function Delivered<D>(t: Node<D>, input: seq<Block<D>>): seq<Block<D>> {
    if t.kind.Plain? then input else UpToEop(input)
  }

  /** Every stage and every visitor of the subtree has seen a prefix of what `input` leads to. */
  ghost predicate SeesPrefix<D>(t: Node<D>, input: seq<Block<D>>) {
    var o := Outputs(t.stage, Delivered(t, input));
    && t.received <= Delivered(t, input)
    && t.out <= o
    && (forall v :: 0 <= v < |t.visitors| ==> t.visitors[v] <= o)
    && forall i :: 0 <= i < |t.kids| ==> SeesPrefix(t.kids[i], o)
  }

  /** Every stage and every visitor of the subtree has seen all that `input` leads to. */
  ghost predicate SeesAll<D>(t: Node<D>, input: seq<Block<D>>) {
    var o := Outputs(t.stage, Delivered(t, input));
    && t.received == Delivered(t, input)
    && t.out == o
    && (forall v :: 0 <= v < |t.visitors| ==> t.visitors[v] == o)
    && forall i :: 0 <= i < |t.kids| ==> SeesAll(t.kids[i], o)
  }

  lemma {:induction false} InvSeesPrefix<D(!new)>(t: Node<D>, sent: seq<Block<D>>, input: seq<Block<D>>)
    requires Inv(t, sent) && sent <= input
    ensures SeesPrefix(t, input)
  {
    var d := Delivered(t, input);
    if t.kind.Buffered? { UpToEopPrefix(t.received, input); }
    assert Entered(t) <= d;
    OutputsMonotone(t.stage, Entered(t), d);
    var o := Outputs(t.stage, d);
    forall v | 0 <= v < |t.visitors| ensures t.visitors[v] <= o {
      assert t.visitors[v] == ShownTo(t, v);
    }
    forall i | 0 <= i < |t.kids| ensures SeesPrefix(t.kids[i], o) {
      InvSeesPrefix(t.kids[i], SentTo(t, i), o);
    }
  }

  lemma {:induction false} QuietSeesAll<D(!new)>(t: Node<D>, sent: seq<Block<D>>)
    requires Inv(t, sent) && Quiet(t)
    ensures SeesAll(t, sent)
  {
    if t.kind.Buffered? {
      UpToEopPrefix(t.received, sent);
      if t.queue == [] { UpToEopOfTidy(t.received); }
    }
    forall v | 0 <= v < |t.visitors| ensures t.visitors[v] == t.out {
      assert t.visitors[v] == ShownTo(t, v);
    }
    forall i | 0 <= i < |t.kids| ensures SeesAll(t.kids[i], t.out) {
      QuietSeesAll(t.kids[i], SentTo(t, i));
    }
  }

  // ---------------------------------------------------------------------------------------------
  // The synchronous pipeline

  ghost predicate AllPlain<D>(t: Node<D>) {
    t.kind.Plain? && forall i :: 0 <= i < |t.kids| ==> AllPlain(t.kids[i])
  }

  /** `StreamProcessor::pushData` with every call running to its end, when no sink throws. */
  function Push<D>(t: Node<D>, b: Block<D>): Node<D>
    decreases t
  {
    if t.hadError then t.(received := t.received + [b])
    else
      var o := t.stage(t.handled + [b]);
      t.(received := t.received + [b], handled := t.handled + [b], out := t.out + [o], hadError := IsError(o),
         visitors := seq(|t.visitors|, v requires 0 <= v < |t.visitors| => t.visitors[v] + [o]),
         kids := seq(|t.kids|, i requires 0 <= i < |t.kids| => Push(t.kids[i], o)))
  }

  function PushAll<D>(t: Node<D>, s: seq<Block<D>>): Node<D>
    decreases |s|
  {
    if s == [] then t else Push(PushAll(t, Init(s)), Last(s))
  }

  /** The first visitor from `v` on that throws when it is shown `o`, or the number of visitors. */
  function Thrower<D>(logs: seq<seq<Block<D>>>, sinks: set<nat>, o: Block<D>, v: nat): (k: nat)
    ensures v <= |logs| ==> v <= k <= |logs|
    decreases |logs| - v
  {
    if v >= |logs| then v
    else if v in sinks && SinkThrows(logs[v], o) then v
    else Thrower(logs, sinks, o, v + 1)
  }

  /** `pushData` until it returns, or until the exception of a sink leaves it (true). */
  function PushOrThrow<D>(t: Node<D>, b: Block<D>): (Node<D>, bool)
    decreases t, |t.kids| + 1
  {
    if t.hadError then (t.(received := t.received + [b]), false)
    else
      var o := t.stage(t.handled + [b]);
      var k := Thrower(t.visitors, t.sinks, o, 0);
      var u := t.(received := t.received + [b], handled := t.handled + [b], out := t.out + [o], hadError := IsError(o),
                  visitors := ShownUpTo(t.visitors, o, k));
      if k < |t.visitors| then (u, true)
      else
        var (kids, threw) := KidsOrThrow(t, 0, o);
        (u.(kids := kids), threw)
  }

  /** The visitors up to and including the `k`-th are shown `o`. */
  function ShownUpTo<D>(logs: seq<seq<Block<D>>>, o: Block<D>, k: nat): seq<seq<Block<D>>> {
    seq(|logs|, v requires 0 <= v < |logs| => if v <= k then logs[v] + [o] else logs[v])
  }

  /** `o` is pushed into the children from the `i`-th on, up to one that throws. */
  function KidsOrThrow<D>(t: Node<D>, i: nat, o: Block<D>): (r: (seq<Node<D>>, bool))
    requires i <= |t.kids|
    ensures |r.0| == |t.kids| - i
    decreases t, |t.kids| - i
  {
    if i == |t.kids| then ([], false)
    else
      var (kid, threw) := PushOrThrow(t.kids[i], o);
      if threw then ([kid] + t.kids[i + 1..], true)
      else
        var (rest, later) := KidsOrThrow(t, i + 1, o);
        ([kid] + rest, later)
  }

  function PushAllOrThrow<D>(t: Node<D>, s: seq<Block<D>>): (Node<D>, bool)
    decreases |s|
  {
    if s == [] then (t, false)
    else
      var (u, threw) := PushAllOrThrow(t, Init(s));
      if threw then (u, true) else PushOrThrow(u, Last(s))
  }

  lemma {:induction false} PushInv<D(!new)>(t: Node<D>, sent: seq<Block<D>>, b: Block<D>)
    requires Inv(t, sent) && Quiet(t) && AllPlain(t)
    ensures Inv(Push(t, b), sent + [b]) && Quiet(Push(t, b)) && AllPlain(Push(t, b))
    decreases t
  {
    var u := Push(t, b);
    assert Init(u.received) == t.received;
    PushStage(t, b);
    if t.hadError {
      forall i | 0 <= i < |u.kids| ensures Inv(u.kids[i], SentTo(u, i)) {
        assert SentTo(u, i) == SentTo(t, i);
      }
    } else {
      var o := t.stage(t.handled + [b]);
      forall i | 0 <= i < |t.kids|
        ensures Inv(u.kids[i], SentTo(u, i)) && Quiet(u.kids[i]) && AllPlain(u.kids[i])
      {
        PushInv(t.kids[i], SentTo(t, i), o);
      }
      forall v | 0 <= v < |u.visitors| ensures u.visitors[v] == ShownTo(u, v) {
        assert t.visitors[v] == ShownTo(t, v);
      }
    }
  }

  lemma PushStage<D(!new)>(t: Node<D>, b: Block<D>)
    requires StageInv(t) && t.act.Idle?
    ensures StageInv(Push(t, b))
  {
    if t.hadError {
      assert Init(t.received + [b]) == t.received;
    } else {
      HandleOne(t.stage, t.received, b);
      assert t.handled == t.received;
    }
  }

  lemma {:induction false} PushAllInv<D(!new)>(t: Node<D>, s: seq<Block<D>>)
    requires Fresh(t) && AllPlain(t)
    ensures Inv(PushAll(t, s), s) && Quiet(PushAll(t, s)) && AllPlain(PushAll(t, s))
    decreases |s|
  {
    if s == [] {
      FreshInv(t);
      FreshQuiet(t);
    } else {
      PushAllInv(t, Init(s));
      PushMoreInv(PushAll(t, Init(s)), Init(s), Last(s), s);
      assert PushAll(t, s) == Push(PushAll(t, Init(s)), Last(s));
    }
  }

  lemma PushMoreInv<D(!new)>(u: Node<D>, sent: seq<Block<D>>, b: Block<D>, s: seq<Block<D>>)
    requires Inv(u, sent) && Quiet(u) && AllPlain(u) && s != [] && sent == Init(s) && b == Last(s)
    ensures Inv(Push(u, b), s) && Quiet(Push(u, b)) && AllPlain(Push(u, b))
  {
    PushInv(u, sent, b);
    InitLast(s);
  }

  lemma InitLast<T>(s: seq<T>)
    requires s != []
    ensures Init(s) + [Last(s)] == s
  {
  }

  lemma {:induction false} FreshQuiet<D(!new)>(t: Node<D>)
    requires Fresh(t)
    ensures Quiet(t)
  {
    forall i | 0 <= i < |t.kids| ensures Quiet(t.kids[i]) { FreshQuiet(t.kids[i]); }
  }
}
