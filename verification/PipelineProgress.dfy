/** Progress of whole pipelines: exactly which runs can be completed, where the others get stuck, and
    why every run ends. */
module PipelineProgress {
  import opened Options
  import opened Streams
  import opened Pipelines
  import opened PipelineRuns
  import opened PipelineTheorems
  import opened PipelineThrows

  // ---------------------------------------------------------------------------------------------
  // Progress

  /** Every buffer has room for at least one block. */
  ghost predicate Roomy<D>(t: Node<D>) {
    (t.kind.Buffered? ==> t.kind.maxBlocks >= 1) && forall i :: 0 <= i < |t.kids| ==> Roomy(t.kids[i])
  }

  lemma {:induction false} SameTreeRoomy<D>(t: Node<D>, t': Node<D>)
    requires Roomy(t) && SameTree(t, t')
    ensures Roomy(t')
  {
    forall i | 0 <= i < |t'.kids| ensures Roomy(t'.kids[i]) { SameTreeRoomy(t.kids[i], t'.kids[i]); }
  }

  /** After the end of processing that stops its thread, every buffer is sent no more blocks than its
      queue holds. */
  ghost predicate Fits<D>(t: Node<D>, input: seq<Block<D>>) {
    && (t.kind.Buffered? ==> |input| <= |UpToEop(input)| + t.kind.maxBlocks)
    && forall i :: 0 <= i < |t.kids| ==> Fits(t.kids[i], Outputs(t.stage, Delivered(t, input)))
  }

  lemma {:induction false} SameTreeFits<D>(t: Node<D>, t': Node<D>, input: seq<Block<D>>)
    requires SameTree(t, t')
    ensures Fits(t, input) <==> Fits(t', input)
    decreases t
  {
    var o := Outputs(t.stage, Delivered(t, input));
    forall i | 0 <= i < |t.kids| ensures Fits(t.kids[i], o) <==> Fits(t'.kids[i], o) {
      SameTreeFits(t.kids[i], t'.kids[i], o);
    }
  }

  /** Stages that pass the end of processing through and end it early on errors only send nothing after
      it, when nothing comes after it. */
  lemma {:induction false} BehavedFits<D(!new)>(t: Node<D>, input: seq<Block<D>>)
    requires TreeBehaved(t) && EopOnlyLast(input)
    ensures Fits(t, input)
    decreases t
  {
    DeliveredTidy(t, input);
    UpToEopOfTidy(input);
    OutputsEopOnlyLast(t.stage, input);
    forall i | 0 <= i < |t.kids| ensures Fits(t.kids[i], Outputs(t.stage, input)) {
      BehavedFits(t.kids[i], Outputs(t.stage, input));
    }
  }

  // ---------------------------------------------------------------------------------------------
  // A run that is complete fits

  lemma QuietBufferFits<D(!new)>(t: Node<D>, sent: seq<Block<D>>)
    requires NodeInv(t, sent) && t.kind.Buffered? && (t.queue == [] || t.sawEop)
    ensures |sent| <= |UpToEop(sent)| + t.kind.maxBlocks
  {
    UpToEopPrefix(t.received, sent);
  }

  lemma {:induction false} QuietFits<D(!new)>(t: Node<D>, sent: seq<Block<D>>)
    requires Inv(t, sent) && Quiet(t)
    ensures Fits(t, sent)
    decreases t
  {
    QuietSeesAll(t, sent);
    if t.kind.Buffered? { QuietBufferFits(t, sent); }
    forall i | 0 <= i < |t.kids| ensures Fits(t.kids[i], Outputs(t.stage, Delivered(t, sent))) {
      assert SentTo(t, i) == t.out;
      QuietFits(t.kids[i], SentTo(t, i));
    }
  }

  lemma CompletedFits<D(!new)>(t: Node<D>, s: seq<Block<D>>, schedule: seq<Agent>)
    requires Fresh(t) && Completed(Run(Begin(t, s), schedule))
    ensures Fits(t, s)
  {
    var run := Run(Begin(t, s), schedule);
    ReachableInv(t, s, schedule);
    assert run.sent == s;
    QuietFits(run.root, s);
    RunSameTree(Begin(t, s), schedule);
    SameTreeFits(t, run.root, s);
  }

  // ---------------------------------------------------------------------------------------------
  // A run that fits is not stuck

  /** A buffer that refuses the next block of its input has a thread that is not finished. */
  lemma FullIsBusy<D(!new)>(t: Node<D>, sent: seq<Block<D>>, b: Block<D>, input: seq<Block<D>>)
    requires Inv(t, sent) && t.kind.Buffered? && t.kind.maxBlocks >= 1
    requires sent + [b] <= input && |input| <= |UpToEop(input)| + t.kind.maxBlocks
    ensures Offer(t, b).None? ==> t.queue != [] && t.started && !t.sawEop
  {
    assert t.received <= sent && sent <= input;
    UpToEopPrefix(t.received, input);
  }

  /** What a node has put out is a prefix of what its whole input leads to. */
  lemma OutPrefix<D(!new)>(t: Node<D>, sent: seq<Block<D>>, input: seq<Block<D>>)
    requires NodeInv(t, sent) && sent <= input
    ensures t.out <= Outputs(t.stage, Delivered(t, input))
    ensures forall i :: SentTo(t, i) <= t.out
  {
    if t.kind.Buffered? { UpToEopPrefix(t.received, input); }
    assert Entered(t) <= t.received <= Delivered(t, input);
    OutputsMonotone(t.stage, Entered(t), Delivered(t, input));
  }

  lemma StepAtKid<D>(t: Node<D>, k: nat, path: seq<nat>)
    requires k < |t.kids| && StepAt(t.kids[k], path) != t.kids[k]
    ensures StepAt(t, [k] + path) != t
  {
    assert ([k] + path)[1..] == path;
    assert StepAt(t, [k] + path).kids[k] == StepAt(t.kids[k], path);
  }

  /** In a subtree that has not come to rest, some thread can take a step. */
  lemma {:induction false} NotStuck<D(!new)>(t: Node<D>, sent: seq<Block<D>>, input: seq<Block<D>>)
    returns (path: seq<nat>)
    requires Inv(t, sent) && sent <= input && Fits(t, input) && Roomy(t) && !Quiet(t)
    ensures StepAt(t, path) != t
    decreases t, 1
  {
    path := [];
    if t.act.Pushing? && t.act.k < |t.kids| {
      var kid := t.kids[t.act.k];
      if t.act.inside {
        if !kid.act.Idle? { path := KidNotStuck(t, sent, input, t.act.k); }
      } else if Offer(kid, t.act.o).None? {
        RefusedIsBusy(t, sent, input);
        path := KidNotStuck(t, sent, input, t.act.k);
      }
    } else if t.act.Idle? && (t.kind.Plain? || t.queue == [] || t.sawEop) {
      var k :| 0 <= k < |t.kids| && !Quiet(t.kids[k]);
      path := KidNotStuck(t, sent, input, k);
    } else if t.act.Visiting? {
      assert LocalStep(t).act != t.act;
    }
  }

  lemma RefusedIsBusy<D(!new)>(t: Node<D>, sent: seq<Block<D>>, input: seq<Block<D>>)
    requires Inv(t, sent) && sent <= input && Fits(t, input) && Roomy(t)
    requires t.act.Pushing? && !t.act.inside && t.act.k < |t.kids|
    requires Offer(t.kids[t.act.k], t.act.o).None?
    ensures !Quiet(t.kids[t.act.k])
  {
    var k := t.act.k;
    if t.kids[k].kind.Buffered? {
      OutPrefix(t, sent, input);
      LastSent(t, k);
      FullIsBusy(t.kids[k], SentTo(t, k), t.act.o, Outputs(t.stage, Delivered(t, input)));
    }
  }

  lemma {:induction false} KidNotStuck<D(!new)>(t: Node<D>, sent: seq<Block<D>>, input: seq<Block<D>>, k: nat)
    returns (path: seq<nat>)
    requires Inv(t, sent) && sent <= input && Fits(t, input) && Roomy(t)
    requires k < |t.kids| && !Quiet(t.kids[k])
    ensures StepAt(t, path) != t
    decreases t, 0
  {
    OutPrefix(t, sent, input);
    path := NotStuck(t.kids[k], SentTo(t, k), Outputs(t.stage, Delivered(t, input)));
    StepAtKid(t, k, path);
    path := [k] + path;
  }

  lemma SystemNotStuck<D(!new)>(s: System<D>, all: seq<Block<D>>) returns (a: Agent)
    requires SysInv(s, all) && Fits(s.root, all) && Roomy(s.root) && !Crashed(s.root)
    ensures Completed(s) || Step(s, a) != s
  {
    assert s.sent <= all;
    assert s.pending != [] ==> s.sent + [s.pending[0]] <= all;
    a := Source;
    if !Quiet(s.root) {
      var path := NotStuck(s.root, s.sent, all);
      a := At(path);
    } else if !s.inside && s.pending != [] {
      if s.root.kind.Buffered? { FullIsBusy(s.root, s.sent, s.pending[0], all); }
      assert |SourceStep(s).pending| == |s.pending| - 1;
    }
  }

  // ---------------------------------------------------------------------------------------------
  // Termination

  /** An upper bound on the steps that one block pushed into a node can cause. */
  function Cost<D>(t: Node<D>): nat {
    4 + |t.visitors| + KidsCost(t, 0)
  }

  /** The same for pushing one block into the children from `k` on. */
  function KidsCost<D>(t: Node<D>, k: nat): nat
    decreases t, |t.kids| - k
  {
    if k >= |t.kids| then 0 else 2 + Cost(t.kids[k]) + KidsCost(t, k + 1)
  }

  /** The steps that the activation of a node can still cause. */
  function Remaining<D>(t: Node<D>): nat {
    match t.act
    case Idle => 0
    case Called(_) => 3 + |t.visitors| + KidsCost(t, 0)
    case Visiting(_, v) => 2 + (if v <= |t.visitors| then |t.visitors| - v else 0) + KidsCost(t, 0)
    case Pushing(_, k, inside) => (if inside then 2 + KidsCost(t, k + 1) else 1 + KidsCost(t, k))
  }

  /** An upper bound on the steps left in a subtree. */
  function Measure<D>(t: Node<D>): nat {
    Remaining(t) + |t.queue| * Cost(t) + KidsMeasure(t, 0)
  }

  function KidsMeasure<D>(t: Node<D>, k: nat): nat
    decreases t, |t.kids| - k
  {
    if k >= |t.kids| then 0 else Measure(t.kids[k]) + KidsMeasure(t, k + 1)
  }

  lemma {:induction false} SameCost<D>(t: Node<D>, t': Node<D>)
    requires SameTree(t, t')
    ensures Cost(t') == Cost(t)
    decreases t, |t.kids| + 1
  {
    SameKidsCost(t, t', 0);
  }

  lemma {:induction false} SameKidsCost<D>(t: Node<D>, t': Node<D>, k: nat)
    requires SameTree(t, t') && k <= |t.kids|
    ensures KidsCost(t', k) == KidsCost(t, k)
    decreases t, |t.kids| - k
  {
    if k < |t.kids| {
      SameCost(t.kids[k], t'.kids[k]);
      SameKidsCost(t, t', k + 1);
    }
  }

  /** Replacing child `k` changes the sum by the difference that child makes. */
  lemma {:induction false} KidsMeasureUpdate<D>(t: Node<D>, t': Node<D>, k: nat, j: nat)
    requires k < |t.kids| == |t'.kids| && forall i :: 0 <= i < |t.kids| && i != k ==> t'.kids[i] == t.kids[i]
    ensures KidsMeasure(t', j) == KidsMeasure(t, j) + if j <= k then Measure(t'.kids[k]) - Measure(t.kids[k]) else 0
    decreases |t.kids| - j
  {
    if j < |t.kids| { KidsMeasureUpdate(t, t', k, j + 1); }
  }

  lemma OfferMeasure<D>(t: Node<D>, b: Block<D>)
    requires Offer(t, b).Some?
    ensures Measure(Offer(t, b).value) <= Measure(t) + Cost(t)
  {
    var u := Offer(t, b).value;
    OfferSameTree(t, b);
    SameCost(t, u);
    SameKidsCost(t, u, 0);
    SameKidsMeasure(t, u, 0);
    if t.kind.Buffered? {
      KidsRemaining(t, u);
      OneLess(|u.queue|, Cost(t));
    }
  }

  lemma {:induction false} SameKidsMeasure<D>(t: Node<D>, t': Node<D>, k: nat)
    requires t'.kids == t.kids && k <= |t.kids|
    ensures KidsMeasure(t', k) == KidsMeasure(t, k)
    decreases |t.kids| - k
  {
    if k < |t.kids| { SameKidsMeasure(t, t', k + 1); }
  }

  lemma TakeDecreases<D>(t: Node<D>)
    requires t.act.Idle? && LocalStep(t) != t
    ensures Measure(LocalStep(t)) < Measure(t)
  {
    var u := LocalStep(t);
    SameKidsMeasure(t, u, 0);
    LocalStepSameTree(t);
    SameCost(t, u);
    SameKidsCost(t, u, 0);
    OneLess(|t.queue|, Cost(t));
  }

  lemma OneLess(n: int, c: int)
    ensures n * c == (n - 1) * c + c
  {
  }

  lemma WorkDecreases<D>(t: Node<D>)
    requires t.act.Called? || t.act.Visiting?
    ensures Measure(LocalStep(t)) < Measure(t)
  {
    var u := LocalStep(t);
    SameKidsMeasure(t, u, 0);
    LocalStepSameTree(t);
    SameCost(t, u);
    WorkRemaining(t);
  }

  lemma WorkRemaining<D>(t: Node<D>)
    requires t.act.Called? || t.act.Visiting?
    ensures Remaining(LocalStep(t)) < Remaining(t)
  {
    LocalStepSameTree(t);
    SameKidsCost(t, LocalStep(t), 0);
  }

  lemma HandOverDecreases<D>(t: Node<D>)
    requires t.act.Pushing? && t.act.k < |t.kids| && !t.act.inside && Offer(t.kids[t.act.k], t.act.o).Some?
    ensures Measure(LocalStep(t)) < Measure(t)
  {
    var u := LocalStep(t);
    var k := t.act.k;
    LocalStepSameTree(t);
    SameCost(t, u);
    SameKidsCost(t, u, k + 1);
    OfferMeasure(t.kids[k], t.act.o);
    KidsMeasureUpdate(t, u, k, 0);
    assert u.queue == t.queue && Remaining(u) + Cost(t.kids[k]) < Remaining(t);
  }

  lemma MoveOnDecreases<D>(t: Node<D>)
    requires t.act.Pushing? && (t.act.inside || t.act.k >= |t.kids|) && LocalStep(t) != t
    ensures Measure(LocalStep(t)) < Measure(t)
  {
    var u := LocalStep(t);
    LocalStepSameTree(t);
    SameCost(t, u);
    SameKidsMeasure(t, u, 0);
    if t.act.k < |t.kids| { SameKidsCost(t, u, t.act.k + 1); }
  }

  lemma {:induction false} StepAtDecreases<D>(t: Node<D>, path: seq<nat>)
    requires StepAt(t, path) != t
    ensures Measure(StepAt(t, path)) < Measure(t)
    decreases |path|
  {
    if path == [] {
      match t.act
      case Idle => TakeDecreases(t);
      case Pushing(_, k, inside) =>
        if inside || k >= |t.kids| { MoveOnDecreases(t); } else { HandOverDecreases(t); }
      case _ => WorkDecreases(t);
    } else {
      var k := path[0];
      var u := StepAt(t, path);
      StepAtSameTree(t, path);
      SameCost(t, u);
      KidsRemaining(t, u);
      assert StepAt(t.kids[k], path[1..]) == t.kids[k] ==> u.kids == t.kids;
      StepAtDecreases(t.kids[k], path[1..]);
      KidsMeasureUpdate(t, u, k, 0);
    }
  }

  lemma KidsRemaining<D>(t: Node<D>, u: Node<D>)
    requires SameTree(t, u) && u.act == t.act
    ensures Remaining(u) == Remaining(t)
  {
    match t.act
    case Pushing(_, k, inside) =>
      var j := if inside then k + 1 else k;
      if j <= |t.kids| { SameKidsCost(t, u, j); }
    case _ => SameKidsCost(t, u, 0);
  }

  /** An upper bound on the steps left in a system. */
  function StepsLeft<D>(s: System<D>): nat {
    |s.pending| * (2 + Cost(s.root)) + (if s.inside then 1 else 0) + Measure(s.root)
  }

  lemma SourceDecreases<D>(s: System<D>)
    requires SourceStep(s) != s
    ensures StepsLeft(SourceStep(s)) < StepsLeft(s)
  {
    if !s.inside { AcceptedDecreases(s, Offer(s.root, s.pending[0]).value); }
  }

  lemma AcceptedDecreases<D>(s: System<D>, r: Node<D>)
    requires !s.inside && s.pending != [] && Offer(s.root, s.pending[0]) == Some(r)
    ensures StepsLeft(SourceStep(s)) < StepsLeft(s)
  {
    OfferSameTree(s.root, s.pending[0]);
    SameCost(s.root, r);
    OfferMeasure(s.root, s.pending[0]);
    OneLess(|s.pending|, 2 + Cost(s.root));
  }

  lemma StepDecreases<D>(s: System<D>, a: Agent)
    requires Step(s, a) != s
    ensures StepsLeft(Step(s, a)) < StepsLeft(s)
  {
    match a
    case Source => SourceDecreases(s);
    case At(path) =>
      StepAtSameTree(s.root, path);
      SameCost(s.root, StepAt(s.root, path));
      StepAtDecreases(s.root, path);
  }

  /** The steps of a schedule that change anything. */
  ghost function Effective<D>(s: System<D>, schedule: seq<Agent>): nat
    decreases |schedule|
  {
    if schedule == [] then 0
    else (if Step(s, schedule[0]) != s then 1 else 0) + Effective(Step(s, schedule[0]), schedule[1..])
  }

  lemma {:induction false} EffectiveBound<D>(s: System<D>, schedule: seq<Agent>)
    ensures Effective(s, schedule) + StepsLeft(Run(s, schedule)) <= StepsLeft(s)
    decreases |schedule|
  {
    if schedule != [] {
      EffectiveBound(Step(s, schedule[0]), schedule[1..]);
      if Step(s, schedule[0]) != s { StepDecreases(s, schedule[0]); }
    }
  }

  lemma {:induction false} FreshMeasure<D(!new)>(t: Node<D>, k: nat)
    requires Fresh(t)
    ensures KidsMeasure(t, k) == 0 && Measure(t) == KidsMeasure(t, 0)
    decreases t, |t.kids| - k
  {
    if k < |t.kids| {
      FreshMeasure(t.kids[k], 0);
      FreshMeasure(t, k + 1);
    }
  }

  /** Every run ends: however the threads are scheduled, at most so many steps as the size of the tree
      allows for each block pushed ever change the state. */
  lemma EveryRunEnds<D(!new)>(t: Node<D>, s: seq<Block<D>>, schedule: seq<Agent>)
    requires Fresh(t)
    ensures Effective(Begin(t, s), schedule) <= |s| * (2 + Cost(t))
  {
    EffectiveBound(Begin(t, s), schedule);
    FreshMeasure(t, 0);
  }

  // ---------------------------------------------------------------------------------------------
  // Completion

  lemma NotThrown<D(!new)>(s: System<D>, all: seq<Block<D>>)
    requires SysInv(s, all) && SinksOnce(s.root, all)
    ensures !Crashed(s.root)
  {
    InvSeesPrefix(s.root, s.sent, all);
    SeenOnce(s.root, all);
  }

  lemma {:induction false} CompleteFrom<D(!new)>(s: System<D>, all: seq<Block<D>>) returns (more: seq<Agent>)
    requires SysInv(s, all) && Fits(s.root, all) && SinksOnce(s.root, all) && Roomy(s.root)
    ensures Completed(Run(s, more))
    decreases StepsLeft(s)
  {
    more := [];
    if !Completed(s) {
      NotThrown(s, all);
      var a := SystemNotStuck(s, all);
      StepDecreases(s, a);
      StepSysInv(s, a, all);
      StepSame(s, a, all);
      more := CompleteFrom(Step(s, a), all);
      assert ([a] + more)[1..] == more;
      more := [a] + more;
    }
  }

  lemma StepSame<D(!new)>(s: System<D>, a: Agent, all: seq<Block<D>>)
    requires Fits(s.root, all) && SinksOnce(s.root, all) && Roomy(s.root)
    ensures Fits(Step(s, a).root, all) && SinksOnce(Step(s, a).root, all) && Roomy(Step(s, a).root)
  {
    StepSameTree(s, a);
    SameTreeFits(s.root, Step(s, a).root, all);
    SameTreeOnce(s.root, Step(s, a).root, all);
    SameTreeRoomy(s.root, Step(s, a).root);
  }

  /** Wherever a run stands, it can be continued to completion, if what is pushed fits and two ends
      arrive at no sink. */
  lemma EveryRunCanComplete<D(!new)>(t: Node<D>, s: seq<Block<D>>, schedule: seq<Agent>) returns (more: seq<Agent>)
    requires Fresh(t) && Roomy(t) && Fits(t, s) && SinksOnce(t, s)
    ensures Completed(Run(Run(Begin(t, s), schedule), more))
  {
    var run := Run(Begin(t, s), schedule);
    ReachableInv(t, s, schedule);
    RunSameTree(Begin(t, s), schedule);
    SameTreeFits(t, run.root, s);
    SameTreeOnce(t, run.root, s);
    SameTreeRoomy(t, run.root);
    more := CompleteFrom(run, s);
  }

  lemma {:induction false} RunConcat<D>(s: System<D>, a: seq<Agent>, b: seq<Agent>)
    ensures Run(s, a + b) == Run(Run(s, a), b)
    decreases |a|
  {
    if a == [] {
      assert a + b == b;
    } else {
      assert (a + b)[1..] == a[1..] + b;
      RunConcat(Step(s, a[0]), a[1..], b);
    }
  }

  /** For any stages and any stream, a run can be continued to completion from where it stands if and
      only if no buffer is sent more after its end of processing than its queue holds, and two ends
      arrive at no sink. */
  lemma CompletionIsExact<D(!new)>(t: Node<D>, s: seq<Block<D>>, schedule: seq<Agent>)
    requires Fresh(t) && Roomy(t)
    ensures (exists more :: Completed(Run(Run(Begin(t, s), schedule), more))) <==> Fits(t, s) && SinksOnce(t, s)
  {
    if more :| Completed(Run(Run(Begin(t, s), schedule), more)) {
      RunConcat(Begin(t, s), schedule, more);
      CompletedFits(t, s, schedule + more);
      CompletedOnce(t, s, schedule + more);
    }
    if Fits(t, s) && SinksOnce(t, s) { var more := EveryRunCanComplete(t, s, schedule); }
  }

  // ---------------------------------------------------------------------------------------------
  // How runs end

  ghost predicate Ended<D>(s: System<D>) { forall a :: Step(s, a) == s }

  /** Nobody can take a step, no sink has thrown, and the run is not complete. */
  ghost predicate Stuck<D>(s: System<D>) { Ended(s) && !Completed(s) && !Crashed(s.root) }

  /** No reachable state of a pipeline that fits is stuck. */
  lemma NoDeadlock<D(!new)>(t: Node<D>, s: seq<Block<D>>, schedule: seq<Agent>)
    requires Fresh(t) && Roomy(t) && Fits(t, s)
    ensures !Stuck(Run(Begin(t, s), schedule))
  {
    var run := Run(Begin(t, s), schedule);
    ReachableInv(t, s, schedule);
    RunSameTree(Begin(t, s), schedule);
    SameTreeFits(t, run.root, s);
    SameTreeRoomy(t, run.root);
    if !Crashed(run.root) { var a := SystemNotStuck(run, s); }
  }

  lemma {:induction false} RunsDown<D>(s: System<D>) returns (more: seq<Agent>)
    ensures Ended(Run(s, more))
    decreases StepsLeft(s)
  {
    more := [];
    if a :| Step(s, a) != s {
      StepDecreases(s, a);
      more := RunsDown(Step(s, a));
      assert ([a] + more)[1..] == more;
      more := [a] + more;
    }
  }

  /** Every run can be continued until nobody can take a step. It is then complete, has thrown, or is
      stuck; it completes only if everything fits and two ends arrive at no sink, throws only if two
      arrive at one, and is stuck only if something does not fit. */
  lemma EveryRunComesToAnEnd<D(!new)>(t: Node<D>, s: seq<Block<D>>, schedule: seq<Agent>) returns (more: seq<Agent>)
    requires Fresh(t) && Roomy(t)
    ensures var run := Run(Begin(t, s), schedule + more);
            && Ended(run) && (Completed(run) || Crashed(run.root) || Stuck(run))
            && (Completed(run) ==> Fits(t, s) && SinksOnce(t, s))
            && (Crashed(run.root) ==> !SinksOnce(t, s))
            && (Stuck(run) ==> !Fits(t, s))
  {
    more := RunsDown(Run(Begin(t, s), schedule));
    RunConcat(Begin(t, s), schedule, more);
    var run := Run(Begin(t, s), schedule + more);
    if Completed(run) {
      CompletedFits(t, s, schedule + more);
      CompletedOnce(t, s, schedule + more);
    }
    if SinksOnce(t, s) { NeverThrows(t, s, schedule + more); }
    if Fits(t, s) { NoDeadlock(t, s, schedule + more); }
  }

  /** A pipeline that does not fit, and at no sink of which two ends arrive, gets stuck wherever its run
      goes: some producer offers a block for ever to a buffer whose thread has stopped. */
  lemma Deadlocks<D(!new)>(t: Node<D>, s: seq<Block<D>>, schedule: seq<Agent>) returns (more: seq<Agent>)
    requires Fresh(t) && Roomy(t) && !Fits(t, s) && SinksOnce(t, s)
    ensures Stuck(Run(Begin(t, s), schedule + more))
  {
    more := EveryRunComesToAnEnd(t, s, schedule);
  }

  /** A pipeline that fits, and at a sink of which two ends arrive, throws wherever its run goes. */
  lemma Throws<D(!new)>(t: Node<D>, s: seq<Block<D>>, schedule: seq<Agent>) returns (more: seq<Agent>)
    requires Fresh(t) && Roomy(t) && Fits(t, s) && !SinksOnce(t, s)
    ensures Crashed(Run(Begin(t, s), schedule + more).root)
  {
    more := EveryRunComesToAnEnd(t, s, schedule);
  }

  // ---------------------------------------------------------------------------------------------
  // A stage that ends the processing early

  /** A stage that answers its first block with an end of processing of its own. */
  function EndsEarly<D>(r: seq<Block<D>>): Block<D> {
    if |r| > 1 then Last(r) else End()
  }

  function PassesOn<D>(r: seq<Block<D>>): Block<D> {
    if r == [] then Block(None, None) else Last(r)
  }

  function End<D>(): Block<D> { Block(None, Some(EopStatus(EopSuccess, ""))) }

  /** A node that has not been used, with one visitor for each element of `isSink`. */
  function Unused<D>(kind: Kind, stage: Stage<D>, isSink: seq<bool>, kids: seq<Node<D>>): Node<D> {
    Node(kind, stage, false, [], [], [], seq(|isSink|, _ => []),
         (set v: nat | v < |isSink| && isSink[v]), Idle, [], false, false, kids)
  }

  /** That stage in front of a pass-through node with one visitor that is no sink, of the given kind. */
  function EarlyTree<D>(kind: Kind): Node<D> {
    Unused(Plain, EndsEarly, [], [Unused(kind, PassesOn, [false], [])])
  }

  /** That stage with a sink. */
  function SinkTree<D>(): Node<D> { Unused(Plain, EndsEarly, [true], []) }

  lemma EarlyOutputs<D>(b: Block<D>, c: Block<D>)
    ensures Outputs(EndsEarly<D>, [b]) == [End()]
    ensures Outputs(EndsEarly<D>, [b, c]) == [End(), c]
  {
    assert Init([b]) == [] && Init([b, c]) == [b];
  }

  lemma EarlyThree<D>(b: Block<D>, c: Block<D>, d: Block<D>)
    requires !IsError(c)
    ensures Outputs(EndsEarly<D>, [b, c, d]) == [End(), c, d]
  {
    EarlyOutputs(b, c);
    assert Init([b, c, d]) == [b, c];
  }

  lemma {:induction false} StopsAtFirst<D>(s: seq<Block<D>>)
    requires s != [] && IsEop(s[0])
    ensures UpToEop(s) == [s[0]]
    decreases |s|
  {
    if |s| > 1 {
      StopsAtFirst(Init(s));
    } else {
      assert s == [s[0]] && Init(s) == [];
    }
  }

  lemma PassedOn<D>(s: seq<Block<D>>)
    requires s == [End()] || s == [End(), End()]
    ensures Outputs(PassesOn<D>, s) == s
  {
    assert Init(s) == if |s| == 1 then [] else [End()];
    assert Init<Block<D>>([End()]) == [];
  }

  lemma KidFresh<D(!new)>(k: Node<D>, kind: Kind)
    requires k == Unused(kind, PassesOn, [false], [])
    ensures Fresh(k) && !HasSink(k) && (kind.Plain? ==> AllPlain(k))
    ensures kind != Buffered(0) ==> Roomy(k)
  {
  }

  lemma EarlyFresh<D(!new)>(t: Node<D>, kind: Kind)
    requires t == EarlyTree(kind) && kind != Buffered(0)
    ensures Fresh(t) && !HasSink(t) && Roomy(t) && (kind.Plain? ==> AllPlain(t))
    ensures t.kind.Plain? && t.stage == EndsEarly && |t.kids| == 1 && |t.kids[0].visitors| == 1
    ensures t.kids[0].kind == kind && t.kids[0].stage == PassesOn && t.kids[0].kids == [] && !HasSink(t.kids[0])
    ensures HasPath(t, [0]) && NodeAt(t, [0]) == t.kids[0]
  {
    KidFresh(t.kids[0], kind);
    assert HasPath(t.kids[0], [0][1..]);
  }

  lemma EarlyInserted<D(!new)>(u: Node<D>, t: Node<D>)
    requires t == EarlyTree(Buffered(1)) && u == EarlyTree(Plain)
    ensures Inserted(u, t)
  {
    assert IsNoop(t.kids[0].stage);
    assert Inserted(u.kids[0], t.kids[0]);
  }

  /** A node with that stage in front of one childless buffer. */
  ghost predicate EarlyShape<D>(t: Node<D>, maxBlocks: nat) {
    && t.kind.Plain? && t.stage == EndsEarly && |t.kids| == 1 && !HasSink(t)
    && t.kids[0].kind == Buffered(maxBlocks) && t.kids[0].stage == PassesOn && t.kids[0].kids == []
    && !HasSink(t.kids[0]) && |t.kids[0].visitors| == 1
  }

  lemma BufferFits<D>(k: Node<D>, s: seq<Block<D>>)
    requires k.kind == Buffered(1) && k.kids == [] && |s| == 2 && IsEop(s[0])
    ensures Fits(k, s)
  {
    StopsAtFirst(s);
  }

  lemma OnlyKidFits<D>(t: Node<D>, s: seq<Block<D>>, o: seq<Block<D>>)
    requires t.kind.Plain? && |t.kids| == 1 && Outputs(t.stage, s) == o && Fits(t.kids[0], o)
    ensures Fits(t, s)
  {
  }

  lemma EarlyFits<D>(t: Node<D>, s: seq<Block<D>>)
    requires EarlyShape(t, 1) && Outputs(EndsEarly<D>, s) == [End(), End()]
    ensures Fits(t, s)
  {
    BufferFits(t.kids[0], [End(), End()]);
    OnlyKidFits(t, s, [End(), End()]);
  }

  lemma EarlyOnce<D>(t: Node<D>, s: seq<Block<D>>)
    requires EarlyShape(t, 1)
    ensures SinksOnce(t, s)
  {
    assert SinksOnce(t.kids[0], Outputs(t.stage, s));
  }

  lemma EarlyArrives<D>(t: Node<D>, s: seq<Block<D>>)
    requires EarlyShape(t, 1) && Outputs(EndsEarly<D>, s) == [End(), End()] && HasPath(t, [0])
    ensures Arriving(t, [0], s) == [End()]
  {
    StopsAtFirst<D>([End(), End()]);
    PassedOn<D>([End()]);
    assert Arriving(t, [0], s) == Arriving(t.kids[0], [0][1..], [End(), End()]);
  }

  lemma OnlyVisitor<D(!new)>(t: Node<D>, s: seq<Block<D>>)
    requires SeesAll(t, s) && t.kind.Plain? && |t.kids| == 1 && t.kids[0].kind.Plain? && |t.kids[0].visitors| == 1
    ensures t.kids[0].visitors == [Outputs(t.kids[0].stage, Outputs(t.stage, s))]
  {
  }

  /** What the only visitor of a synchronous tree of two nodes is shown. */
  lemma SynchronousShows<D(!new)>(u: Node<D>, s: seq<Block<D>>)
    requires Fresh(u) && AllPlain(u) && |u.kids| == 1 && |u.kids[0].visitors| == 1
    ensures var sync := PushAll(u, s);
            |sync.kids| == 1 && sync.kids[0].visitors == [Outputs(u.kids[0].stage, Outputs(u.stage, s))]
  {
    SynchronousSees(u, s);
    OnlyVisitor(PushAll(u, s), s);
  }

  lemma OnlyVisitorShown<D(!new)>(t: Node<D>, s: seq<Block<D>>, schedule: seq<Agent>)
    requires Fresh(t) && |t.kids| == 1 && |t.kids[0].visitors| == 1
    requires HasPath(t, [0]) && NodeAt(t, [0]) == t.kids[0]
    requires Completed(Run(Begin(t, s), schedule))
    ensures var root := Run(Begin(t, s), schedule).root;
            |root.kids| == 1 && root.kids[0].visitors == [Arriving(t, [0], s)]
  {
    var root := Run(Begin(t, s), schedule).root;
    RunSameTree(Begin(t, s), schedule);
    VisitorSees(t, s, schedule, [0], 0);
    assert NodeAt(root, [0]) == root.kids[0];
  }

  lemma CompleteOnlyVisitor<D(!new)>(t: Node<D>, s: seq<Block<D>>, schedule: seq<Agent>) returns (more: seq<Agent>)
    requires Fresh(t) && Roomy(t) && Fits(t, s) && SinksOnce(t, s) && |t.kids| == 1 && |t.kids[0].visitors| == 1
    requires HasPath(t, [0]) && NodeAt(t, [0]) == t.kids[0]
    ensures var run := Run(Begin(t, s), schedule + more);
            Completed(run) && |run.root.kids| == 1 && run.root.kids[0].visitors == [Arriving(t, [0], s)]
  {
    more := EveryRunCanComplete(t, s, schedule);
    RunConcat(Begin(t, s), schedule, more);
    OnlyVisitorShown(t, s, schedule + more);
  }

  /** data, EOP into that stage in front of a buffer: in a complete run, to which every run can be
      continued, the visitor behind the buffer has been shown the early end alone ... */
  lemma EarlyEndIsCut<D(!new)>(t: Node<D>, data: D, schedule: seq<Agent>) returns (more: seq<Agent>)
    requires t == EarlyTree(Buffered(1))
    ensures var run := Run(Begin(t, [Block(Some(data), None), End()]), schedule + more);
            Completed(run) && |run.root.kids| == 1 && run.root.kids[0].visitors == [[End()]]
  {
    EarlyFresh(t, Buffered(1));
    more := EarlyRun(t, [Block(Some(data), None), End()], schedule);
  }

  lemma EarlyRun<D(!new)>(t: Node<D>, s: seq<Block<D>>, schedule: seq<Agent>) returns (more: seq<Agent>)
    requires EarlyShape(t, 1) && Fresh(t) && Roomy(t) && HasPath(t, [0]) && NodeAt(t, [0]) == t.kids[0]
    requires |s| == 2 && s[1] == End()
    ensures var run := Run(Begin(t, s), schedule + more);
            Completed(run) && |run.root.kids| == 1 && run.root.kids[0].visitors == [[End()]]
  {
    EarlyOutputs(s[0], s[1]);
    assert s == [s[0], s[1]];
    EarlyFits(t, s);
    EarlyOnce(t, s);
    EarlyArrives(t, s);
    more := CompleteOnlyVisitor(t, s, schedule);
  }

  /** ... while the tree without the buffer, into which it is inserted, shows it both. */
  lemma EarlyEndIsShown<D(!new)>(u: Node<D>, t: Node<D>, data: D)
    requires u == EarlyTree(Plain) && t == EarlyTree(Buffered(1))
    ensures Fresh(u) && AllPlain(u) && Fresh(t) && Inserted(u, t)
    ensures Complete([Block(Some(data), None), End()])
    ensures var sync := PushAll(u, [Block(Some(data), None), End()]);
            |sync.kids| == 1 && sync.kids[0].visitors == [[End(), End()]]
  {
    EarlyFresh(u, Plain);
    EarlyFresh(t, Buffered(1));
    EarlyInserted(u, t);
    EarlySynchronous(u, [Block(Some(data), None), End()]);
  }

  lemma EarlySynchronous<D(!new)>(u: Node<D>, s: seq<Block<D>>)
    requires Fresh(u) && AllPlain(u) && |u.kids| == 1 && |u.kids[0].visitors| == 1
    requires u.stage == EndsEarly && u.kids[0].stage == PassesOn && |s| == 2 && s[1] == End()
    ensures var sync := PushAll(u, s); |sync.kids| == 1 && sync.kids[0].visitors == [[End(), End()]]
  {
    SynchronousShows(u, s);
    EarlyOutputs(s[0], s[1]);
    PassedOn<D>([End(), End()]);
    assert s == [s[0], s[1]];
  }

  /** data, data, EOP into the same tree: the early end and two blocks more than its queue of one holds.
      No run of it completes; wherever it goes, the source's thread ends up offering a block for ever. */
  lemma SpinsForever<D(!new)>(t: Node<D>, data: D, schedule: seq<Agent>) returns (more: seq<Agent>)
    requires t == EarlyTree(Buffered(1))
    ensures var s := [Block(Some(data), None), Block(Some(data), None), End()];
            && Fresh(t) && Roomy(t) && Complete(s)
            && Stuck(Run(Begin(t, s), schedule + more)) && !Completed(Run(Begin(t, s), schedule))
  {
    EarlyFresh(t, Buffered(1));
    more := SpinningRun(t, [Block(Some(data), None), Block(Some(data), None), End()], schedule);
  }

  lemma SpinningRun<D(!new)>(t: Node<D>, s: seq<Block<D>>, schedule: seq<Agent>) returns (more: seq<Agent>)
    requires EarlyShape(t, 1) && Fresh(t) && Roomy(t) && |s| == 3 && !IsError(s[1])
    ensures Stuck(Run(Begin(t, s), schedule + more)) && !Completed(Run(Begin(t, s), schedule))
  {
    EarlyThree(s[0], s[1], s[2]);
    assert s == [s[0], s[1], s[2]];
    StopsAtFirst([End(), s[1], s[2]]);
    assert !Fits(t.kids[0], Outputs(t.stage, Delivered(t, s)));
    if Completed(Run(Begin(t, s), schedule)) { CompletedFits(t, s, schedule); }
    EarlyOnce(t, s);
    more := Deadlocks(t, s, schedule);
  }

  /** data, EOP into that stage with a sink: the early end and the end of the stream arrive at it, and
      wherever a run goes, the second one throws. */
  lemma SecondEndThrows<D(!new)>(t: Node<D>, data: D, schedule: seq<Agent>) returns (more: seq<Agent>)
    requires t == SinkTree()
    ensures var s := [Block(Some(data), None), End()];
            && Fresh(t) && Roomy(t) && Complete(s)
            && Crashed(Run(Begin(t, s), schedule + more).root) && !Completed(Run(Begin(t, s), schedule))
  {
    assert t.visitors == [[]] && 0 in t.sinks;
    more := ThrowingRun(t, [Block(Some(data), None), End()], schedule);
  }

  lemma ThrowingRun<D(!new)>(t: Node<D>, s: seq<Block<D>>, schedule: seq<Agent>) returns (more: seq<Agent>)
    requires Fresh(t) && t.kind.Plain? && t.stage == EndsEarly && HasSink(t) && t.kids == []
    requires |s| == 2 && s[1] == End()
    ensures Crashed(Run(Begin(t, s), schedule + more).root) && !Completed(Run(Begin(t, s), schedule))
  {
    EarlyOutputs(s[0], s[1]);
    assert s == [s[0], s[1]];
    TwoEnds<D>();
    if Completed(Run(Begin(t, s), schedule)) { CompletedOnce(t, s, schedule); }
    more := Throws(t, s, schedule);
  }

  lemma TwoEnds<D>()
    ensures TwoEops<D>([End(), End()])
  {
    var s: seq<Block<D>> := [End(), End()];
    assert IsEop(s[0]) && IsEop(s[1]);
  }
}
