/** What the visitors of a pipeline see: threading is transparent, every sink resolves with the first
    end of processing that arrives at it, and back-pressure bounds what is in flight. */
module PipelineTheorems {
  import opened Options
  import opened Streams
  import opened Pipelines
  import opened PipelineRuns

  // ---------------------------------------------------------------------------------------------
  // Threading is transparent

  ghost predicate SameNode<D>(u: Node<D>, t: Node<D>) {
    && u.kind.Plain? && u.stage == t.stage && u.sinks == t.sinks
    && |u.visitors| == |t.visitors| && |u.kids| == |t.kids|
  }

  /** A buffer with a single child can be left out altogether. */
  ghost predicate Droppable<D(!new)>(t: Node<D>) {
    t.kind.Buffered? && IsNoop(t.stage) && |t.kids| == 1
  }

  /** `t` is the plain tree `u` with threaded buffers put in place of some of its pass-through nodes
      and inserted in front of any of its nodes. */
  ghost predicate Inserted<D(!new)>(u: Node<D>, t: Node<D>)
    decreases t
  {
    || (SameNode(u, t) && (t.kind.Buffered? ==> IsNoop(t.stage))
        && forall i :: 0 <= i < |t.kids| ==> Inserted(u.kids[i], t.kids[i]))
    || (Droppable(t) && Inserted(u, t.kids[0]))
  }

  /** Every visitor of `t` has been shown a prefix of what its counterpart in `u` has been shown. */
  ghost predicate ShowsPrefix<D(!new)>(u: Node<D>, t: Node<D>)
    decreases t
  {
    && (SameNode(u, t) ==>
          && (forall v :: 0 <= v < |t.visitors| ==> t.visitors[v] <= u.visitors[v])
          && forall i :: 0 <= i < |t.kids| && Inserted(u.kids[i], t.kids[i]) ==> ShowsPrefix(u.kids[i], t.kids[i]))
    && (Droppable(t) && Inserted(u, t.kids[0]) ==> ShowsPrefix(u, t.kids[0]))
  }

  /** Every processor of `t` has received and every visitor of `t` has been shown exactly what its
      counterpart in `u` has. */
  ghost predicate GetsSame<D(!new)>(u: Node<D>, t: Node<D>)
    decreases t
  {
    && (SameNode(u, t) ==>
          && u.received == t.received && u.visitors == t.visitors
          && forall i :: 0 <= i < |t.kids| && Inserted(u.kids[i], t.kids[i]) ==> GetsSame(u.kids[i], t.kids[i]))
    && (Droppable(t) && Inserted(u, t.kids[0]) ==> GetsSame(u, t.kids[0]))
  }

  /** No buffer is sent anything after an end-of-processing block, when every block is passed on. */
  ghost predicate BuffersTidy<D>(t: Node<D>, input: seq<Block<D>>) {
    && (t.kind.Buffered? ==> UpToEop(input) == input)
    && forall i :: 0 <= i < |t.kids| ==> BuffersTidy(t.kids[i], Outputs(t.stage, input))
  }

  ghost predicate TreeBehaved<D(!new)>(t: Node<D>) {
    Behaved(t.stage) && forall i :: 0 <= i < |t.kids| ==> TreeBehaved(t.kids[i])
  }

  lemma BufferPasses<D(!new)>(f: Stage<D>, input: seq<Block<D>>)
    requires IsNoop(f)
    ensures Outputs(f, UpToEop(input)) == UpToEop(input)
  {
    NoopOutputs(f, UpToEop(input));
  }

  lemma {:induction false} PrefixTransparent<D(!new)>(u: Node<D>, t: Node<D>, inU: seq<Block<D>>, inT: seq<Block<D>>)
    requires Inserted(u, t) && SeesAll(u, inU) && SeesPrefix(t, inT) && inT <= inU
    ensures ShowsPrefix(u, t)
    decreases t
  {
    if SameNode(u, t) {
      OutputsMonotone(t.stage, Delivered(t, inT), inU);
      forall i | 0 <= i < |t.kids| && Inserted(u.kids[i], t.kids[i]) ensures ShowsPrefix(u.kids[i], t.kids[i]) {
        PrefixTransparent(u.kids[i], t.kids[i], Outputs(t.stage, inU), Outputs(t.stage, Delivered(t, inT)));
      }
    }
    if Droppable(t) && Inserted(u, t.kids[0]) {
      BufferPasses(t.stage, inT);
      PrefixTransparent(u, t.kids[0], inU, UpToEop(inT));
    }
  }

  lemma {:induction false} SameTransparent<D(!new)>(u: Node<D>, t: Node<D>, input: seq<Block<D>>)
    requires Inserted(u, t) && BuffersTidy(t, input)
    requires SeesAll(u, input) && SeesAll(t, input)
    ensures GetsSame(u, t)
    decreases t
  {
    if SameNode(u, t) {
      forall i | 0 <= i < |t.kids| && Inserted(u.kids[i], t.kids[i]) ensures GetsSame(u.kids[i], t.kids[i]) {
        SameTransparent(u.kids[i], t.kids[i], Outputs(t.stage, input));
      }
    }
    if Droppable(t) && Inserted(u, t.kids[0]) {
      BufferPasses(t.stage, input);
      SameTransparent(u, t.kids[0], input);
    }
  }

  /** What receives the same has been sent no less. */
  lemma {:induction false} GetsNoLess<D(!new)>(u: Node<D>, t: Node<D>, inU: seq<Block<D>>, inT: seq<Block<D>>)
    requires Inserted(u, t) && SeesAll(u, inU) && SeesAll(t, inT) && GetsSame(u, t)
    ensures |inU| <= |inT|
    decreases t
  {
    if !SameNode(u, t) {
      BufferPasses(t.stage, inT);
      GetsNoLess(u, t.kids[0], inU, UpToEop(inT));
    } else {
      assert u.received == inU && t.received == Delivered(t, inT);
    }
  }

  lemma SameInput<D(!new)>(u: Node<D>, t: Node<D>, input: seq<Block<D>>)
    requires SameNode(u, t) && SeesAll(u, input) && SeesAll(t, input) && GetsSame(u, t)
    ensures Delivered(t, input) == input
  {
    assert u.received == input && t.received == Delivered(t, input);
  }

  lemma SameBehindBuffer<D(!new)>(u: Node<D>, t: Node<D>, input: seq<Block<D>>)
    requires Droppable(t) && Inserted(u, t.kids[0]) && SeesAll(u, input) && SeesAll(t, input) && GetsSame(u, t)
    ensures UpToEop(input) == input && Outputs(t.stage, input) == input
  {
    BufferPasses(t.stage, input);
    GetsNoLess(u, t.kids[0], input, UpToEop(input));
  }

  lemma {:induction false} SameIsTidy<D(!new)>(u: Node<D>, t: Node<D>, input: seq<Block<D>>)
    requires Inserted(u, t) && SeesAll(u, input) && SeesAll(t, input) && GetsSame(u, t)
    ensures BuffersTidy(t, input)
    decreases t
  {
    if SameNode(u, t) && forall i :: 0 <= i < |t.kids| ==> Inserted(u.kids[i], t.kids[i]) {
      SameInput(u, t, input);
      forall i | 0 <= i < |t.kids| ensures BuffersTidy(t.kids[i], Outputs(t.stage, input)) {
        SameIsTidy(u.kids[i], t.kids[i], Outputs(t.stage, input));
      }
    } else {
      SameBehindBuffer(u, t, input);
      SeenBehindBuffer(t, input);
      SameIsTidy(u, t.kids[0], input);
      TidyBehindBuffer(t, input);
    }
  }

  lemma SeenBehindBuffer<D>(t: Node<D>, input: seq<Block<D>>)
    requires SeesAll(t, input) && t.kind.Buffered? && |t.kids| == 1
    requires UpToEop(input) == input && Outputs(t.stage, input) == input
    ensures SeesAll(t.kids[0], input)
  {
  }

  lemma TidyBehindBuffer<D>(t: Node<D>, input: seq<Block<D>>)
    requires |t.kids| == 1 && BuffersTidy(t.kids[0], input)
    requires UpToEop(input) == input && Outputs(t.stage, input) == input
    ensures BuffersTidy(t, input)
  {
  }

  lemma {:induction false} BehavedIsTidy<D(!new)>(t: Node<D>, input: seq<Block<D>>)
    requires TreeBehaved(t) && EopOnlyLast(input)
    ensures BuffersTidy(t, input)
    decreases t
  {
    UpToEopOfTidy(input);
    OutputsEopOnlyLast(t.stage, input);
    forall i | 0 <= i < |t.kids| ensures BuffersTidy(t.kids[i], Outputs(t.stage, input)) {
      BehavedIsTidy(t.kids[i], Outputs(t.stage, input));
    }
  }

  /** The parts of a tree that running it does not change. */
  ghost predicate SameTree<D>(t: Node<D>, t': Node<D>) {
    && t'.kind == t.kind && t'.stage == t.stage && t'.sinks == t.sinks
    && |t'.visitors| == |t.visitors| && |t'.kids| == |t.kids|
    && forall i :: 0 <= i < |t.kids| ==> SameTree(t.kids[i], t'.kids[i])
  }

  lemma {:induction false} SameTreeRefl<D>(t: Node<D>)
    ensures SameTree(t, t)
  {
    forall i | 0 <= i < |t.kids| ensures SameTree(t.kids[i], t.kids[i]) { SameTreeRefl(t.kids[i]); }
  }

  lemma {:induction false} SameTreeTrans<D>(a: Node<D>, b: Node<D>, c: Node<D>)
    requires SameTree(a, b) && SameTree(b, c)
    ensures SameTree(a, c)
  {
    forall i | 0 <= i < |a.kids| ensures SameTree(a.kids[i], c.kids[i]) {
      SameTreeTrans(a.kids[i], b.kids[i], c.kids[i]);
    }
  }

  lemma OfferSameTree<D>(t: Node<D>, b: Block<D>)
    requires Offer(t, b).Some?
    ensures SameTree(t, Offer(t, b).value)
  {
    SameTreeRefl(t);
  }

  lemma LocalStepSameTree<D>(t: Node<D>)
    ensures SameTree(t, LocalStep(t))
  {
    var u := LocalStep(t);
    SameTreeRefl(t);
    if t.act.Pushing? && t.act.k < |t.kids| && !t.act.inside && Offer(t.kids[t.act.k], t.act.o).Some? {
      OfferSameTree(t.kids[t.act.k], t.act.o);
      assert forall i :: 0 <= i < |t.kids| && i != t.act.k ==> u.kids[i] == t.kids[i];
    }
  }

  lemma {:induction false} StepAtSameTree<D>(t: Node<D>, path: seq<nat>)
    ensures SameTree(t, StepAt(t, path))
    decreases |path|
  {
    if path == [] {
      LocalStepSameTree(t);
    } else {
      SameTreeRefl(t);
      if path[0] < |t.kids| { StepAtSameTree(t.kids[path[0]], path[1..]); }
    }
  }

  lemma {:induction false} RunSameTree<D>(s: System<D>, schedule: seq<Agent>)
    ensures SameTree(s.root, Run(s, schedule).root)
    decreases |schedule|
  {
    if schedule == [] {
      SameTreeRefl(s.root);
    } else {
      StepSameTree(s, schedule[0]);
      RunSameTree(Step(s, schedule[0]), schedule[1..]);
      SameTreeTrans(s.root, Step(s, schedule[0]).root, Run(s, schedule).root);
    }
  }

  lemma StepSameTree<D>(s: System<D>, a: Agent)
    ensures SameTree(s.root, Step(s, a).root)
  {
    SameTreeRefl(s.root);
    match a
    case At(path) => StepAtSameTree(s.root, path);
    case Source =>
      if !s.inside && s.pending != [] && Offer(s.root, s.pending[0]).Some? {
        OfferSameTree(s.root, s.pending[0]);
      }
  }

  lemma {:induction false} PushSameTree<D>(t: Node<D>, b: Block<D>)
    ensures SameTree(t, Push(t, b))
    decreases t
  {
    SameTreeRefl(t);
    if !t.hadError {
      forall i | 0 <= i < |t.kids| ensures SameTree(t.kids[i], Push(t, b).kids[i]) {
        PushSameTree(t.kids[i], t.stage(t.handled + [b]));
      }
    }
  }

  lemma {:induction false} PushAllSameTree<D>(t: Node<D>, s: seq<Block<D>>)
    ensures SameTree(t, PushAll(t, s))
    decreases |s|
  {
    if s == [] {
      SameTreeRefl(t);
    } else {
      PushAllSameTree(t, Init(s));
      PushSameTree(PushAll(t, Init(s)), Last(s));
      SameTreeTrans(t, PushAll(t, Init(s)), PushAll(t, s));
    }
  }

  lemma {:induction false} SameTreeInserted<D(!new)>(u: Node<D>, t: Node<D>, u': Node<D>, t': Node<D>)
    requires Inserted(u, t) && SameTree(u, u') && SameTree(t, t')
    ensures Inserted(u', t')
    decreases t
  {
    if SameNode(u, t) && (t.kind.Buffered? ==> IsNoop(t.stage))
       && forall i :: 0 <= i < |t.kids| ==> Inserted(u.kids[i], t.kids[i]) {
      forall i | 0 <= i < |t.kids| ensures Inserted(u'.kids[i], t'.kids[i]) {
        SameTreeInserted(u.kids[i], t.kids[i], u'.kids[i], t'.kids[i]);
      }
    } else {
      SameTreeInserted(u, t.kids[0], u', t'.kids[0]);
    }
  }

  lemma {:induction false} SameTreeBehaved<D(!new)>(t: Node<D>, t': Node<D>)
    requires TreeBehaved(t) && SameTree(t, t')
    ensures TreeBehaved(t')
  {
    forall i | 0 <= i < |t'.kids| ensures TreeBehaved(t'.kids[i]) {
      SameTreeBehaved(t.kids[i], t'.kids[i]);
    }
  }

  lemma {:induction false} SameTreeTidy<D(!new)>(t: Node<D>, t': Node<D>, input: seq<Block<D>>)
    requires SameTree(t, t')
    ensures BuffersTidy(t, input) <==> BuffersTidy(t', input)
    decreases t
  {
    forall i | 0 <= i < |t.kids|
      ensures BuffersTidy(t.kids[i], Outputs(t.stage, input)) <==> BuffersTidy(t'.kids[i], Outputs(t.stage, input))
    {
      SameTreeTidy(t.kids[i], t'.kids[i], Outputs(t.stage, input));
    }
  }

  lemma SynchronousTree<D(!new)>(u: Node<D>, t: Node<D>, s: seq<Block<D>>, schedule: seq<Agent>)
    requires Fresh(u) && AllPlain(u) && Inserted(u, t)
    ensures SeesAll(PushAll(u, s), s) && Inserted(PushAll(u, s), Run(Begin(t, s), schedule).root)
  {
    PushAllInv(u, s);
    QuietSeesAll(PushAll(u, s), s);
    RunSameTree(Begin(t, s), schedule);
    PushAllSameTree(u, s);
    SameTreeInserted(u, t, PushAll(u, s), Run(Begin(t, s), schedule).root);
  }

  /** Insert threaded buffers anywhere into a tree of plain processors, push any blocks into it and let
      the threads interleave in any way: at every moment each visitor has been shown a prefix of what
      the synchronous tree shows it. */
  lemma ThreadingShowsPrefix<D(!new)>(u: Node<D>, t: Node<D>, s: seq<Block<D>>, schedule: seq<Agent>)
    requires Fresh(u) && AllPlain(u) && Fresh(t) && Inserted(u, t)
    ensures ShowsPrefix(PushAll(u, s), Run(Begin(t, s), schedule).root)
  {
    var run := Run(Begin(t, s), schedule);
    SynchronousTree(u, t, s, schedule);
    ReachableInv(t, s, schedule);
    InvSeesPrefix(run.root, run.sent, s);
    PrefixTransparent(PushAll(u, s), run.root, s, s);
  }

  /** Once the run is complete, every processor and every visitor has got exactly what it gets in the
      synchronous tree, if and only if no buffer is sent a block after an end-of-processing block. */
  lemma ThreadingIsExact<D(!new)>(u: Node<D>, t: Node<D>, s: seq<Block<D>>, schedule: seq<Agent>)
    requires Fresh(u) && AllPlain(u) && Fresh(t) && Inserted(u, t)
    requires Completed(Run(Begin(t, s), schedule))
    ensures GetsSame(PushAll(u, s), Run(Begin(t, s), schedule).root) <==> BuffersTidy(t, s)
  {
    var run := Run(Begin(t, s), schedule);
    SynchronousTree(u, t, s, schedule);
    ReachableInv(t, s, schedule);
    assert run.sent == s;
    QuietSeesAll(run.root, s);
    RunSameTree(Begin(t, s), schedule);
    SameTreeTidy(t, run.root, s);
    if BuffersTidy(run.root, s) { SameTransparent(PushAll(u, s), run.root, s); }
    if GetsSame(PushAll(u, s), run.root) { SameIsTidy(PushAll(u, s), run.root, s); }
  }

  /** In particular when data* EOP goes into a tree whose stages pass the end of processing through and
      end it on errors only. */
  lemma ThreadingIsTransparent<D(!new)>(u: Node<D>, t: Node<D>, s: seq<Block<D>>, schedule: seq<Agent>)
    requires Fresh(u) && AllPlain(u) && Fresh(t) && Inserted(u, t) && TreeBehaved(t) && EopOnlyLast(s)
    requires Completed(Run(Begin(t, s), schedule))
    ensures GetsSame(PushAll(u, s), Run(Begin(t, s), schedule).root)
  {
    BehavedIsTidy(t, s);
    ThreadingIsExact(u, t, s, schedule);
  }

  // ---------------------------------------------------------------------------------------------
  // Sinks

  predicate HasPath<D>(t: Node<D>, path: seq<nat>)
    decreases |path|
  {
    path == [] || (path[0] < |t.kids| && HasPath(t.kids[path[0]], path[1..]))
  }

  function NodeAt<D>(t: Node<D>, path: seq<nat>): Node<D>
    requires HasPath(t, path)
    decreases |path|
  {
    if path == [] then t else NodeAt(t.kids[path[0]], path[1..])
  }

  /** The stages from the root down to and including the node at `path`. */
  function StagesTo<D>(t: Node<D>, path: seq<nat>): seq<Stage<D>>
    requires HasPath(t, path)
    decreases |path|
  {
    [t.stage] + (if path == [] then [] else StagesTo(t.kids[path[0]], path[1..]))
  }

  lemma DeliveredTidy<D(!new)>(t: Node<D>, input: seq<Block<D>>)
    requires EopOnlyLast(input)
    ensures Delivered(t, input) == input
  {
    UpToEopOfTidy(input);
  }

  lemma {:induction false} AlongCons<D(!new)>(f: Stage<D>, fs: seq<Stage<D>>, s: seq<Block<D>>)
    ensures Along([f] + fs, s) == Along(fs, Outputs(f, s))
    decreases |fs|
  {
    if fs == [] {
      assert [f] + fs == [f] && Init([f]) == [];
    } else {
      var gs := [f] + fs;
      assert Init(gs) == [f] + Init(fs) && Last(gs) == Last(fs);
      AlongCons(f, Init(fs), s);
    }
  }

  /** What arrives at the visitors of the node at `path`, when `input` is pushed into `t`. */
  function Arriving<D>(t: Node<D>, path: seq<nat>, input: seq<Block<D>>): seq<Block<D>>
    requires HasPath(t, path)
    decreases |path|
  {
    var o := Outputs(t.stage, Delivered(t, input));
    if path == [] then o else Arriving(t.kids[path[0]], path[1..], o)
  }

  lemma {:induction false} SeenArriving<D(!new)>(t: Node<D>, path: seq<nat>, input: seq<Block<D>>, v: nat)
    requires HasPath(t, path) && v < |NodeAt(t, path).visitors|
    ensures SeesPrefix(t, input) ==> NodeAt(t, path).visitors[v] <= Arriving(t, path, input)
    ensures SeesAll(t, input) ==> NodeAt(t, path).visitors[v] == Arriving(t, path, input)
    decreases |path|
  {
    if path != [] { SeenArriving(t.kids[path[0]], path[1..], Outputs(t.stage, Delivered(t, input)), v); }
  }

  lemma {:induction false} SameTreeArriving<D(!new)>(t: Node<D>, t': Node<D>, path: seq<nat>, input: seq<Block<D>>)
    requires SameTree(t, t') && HasPath(t, path) && HasPath(t', path)
    ensures Arriving(t', path, input) == Arriving(t, path, input)
    decreases |path|
  {
    if path != [] {
      SameTreeArriving(t.kids[path[0]], t'.kids[path[0]], path[1..], Outputs(t.stage, Delivered(t, input)));
    }
  }

  /** Along behaved stages, the buffers make no difference to what arrives. */
  lemma {:induction false} ArrivingIsAlong<D(!new)>(t: Node<D>, path: seq<nat>, input: seq<Block<D>>)
    requires HasPath(t, path) && TreeBehaved(t) && EopOnlyLast(input)
    ensures AllBehaved(StagesTo(t, path)) && Arriving(t, path, input) == Along(StagesTo(t, path), input)
    decreases |path|
  {
    DeliveredTidy(t, input);
    OutputsEopOnlyLast(t.stage, input);
    if path == [] {
      AlongCons(t.stage, [], input);
      assert StagesTo(t, path) == [t.stage] + [];
    } else {
      ArrivingIsAlong(t.kids[path[0]], path[1..], Outputs(t.stage, input));
      AlongCons(t.stage, StagesTo(t.kids[path[0]], path[1..]), input);
    }
  }

  lemma VisitorSees<D(!new)>(t: Node<D>, s: seq<Block<D>>, schedule: seq<Agent>, path: seq<nat>, v: nat)
    requires Fresh(t) && HasPath(t, path) && v < |NodeAt(t, path).visitors|
    ensures var run := Run(Begin(t, s), schedule);
            && HasPath(run.root, path) && v < |NodeAt(run.root, path).visitors|
            && NodeAt(run.root, path).visitors[v] <= Arriving(t, path, s)
            && (Completed(run) ==> NodeAt(run.root, path).visitors[v] == Arriving(t, path, s))
  {
    var run := Run(Begin(t, s), schedule);
    ReachableInv(t, s, schedule);
    RunSameTree(Begin(t, s), schedule);
    SameTreePath(t, run.root, path);
    SameTreeArriving(t, run.root, path, s);
    InvSeesPrefix(run.root, run.sent, s);
    SeenArriving(run.root, path, s, v);
    if Completed(run) {
      assert run.sent == s;
      QuietSeesAll(run.root, s);
    }
  }

  lemma {:induction false} CrashedAt<D>(t: Node<D>, path: seq<nat>, v: nat)
    requires HasPath(t, path) && v < |NodeAt(t, path).visitors| && v in NodeAt(t, path).sinks
    requires SinkAfter(NodeAt(t, path).visitors[v]).thrown
    ensures Crashed(t)
    decreases |path|
  {
    if path != [] { CrashedAt(t.kids[path[0]], path[1..], v); }
  }

  /** A sink anywhere in a tree of any stages, for any stream and any interleaving: its promise has no
      other status than that of the first end-of-processing block that arrives at it, and setting it
      throws, which ends the run, only if two arrive. When a run is complete, one at most has arrived at
      the sink, and the promise has its status if it has. */
  lemma SinkResolves<D(!new)>(t: Node<D>, s: seq<Block<D>>, schedule: seq<Agent>, path: seq<nat>, v: nat)
    requires Fresh(t) && HasPath(t, path) && v < |NodeAt(t, path).visitors| && v in NodeAt(t, path).sinks
    ensures var run := Run(Begin(t, s), schedule);
            && HasPath(run.root, path) && v < |NodeAt(run.root, path).visitors|
            && var sink := SinkAfter(NodeAt(run.root, path).visitors[v]);
               var arriving := Arriving(t, path, s);
               && (sink.status.Some? ==> sink.status == FirstEop(arriving))
               && (sink.thrown ==> TwoEops(arriving) && Crashed(run.root))
               && (Completed(run) ==> sink == Promise(FirstEop(arriving), false) && !TwoEops(arriving))
  {
    VisitorSees(t, s, schedule, path, v);
    var run := Run(Begin(t, s), schedule);
    var log := NodeAt(run.root, path).visitors[v];
    SinkExact(log);
    SinkKeeps(log, Arriving(t, path, s));
    RunSameTree(Begin(t, s), schedule);
    SameTreePath(t, run.root, path);
    if SinkAfter(log).thrown { CrashedAt(run.root, path, v); }
  }

  /** With stages that pass the end of processing through and end it early on errors only, and data* EOP
      pushed in, a sink's promise never throws, has no other status than the one that arrives at the end
      of its path, which is that of the first failing block and stage or else the source's
      (`StatusAtEnd`), and is set when the run is complete. */
  lemma SinkResolvesOnce<D(!new)>(t: Node<D>, s: seq<Block<D>>, schedule: seq<Agent>, path: seq<nat>, v: nat)
    requires Fresh(t) && TreeBehaved(t) && Complete(s)
    requires HasPath(t, path) && v < |NodeAt(t, path).visitors| && v in NodeAt(t, path).sinks
    ensures var run := Run(Begin(t, s), schedule);
            && HasPath(run.root, path) && v < |NodeAt(run.root, path).visitors|
            && var sink := SinkAfter(NodeAt(run.root, path).visitors[v]);
               var arrived := Along(StagesTo(t, path), s);
               && Complete(arrived)
               && !sink.thrown
               && (sink.status.Some? ==> sink.status == Last(arrived).eop)
               && (Completed(run) ==> sink.status == Last(arrived).eop && sink.status.Some?)
  {
    SinkResolves(t, s, schedule, path, v);
    ArrivingIsAlong(t, path, s);
    AlongComplete(StagesTo(t, path), s);
    UpToEopOfTidy(Along(StagesTo(t, path), s));
  }

  lemma {:induction false} SameTreePath<D>(t: Node<D>, t': Node<D>, path: seq<nat>)
    requires SameTree(t, t') && HasPath(t, path)
    ensures HasPath(t', path) && StagesTo(t', path) == StagesTo(t, path)
    ensures |NodeAt(t', path).visitors| == |NodeAt(t, path).visitors| && NodeAt(t', path).sinks == NodeAt(t, path).sinks
    decreases |path|
  {
    if path != [] { SameTreePath(t.kids[path[0]], t'.kids[path[0]], path[1..]); }
  }

  // ---------------------------------------------------------------------------------------------
  // Back-pressure

  /** The blocks whose processing by this node is over. */
  function Processed<D>(t: Node<D>): int {
    |t.received| - (if t.act.Idle? then 0 else 1)
  }

  /** The blocks pushed into the node at `path`, when `sent` have been pushed into `t`. */
  function SentAt<D>(t: Node<D>, path: seq<nat>, sent: seq<Block<D>>): seq<Block<D>>
    requires HasPath(t, path)
    decreases |path|
  {
    if path == [] then sent else SentAt(t.kids[path[0]], path[1..], SentTo(t, path[0]))
  }

  lemma {:induction false} InvAt<D(!new)>(t: Node<D>, path: seq<nat>, sent: seq<Block<D>>)
    requires HasPath(t, path) && Inv(t, sent)
    ensures Inv(NodeAt(t, path), SentAt(t, path, sent))
    decreases |path|
  {
    if path != [] { InvAt(t.kids[path[0]], path[1..], SentTo(t, path[0])); }
  }

  /** Of the blocks pushed into a buffer anywhere in the tree, all but `maxBlocks + 1` have been
      processed; nothing after the first end-of-processing block is ever delivered, and of the blocks
      pushed after that one at most `maxBlocks` have been accepted. This holds for any stages and any
      stream, tidy or not. */
  lemma BackPressure<D(!new)>(t: Node<D>, s: seq<Block<D>>, schedule: seq<Agent>, path: seq<nat>)
    requires Fresh(t) && HasPath(t, path) && NodeAt(t, path).kind.Buffered?
    ensures var run := Run(Begin(t, s), schedule);
            && run.sent <= s && HasPath(run.root, path)
            && var buffer, sent := NodeAt(run.root, path), SentAt(run.root, path, run.sent);
               var max := NodeAt(t, path).kind.maxBlocks;
               && |sent| - Processed(buffer) <= max + 1
               && buffer.received <= UpToEop(sent)
               && (buffer.sawEop ==> buffer.received == UpToEop(sent) && |sent| <= |UpToEop(sent)| + max)
  {
    var run := Run(Begin(t, s), schedule);
    ReachableInv(t, s, schedule);
    RunSameTree(Begin(t, s), schedule);
    SameTreePath(t, run.root, path);
    SameTreeAt(t, run.root, path);
    InvAt(run.root, path, run.sent);
    BufferBounds(NodeAt(run.root, path), SentAt(run.root, path, run.sent));
  }

  lemma BufferBounds<D(!new)>(buffer: Node<D>, sent: seq<Block<D>>)
    requires Inv(buffer, sent) && buffer.kind.Buffered?
    ensures |sent| - Processed(buffer) <= buffer.kind.maxBlocks + 1
    ensures buffer.received <= UpToEop(sent)
    ensures buffer.sawEop ==>
              buffer.received == UpToEop(sent) && |sent| <= |UpToEop(sent)| + buffer.kind.maxBlocks
  {
    UpToEopPrefix(buffer.received, sent);
  }

  lemma {:induction false} SameTreeAt<D>(t: Node<D>, t': Node<D>, path: seq<nat>)
    requires SameTree(t, t') && HasPath(t, path) && HasPath(t', path)
    ensures NodeAt(t', path).kind == NodeAt(t, path).kind
    decreases |path|
  {
    if path != [] { SameTreeAt(t.kids[path[0]], t'.kids[path[0]], path[1..]); }
  }
}
