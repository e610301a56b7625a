/** Sinks that are shown two end-of-processing blocks: exactly when a pipeline runs into the exception of
    such a sink. */
module PipelineThrows {
  import opened Options
  import opened Streams
  import opened Pipelines
  import opened PipelineRuns
  import opened PipelineTheorems

  predicate HasSink<D>(t: Node<D>) { exists v :: 0 <= v < |t.visitors| && v in t.sinks }

  /** At no sink of the tree do two end-of-processing blocks arrive. */
  ghost predicate SinksOnce<D>(t: Node<D>, input: seq<Block<D>>) {
    var o := Outputs(t.stage, Delivered(t, input));
    && (HasSink(t) ==> !TwoEops(o))
    && forall i :: 0 <= i < |t.kids| ==> SinksOnce(t.kids[i], o)
  }

  lemma {:induction false} SameTreeOnce<D>(t: Node<D>, t': Node<D>, input: seq<Block<D>>)
    requires SameTree(t, t')
    ensures SinksOnce(t, input) <==> SinksOnce(t', input)
    decreases t
  {
    var o := Outputs(t.stage, Delivered(t, input));
    assert HasSink(t) <==> HasSink(t');
    forall i | 0 <= i < |t.kids| ensures SinksOnce(t.kids[i], o) <==> SinksOnce(t'.kids[i], o) {
      SameTreeOnce(t.kids[i], t'.kids[i], o);
    }
  }

  /** The condition, read off a path: a sink is shown what arrives at its node. */
  lemma {:induction false} OnceAt<D>(t: Node<D>, path: seq<nat>, input: seq<Block<D>>, v: nat)
    requires SinksOnce(t, input) && HasPath(t, path)
    requires v < |NodeAt(t, path).visitors| && v in NodeAt(t, path).sinks
    ensures !TwoEops(Arriving(t, path, input))
    decreases |path|
  {
    if path != [] { OnceAt(t.kids[path[0]], path[1..], Outputs(t.stage, Delivered(t, input)), v); }
  }

  /** Stages that pass the end of processing through and end it early on errors only send it once, when
      nothing comes after it. */
  lemma {:induction false} BehavedOnce<D(!new)>(t: Node<D>, input: seq<Block<D>>)
    requires TreeBehaved(t) && EopOnlyLast(input)
    ensures SinksOnce(t, input)
    decreases t
  {
    DeliveredTidy(t, input);
    OutputsEopOnlyLast(t.stage, input);
    forall i | 0 <= i < |t.kids| ensures SinksOnce(t.kids[i], Outputs(t.stage, input)) {
      BehavedOnce(t.kids[i], Outputs(t.stage, input));
    }
  }

  lemma SinkLog<D>(log: seq<Block<D>>, o: seq<Block<D>>)
    requires log <= o && SinkAfter(log).thrown
    ensures TwoEops(o)
  {
    SinkExact(log);
    SinkKeeps(log, o);
  }

  /** A tree that has seen no more than its input leads to has not thrown, if no sink gets two ends. */
  lemma {:induction false} SeenOnce<D>(t: Node<D>, input: seq<Block<D>>)
    requires SeesPrefix(t, input) && SinksOnce(t, input)
    ensures !Crashed(t)
  {
    var o := Outputs(t.stage, Delivered(t, input));
    forall v | 0 <= v < |t.visitors| && v in t.sinks ensures !SinkAfter(t.visitors[v]).thrown {
      if SinkAfter(t.visitors[v]).thrown { SinkLog(t.visitors[v], o); }
    }
    forall i | 0 <= i < |t.kids| ensures !Crashed(t.kids[i]) { SeenOnce(t.kids[i], o); }
  }

  /** A tree that has seen all of it and has not thrown got two ends at no sink. */
  lemma {:induction false} AllSeenOnce<D>(t: Node<D>, input: seq<Block<D>>)
    requires SeesAll(t, input) && !Crashed(t)
    ensures SinksOnce(t, input)
  {
    var o := Outputs(t.stage, Delivered(t, input));
    if HasSink(t) {
      var v :| 0 <= v < |t.visitors| && v in t.sinks;
      SinkExact(t.visitors[v]);
    }
    forall i | 0 <= i < |t.kids| ensures SinksOnce(t.kids[i], o) { AllSeenOnce(t.kids[i], o); }
  }

  /** If two ends arrive at no sink, no reachable state has thrown. */
  lemma NeverThrows<D(!new)>(t: Node<D>, s: seq<Block<D>>, schedule: seq<Agent>)
    requires Fresh(t) && SinksOnce(t, s)
    ensures !Crashed(Run(Begin(t, s), schedule).root)
  {
    var run := Run(Begin(t, s), schedule);
    ReachableInv(t, s, schedule);
    RunSameTree(Begin(t, s), schedule);
    SameTreeOnce(t, run.root, s);
    InvSeesPrefix(run.root, run.sent, s);
    SeenOnce(run.root, s);
  }

  /** If two arrive at one, no run completes. */
  lemma CompletedOnce<D(!new)>(t: Node<D>, s: seq<Block<D>>, schedule: seq<Agent>)
    requires Fresh(t) && Completed(Run(Begin(t, s), schedule))
    ensures SinksOnce(t, s)
  {
    var run := Run(Begin(t, s), schedule);
    ReachableInv(t, s, schedule);
    assert run.sent == s;
    QuietSeesAll(run.root, s);
    AllSeenOnce(run.root, s);
    RunSameTree(Begin(t, s), schedule);
    SameTreeOnce(t, run.root, s);
  }

  // ---------------------------------------------------------------------------------------------
  // The synchronous tree

  lemma ThrowerThrows<D>(logs: seq<seq<Block<D>>>, sinks: set<nat>, o: Block<D>, v: nat)
    requires v <= |logs|
    ensures var k := Thrower(logs, sinks, o, v);
            && (forall w :: v <= w < k ==> !(w in sinks && SinkThrows(logs[w], o)))
            && (k < |logs| ==> k in sinks && SinkThrows(logs[k], o))
    decreases |logs| - v
  {
    if v < |logs| && !(v in sinks && SinkThrows(logs[v], o)) { ThrowerThrows(logs, sinks, o, v + 1); }
  }

  lemma NobodyThrows<D>(logs: seq<seq<Block<D>>>, o: Block<D>)
    ensures ShownUpTo(logs, o, |logs|) == seq(|logs|, v requires 0 <= v < |logs| => logs[v] + [o])
  {
  }

  /** Some child throws, or all return. */
  lemma {:induction false} KidThrows<D>(t: Node<D>, i: nat, o: Block<D>) returns (j: nat)
    requires i <= |t.kids| && KidsOrThrow(t, i, o).1
    ensures i <= j < |t.kids| && PushOrThrow(t.kids[j], o).1
    decreases |t.kids| - i
  {
    j := i;
    if !PushOrThrow(t.kids[i], o).1 { j := KidThrows(t, i + 1, o); }
  }

  lemma {:induction false} KidReturns<D>(t: Node<D>, i: nat, o: Block<D>, j: nat)
    requires i <= j < |t.kids| && !KidsOrThrow(t, i, o).1
    ensures !PushOrThrow(t.kids[j], o).1 && KidsOrThrow(t, i, o).0[j - i] == PushOrThrow(t.kids[j], o).0
    decreases j - i
  {
    if i < j { KidReturns(t, i + 1, o, j); }
  }

  lemma KidsReturn<D>(t: Node<D>, o: Block<D>)
    requires !KidsOrThrow(t, 0, o).1
    ensures forall j :: 0 <= j < |t.kids| ==>
              !PushOrThrow(t.kids[j], o).1 && KidsOrThrow(t, 0, o).0[j] == PushOrThrow(t.kids[j], o).0
  {
    forall j | 0 <= j < |t.kids|
      ensures !PushOrThrow(t.kids[j], o).1 && KidsOrThrow(t, 0, o).0[j] == PushOrThrow(t.kids[j], o).0
    {
      KidReturns(t, 0, o, j);
    }
  }

  ghost predicate OwnThrow<D>(t: Node<D>, b: Block<D>) {
    !t.hadError && Thrower(t.visitors, t.sinks, t.stage(t.handled + [b]), 0) < |t.visitors|
  }

  /** The same kids, pushed into without exceptions. */
  lemma SameAsPush<D>(t: Node<D>, b: Block<D>)
    requires !t.hadError && !PushOrThrow(t, b).1
    requires KidsOrThrow(t, 0, t.stage(t.handled + [b])).0 == Push(t, b).kids
    ensures PushOrThrow(t, b).0 == Push(t, b)
  {
    NobodyThrows(t.visitors, t.stage(t.handled + [b]));
  }

  /** If no exception leaves pushData, it does what it does without exceptions. */
  lemma {:induction false} PushReturns<D>(t: Node<D>, b: Block<D>)
    requires !PushOrThrow(t, b).1
    ensures PushOrThrow(t, b).0 == Push(t, b)
    decreases t
  {
    if !t.hadError {
      var o := t.stage(t.handled + [b]);
      KidsReturn(t, o);
      forall j | 0 <= j < |t.kids| ensures KidsOrThrow(t, 0, o).0[j] == Push(t, b).kids[j] {
        PushReturns(t.kids[j], o);
      }
      assert KidsOrThrow(t, 0, o).0 == Push(t, b).kids;
      SameAsPush(t, b);
    }
  }

  lemma OwnThrowCrashes<D>(t: Node<D>, b: Block<D>)
    requires OwnThrow(t, b)
    ensures Crashed(Push(t, b))
  {
    var o := t.stage(t.handled + [b]);
    var k := Thrower(t.visitors, t.sinks, o, 0);
    ThrowerThrows(t.visitors, t.sinks, o, 0);
    SinkMore(t.visitors[k], o);
    assert Push(t, b).visitors[k] == t.visitors[k] + [o];
  }

  /** If one leaves it, a sink has been shown two ends. */
  lemma {:induction false} PushCrashes<D>(t: Node<D>, b: Block<D>)
    requires PushOrThrow(t, b).1
    ensures Crashed(Push(t, b))
    decreases t
  {
    if OwnThrow(t, b) {
      OwnThrowCrashes(t, b);
    } else {
      var o := t.stage(t.handled + [b]);
      var j := KidThrows(t, 0, o);
      PushCrashes(t.kids[j], o);
      assert Push(t, b).kids[j] == Push(t.kids[j], o);
    }
  }

  lemma OwnSinksKeep<D>(t: Node<D>, b: Block<D>, v: nat)
    requires !t.hadError && !OwnThrow(t, b) && v < |t.visitors| && v in t.sinks && !SinkAfter(t.visitors[v]).thrown
    ensures !SinkAfter(Push(t, b).visitors[v]).thrown
  {
    var o := t.stage(t.handled + [b]);
    ThrowerThrows(t.visitors, t.sinks, o, 0);
    SinkMore(t.visitors[v], o);
  }

  /** If none does, no sink has thrown that had not thrown before. */
  lemma {:induction false} PushKeeps<D>(t: Node<D>, b: Block<D>)
    requires !PushOrThrow(t, b).1 && !Crashed(t)
    ensures !Crashed(Push(t, b))
    decreases t
  {
    var u := Push(t, b);
    if !t.hadError {
      var o := t.stage(t.handled + [b]);
      KidsReturn(t, o);
      forall v | 0 <= v < |u.visitors| && v in u.sinks ensures !SinkAfter(u.visitors[v]).thrown {
        OwnSinksKeep(t, b, v);
      }
      forall j | 0 <= j < |u.kids| ensures !Crashed(u.kids[j]) { PushKeeps(t.kids[j], o); }
    }
  }

  lemma {:induction false} PushAllReturns<D>(t: Node<D>, s: seq<Block<D>>)
    requires !PushAllOrThrow(t, s).1 && !Crashed(t)
    ensures PushAllOrThrow(t, s).0 == PushAll(t, s) && !Crashed(PushAll(t, s))
    decreases |s|
  {
    if s != [] {
      PushAllReturns(t, Init(s));
      PushReturns(PushAll(t, Init(s)), Last(s));
      PushKeeps(PushAll(t, Init(s)), Last(s));
    }
  }

  /** A push of a stream that throws does so after some part of it. */
  lemma {:induction false} PushAllCrashes<D>(t: Node<D>, s: seq<Block<D>>) returns (r: seq<Block<D>>)
    requires PushAllOrThrow(t, s).1 && !Crashed(t)
    ensures r <= s && Crashed(PushAll(t, r))
    decreases |s|
  {
    if PushAllOrThrow(t, Init(s)).1 {
      r := PushAllCrashes(t, Init(s));
    } else {
      r := s;
      PushAllReturns(t, Init(s));
      PushCrashes(PushAll(t, Init(s)), Last(s));
    }
  }

  lemma {:induction false} FreshIsWhole<D(!new)>(t: Node<D>)
    requires Fresh(t)
    ensures !Crashed(t)
  {
    forall i | 0 <= i < |t.kids| ensures !Crashed(t.kids[i]) { FreshIsWhole(t.kids[i]); }
  }

  /** What two streams lead to, when one continues the other. */
  lemma {:induction false} OnceOfPrefix<D>(t: Node<D>, r: seq<Block<D>>, s: seq<Block<D>>)
    requires r <= s && AllPlain(t) && SinksOnce(t, s)
    ensures SinksOnce(t, r)
    decreases t
  {
    OutputsMonotone(t.stage, r, s);
    var o, p := Outputs(t.stage, r), Outputs(t.stage, s);
    SinkKeeps(o, p);
    forall i | 0 <= i < |t.kids| ensures SinksOnce(t.kids[i], o) { OnceOfPrefix(t.kids[i], o, p); }
  }

  lemma SynchronousSees<D(!new)>(u: Node<D>, s: seq<Block<D>>)
    requires Fresh(u) && AllPlain(u)
    ensures SeesAll(PushAll(u, s), s) && SameTree(u, PushAll(u, s)) && AllPlain(PushAll(u, s))
    ensures SinksOnce(PushAll(u, s), s) <==> SinksOnce(u, s)
  {
    PushAllInv(u, s);
    QuietSeesAll(PushAll(u, s), s);
    PushAllSameTree(u, s);
    SameTreeOnce(u, PushAll(u, s), s);
  }

  lemma {:induction false} SeesAllSeesPrefix<D>(t: Node<D>, input: seq<Block<D>>)
    requires SeesAll(t, input)
    ensures SeesPrefix(t, input)
  {
    var o := Outputs(t.stage, Delivered(t, input));
    forall i | 0 <= i < |t.kids| ensures SeesPrefix(t.kids[i], o) { SeesAllSeesPrefix(t.kids[i], o); }
  }

  /** The synchronous tree throws exactly if two ends arrive at one of its sinks; otherwise it does what
      it does without exceptions. */
  lemma SynchronousThrows<D(!new)>(u: Node<D>, s: seq<Block<D>>)
    requires Fresh(u) && AllPlain(u)
    ensures PushAllOrThrow(u, s).1 <==> !SinksOnce(u, s)
    ensures SinksOnce(u, s) ==> PushAllOrThrow(u, s).0 == PushAll(u, s)
  {
    FreshIsWhole(u);
    SynchronousSees(u, s);
    if PushAllOrThrow(u, s).1 {
      var r := PushAllCrashes(u, s);
      SynchronousSees(u, r);
      SeesAllSeesPrefix(PushAll(u, r), r);
      if SinksOnce(u, s) {
        OnceOfPrefix(u, r, s);
        SeenOnce(PushAll(u, r), r);
      }
    } else {
      PushAllReturns(u, s);
      AllSeenOnce(PushAll(u, s), s);
    }
  }

  /** A tree that gets the same as one that has not thrown has not thrown either. */
  lemma {:induction false} SameIsWhole<D(!new)>(u: Node<D>, t: Node<D>)
    requires Inserted(u, t) && GetsSame(u, t) && !Crashed(t)
    ensures !Crashed(u)
    decreases t
  {
    if SameNode(u, t) && forall i :: 0 <= i < |t.kids| ==> Inserted(u.kids[i], t.kids[i]) {
      forall i | 0 <= i < |u.kids| ensures !Crashed(u.kids[i]) { SameIsWhole(u.kids[i], t.kids[i]); }
    } else {
      SameIsWhole(u, t.kids[0]);
    }
  }

  /** When a run with buffers completes and no buffer is sent a block after an end of processing, the
      synchronous tree does not throw, and leaves the same. */
  lemma SynchronousReturns<D(!new)>(u: Node<D>, t: Node<D>, s: seq<Block<D>>, schedule: seq<Agent>)
    requires Fresh(u) && AllPlain(u) && Fresh(t) && Inserted(u, t) && BuffersTidy(t, s)
    requires Completed(Run(Begin(t, s), schedule))
    ensures PushAllOrThrow(u, s) == (PushAll(u, s), false)
    ensures GetsSame(PushAllOrThrow(u, s).0, Run(Begin(t, s), schedule).root)
  {
    ThreadingIsExact(u, t, s, schedule);
    SynchronousTree(u, t, s, schedule);
    SameIsWhole(PushAll(u, s), Run(Begin(t, s), schedule).root);
    AllSeenOnce(PushAll(u, s), s);
    SynchronousSees(u, s);
    SynchronousThrows(u, s);
  }
}
