/** What one call of `pushData`, and a thread of a running pipeline, do at one node, read off the status of
    each block; and which trees the theorems on threading speak of. */
module NodeLaws {
  import opened Options
  import opened Streams
  import opened StreamLaws
  import opened Pipelines
  import opened PipelineRuns
  import opened PipelineTheorems
  import opened PipelineThrows

  // ---------------------------------------------------------------------------------------------
  // One call of pushData

  /** Behind a latched error a block is dropped: no stage, visitor or processor gets anything. */
  lemma LatchedDrops<D>(t: Node<D>, b: Block<D>)
    requires t.hadError
    ensures PushOrThrow(t, b) == (t.(received := t.received + [b]), false)
  {
  }

  /** Otherwise the stage is called with the block; the answer latches if its status is of kind EopError. */
  lemma StageCalled<D>(t: Node<D>, b: Block<D>)
    requires !t.hadError
    ensures var u, o := PushOrThrow(t, b).0, t.stage(t.handled + [b]);
            && u.received == t.received + [b] && u.handled == t.handled + [b] && u.out == t.out + [o]
            && (u.hadError <==> o.eop.Some? && o.eop.value.kind == EopError)
            && u.kind == t.kind && u.stage == t.stage && u.sinks == t.sinks
  {
  }

  lemma ThrowerIs<D>(logs: seq<seq<Block<D>>>, sinks: set<nat>, o: Block<D>, v: nat, k: nat)
    requires v <= k <= |logs| && forall w :: v <= w < k ==> !(w in sinks && SinkThrows(logs[w], o))
    requires k < |logs| ==> k in sinks && SinkThrows(logs[k], o)
    ensures Thrower(logs, sinks, o, v) == k
    decreases k - v
  {
    if v < k { ThrowerIs(logs, sinks, o, v + 1, k); }
  }

  /** A sink throws at a second status. */
  lemma SinkThrowsAt<D>(log: seq<Block<D>>, o: Block<D>)
    ensures SinkThrows(log, o) <==> o.eop.Some? && exists j :: 0 <= j < |log| && log[j].eop.Some?
  {
    SinkExact(log);
    UpToEopHasAll(log);
    if SinkAfter(log).status.Some? {
      assert exists j :: 0 <= j < |log| && IsEop(log[j]);
    } else if j :| 0 <= j < |log| && log[j].eop.Some? {
      assert IsEop(log[j]);
    }
  }

  /** The answer has a status, and visitor `v` is the first sink that has been shown one before: the
      visitors up to `v` are shown the answer, no other visitor and no processor gets anything, and the
      call throws. */
  lemma OwnSinkThrows<D>(t: Node<D>, b: Block<D>, v: nat)
    requires !t.hadError && t.stage(t.handled + [b]).eop.Some? && v < |t.visitors| && v in t.sinks
    requires exists j :: 0 <= j < |t.visitors[v]| && t.visitors[v][j].eop.Some?
    requires forall w, j :: 0 <= w < v && w in t.sinks && 0 <= j < |t.visitors[w]| ==> t.visitors[w][j].eop.None?
    ensures var (u, threw) := PushOrThrow(t, b);
            && threw && u.kids == t.kids && |u.visitors| == |t.visitors|
            && forall w :: 0 <= w < |t.visitors| ==>
                 u.visitors[w] == if w <= v then t.visitors[w] + [t.stage(t.handled + [b])] else t.visitors[w]
  {
    var o := t.stage(t.handled + [b]);
    forall w | 0 <= w < |t.visitors| ensures
      SinkThrows(t.visitors[w], o) <==> exists j :: 0 <= j < |t.visitors[w]| && t.visitors[w][j].eop.Some?
    {
      SinkThrowsAt(t.visitors[w], o);
    }
    ThrowerIs(t.visitors, t.sinks, o, 0, v);
  }

  lemma OwnSinksDoNotThrow<D>(t: Node<D>, o: Block<D>)
    requires o.eop.Some? ==>
               forall w, j :: 0 <= w < |t.visitors| && w in t.sinks && 0 <= j < |t.visitors[w]| ==>
                 t.visitors[w][j].eop.None?
    ensures Thrower(t.visitors, t.sinks, o, 0) == |t.visitors|
  {
    forall w | 0 <= w < |t.visitors| && w in t.sinks ensures !SinkThrows(t.visitors[w], o) {
      SinkThrowsAt(t.visitors[w], o);
    }
    ThrowerIs(t.visitors, t.sinks, o, 0, |t.visitors|);
  }

  /** The children after `o` has been pushed into them from the `i`-th on, up to the `k`-th, which throws. */
  ghost predicate PushedUpTo<D>(t: Node<D>, i: nat, o: Block<D>, k: nat, kids: seq<Node<D>>) {
    |kids| == |t.kids| - i
    && forall j :: 0 <= j < |kids| ==> kids[j] == if i + j <= k then PushOrThrow(t.kids[i + j], o).0 else t.kids[i + j]
  }

  lemma {:induction false} KidsUpTo<D>(t: Node<D>, i: nat, o: Block<D>, k: nat)
    requires i <= k <= |t.kids| && (forall j :: i <= j < k ==> !PushOrThrow(t.kids[j], o).1)
    requires k < |t.kids| ==> PushOrThrow(t.kids[k], o).1
    ensures PushedUpTo(t, i, o, k, KidsOrThrow(t, i, o).0) && (KidsOrThrow(t, i, o).1 <==> k < |t.kids|)
    decreases k - i
  {
    if i < k {
      KidsUpTo(t, i + 1, o, k);
      KidReturned(t, i, o, k, KidsOrThrow(t, i + 1, o).0);
    } else if k < |t.kids| {
      KidThrew(t, o, k);
    }
  }

  lemma KidReturned<D>(t: Node<D>, i: nat, o: Block<D>, k: nat, rest: seq<Node<D>>)
    requires i < k <= |t.kids| && PushedUpTo(t, i + 1, o, k, rest)
    ensures PushedUpTo(t, i, o, k, [PushOrThrow(t.kids[i], o).0] + rest)
  {
    var kids := [PushOrThrow(t.kids[i], o).0] + rest;
    assert forall j :: 1 <= j < |kids| ==> kids[j] == rest[j - 1];
  }

  lemma KidThrew<D>(t: Node<D>, o: Block<D>, k: nat)
    requires k < |t.kids|
    ensures PushedUpTo(t, k, o, k, [PushOrThrow(t.kids[k], o).0] + t.kids[k + 1..])
  {
  }

  lemma AllShown<D>(t: Node<D>, b: Block<D>, o: Block<D>, kids: seq<Node<D>>, threw: bool)
    requires !t.hadError && o == t.stage(t.handled + [b]) && Thrower(t.visitors, t.sinks, o, 0) == |t.visitors|
    requires KidsOrThrow(t, 0, o) == (kids, threw)
    ensures PushOrThrow(t, b).1 == threw && PushOrThrow(t, b).0.kids == kids
    ensures PushOrThrow(t, b).0.visitors == ShownUpTo(t.visitors, o, |t.visitors|)
  {
  }

  /** Otherwise every visitor is shown the answer `o`; then it is pushed into the processors in their order, up to
      the first, the k-th, out of which an exception comes. */
  lemma VisitorsThenProcessors<D>(t: Node<D>, b: Block<D>, o: Block<D>, k: nat)
    requires !t.hadError && o == t.stage(t.handled + [b]) && k <= |t.kids|
    requires o.eop.Some? ==>
               forall w, j :: 0 <= w < |t.visitors| && w in t.sinks && 0 <= j < |t.visitors[w]| ==>
                 t.visitors[w][j].eop.None?
    requires forall j :: 0 <= j < k ==> !PushOrThrow(t.kids[j], o).1
    requires k < |t.kids| ==> PushOrThrow(t.kids[k], o).1
    ensures var (u, threw) := PushOrThrow(t, b);
            && (threw <==> k < |t.kids|)
            && |u.visitors| == |t.visitors| && |u.kids| == |t.kids|
            && (forall v :: 0 <= v < |t.visitors| ==> u.visitors[v] == t.visitors[v] + [o])
            && forall j :: 0 <= j < |t.kids| ==>
                 u.kids[j] == if j <= k then PushOrThrow(t.kids[j], o).0 else t.kids[j]
  {
    var (kids, threw) := KidsOrThrow(t, 0, o);
    OwnSinksDoNotThrow(t, o);
    KidsUpTo(t, 0, o, k);
    AllShown(t, b, o, kids, threw);
    PushedFromFirst(t, o, k, kids);
  }

  lemma PushedFromFirst<D>(t: Node<D>, o: Block<D>, k: nat, kids: seq<Node<D>>)
    requires PushedUpTo(t, 0, o, k, kids)
    ensures |kids| == |t.kids|
    ensures forall j :: 0 <= j < |t.kids| ==> kids[j] == if j <= k then PushOrThrow(t.kids[j], o).0 else t.kids[j]
  {
    forall j | 0 <= j < |t.kids| ensures kids[j] == if j <= k then PushOrThrow(t.kids[j], o).0 else t.kids[j] {
      assert kids[j] == if 0 + j <= k then PushOrThrow(t.kids[0 + j], o).0 else t.kids[0 + j];
    }
  }

  // ---------------------------------------------------------------------------------------------
  // A node of a running pipeline

  /** At every node of every reachable state: the answers are those of the stage to the blocks received, in
      order; none but the last has a status of kind EopError, and the error flag is set exactly if that one
      has; every visitor has been shown the answers, or all but the last; and a threaded buffer has taken
      nothing after a block with a status of any kind. */
  lemma NodeOfRun<D(!new)>(t: Node<D>, s: seq<Block<D>>, schedule: seq<Agent>, path: seq<nat>)
    requires Fresh(t) && HasPath(t, path)
    ensures var root := Run(Begin(t, s), schedule).root;
            && HasPath(root, path)
            && var n := NodeAt(root, path);
               && |n.out| <= |n.received| && n.handled == n.received[..|n.out|]
               && (forall i :: 0 <= i < |n.out| ==> n.out[i] == n.stage(n.received[..i + 1]))
               && (forall i :: 0 <= i < |n.out| - 1 && n.out[i].eop.Some? ==> n.out[i].eop.value.kind != EopError)
               && (n.hadError <==> n.out != [] && n.out[|n.out| - 1].eop.Some?
                                   && n.out[|n.out| - 1].eop.value.kind == EopError)
               && (forall v :: 0 <= v < |n.visitors| ==>
                     n.visitors[v] <= n.out && |n.out| - 1 <= |n.visitors[v]|)
               && (n.kind.Buffered? ==> forall i :: 0 <= i < |n.received| - 1 ==> n.received[i].eop.None?)
  {
    var run := Run(Begin(t, s), schedule);
    ReachableInv(t, s, schedule);
    RunSameTree(Begin(t, s), schedule);
    SameTreePath(t, run.root, path);
    InvAt(run.root, path, run.sent);
    NodeOfInv(NodeAt(run.root, path), SentAt(run.root, path, run.sent));
  }

  lemma NodeOfInv<D(!new)>(n: Node<D>, sent: seq<Block<D>>)
    requires NodeInv(n, sent)
    ensures |n.out| <= |n.received| && n.handled == n.received[..|n.out|]
    ensures forall i :: 0 <= i < |n.out| ==> n.out[i] == n.stage(n.received[..i + 1])
    ensures forall i :: 0 <= i < |n.out| - 1 && n.out[i].eop.Some? ==> n.out[i].eop.value.kind != EopError
    ensures n.hadError <==> n.out != [] && n.out[|n.out| - 1].eop.Some?
                            && n.out[|n.out| - 1].eop.value.kind == EopError
    ensures forall v :: 0 <= v < |n.visitors| ==> n.visitors[v] <= n.out && |n.out| - 1 <= |n.visitors[v]|
    ensures n.kind.Buffered? ==> forall i :: 0 <= i < |n.received| - 1 ==> n.received[i].eop.None?
  {
    OutputsInOrder(n.stage, Entered(n));
    forall i | 0 <= i < |n.out| ensures n.out[i] == n.stage(n.received[..i + 1]) {
      assert Entered(n)[..i + 1] == n.received[..i + 1];
    }
    forall v | 0 <= v < |n.visitors| ensures n.visitors[v] <= n.out && |n.out| - 1 <= |n.visitors[v]| {
      assert n.visitors[v] == ShownTo(n, v);
    }
  }

  lemma OutputsInOrder<D>(f: Stage<D>, r: seq<Block<D>>)
    ensures |Outputs(f, r)| <= |r|
    ensures forall i :: 0 <= i < |Outputs(f, r)| ==> Outputs(f, r)[i] == f(r[..i + 1])
    ensures forall i :: 0 <= i < |Outputs(f, r)| - 1 && Outputs(f, r)[i].eop.Some? ==>
              Outputs(f, r)[i].eop.value.kind != EopError
  {
    OutputsAreCutAnswers(f, r);
    OutputsBasics(f, r);
  }

  // ---------------------------------------------------------------------------------------------
  // The trees that threading is transparent for

  lemma {:induction false} InsertedNowhere<D(!new)>(u: Node<D>)
    requires AllPlain(u)
    ensures Inserted(u, u)
    decreases u
  {
    forall i | 0 <= i < |u.kids| ensures Inserted(u.kids[i], u.kids[i]) { InsertedNowhere(u.kids[i]); }
  }

  /** A threaded buffer, not used yet, in front of `u`. */
  function InFront<D>(u: Node<D>, maxBlocks: nat, noop: Stage<D>): Node<D> {
    Node(Buffered(maxBlocks), noop, false, [], [], [], [], {}, Idle, [], false, false, [u])
  }

  /** A buffer may be put in front of any tree, and any tree in place of a child it is got from. */
  lemma BufferInFront<D(!new)>(u: Node<D>, t: Node<D>, maxBlocks: nat, noop: Stage<D>)
    requires Inserted(u, t) && Fresh(t) && IsNoop(noop)
    ensures Inserted(u, InFront(t, maxBlocks, noop)) && Fresh(InFront(t, maxBlocks, noop))
  {
    var b := InFront(t, maxBlocks, noop);
    assert Droppable(b) && b.kids[0] == t;
  }

  lemma BufferBelow<D(!new)>(u: Node<D>, i: nat, kid: Node<D>)
    requires AllPlain(u) && i < |u.kids| && Inserted(u.kids[i], kid)
    ensures Inserted(u, u.(kids := u.kids[i := kid]))
  {
    var t := u.(kids := u.kids[i := kid]);
    forall j | 0 <= j < |t.kids| ensures Inserted(u.kids[j], t.kids[j]) {
      if j != i { InsertedNowhere(u.kids[j]); }
    }
    assert SameNode(u, t);
  }

  lemma {:induction false} SameAt<D(!new)>(u: Node<D>, t: Node<D>, path: seq<nat>)
    requires Inserted(u, t) && GetsSame(u, t) && AllPlain(t) && HasPath(u, path)
    ensures HasPath(t, path)
    ensures NodeAt(u, path).received == NodeAt(t, path).received && NodeAt(u, path).visitors == NodeAt(t, path).visitors
    decreases |path|
  {
    if path != [] { SameAt(u.kids[path[0]], t.kids[path[0]], path[1..]); }
  }

  /** A threaded buffer in front of any synchronous tree, and a stream with no status before its end: once
      the run is complete, each processor has received, and each of its visitors has been shown, exactly
      what it gets when the source calls the tree itself. */
  lemma ThreadedFront<D(!new)>(u: Node<D>, maxBlocks: nat, noop: Stage<D>, s: seq<Block<D>>, schedule: seq<Agent>,
                               path: seq<nat>)
    requires Fresh(u) && AllPlain(u) && IsNoop(noop) && HasPath(u, path)
    requires forall i :: 0 <= i < |s| - 1 ==> s[i].eop.None?
    requires Completed(Run(Begin(InFront(u, maxBlocks, noop), s), schedule))
    ensures var root, sync := Run(Begin(InFront(u, maxBlocks, noop), s), schedule).root, PushAll(u, s);
            && |root.kids| == 1 && HasPath(root.kids[0], path) && HasPath(sync, path)
            && NodeAt(root.kids[0], path).received == NodeAt(sync, path).received
            && NodeAt(root.kids[0], path).visitors == NodeAt(sync, path).visitors
  {
    var t := InFront(u, maxBlocks, noop);
    var run := Run(Begin(t, s), schedule);
    InsertedNowhere(u);
    BufferInFront(u, u, maxBlocks, noop);
    PlainIsTidy(u, s);
    FrontIsTidy(u, t, s);
    ThreadingIsExact(u, t, s, schedule);
    FrontSame(u, t, s, schedule);
    PushAllSameTree(u, s);
    SameTreePath(u, PushAll(u, s), path);
    SameAt(PushAll(u, s), run.root.kids[0], path);
  }

  lemma {:induction false} PlainIsTidy<D>(u: Node<D>, input: seq<Block<D>>)
    requires AllPlain(u)
    ensures BuffersTidy(u, input)
    decreases u
  {
    forall i | 0 <= i < |u.kids| ensures BuffersTidy(u.kids[i], Outputs(u.stage, input)) {
      PlainIsTidy(u.kids[i], Outputs(u.stage, input));
    }
  }

  lemma FrontIsTidy<D(!new)>(u: Node<D>, t: Node<D>, s: seq<Block<D>>)
    requires t.kind.Buffered? && IsNoop(t.stage) && t.kids == [u] && BuffersTidy(u, s) && EopOnlyLast(s)
    ensures BuffersTidy(t, s)
  {
    UpToEopOfTidy(s);
    NoopOutputs(t.stage, s);
  }

  lemma {:induction false} SameTreePlain<D>(u: Node<D>, u': Node<D>)
    requires SameTree(u, u') && AllPlain(u)
    ensures AllPlain(u')
    decreases u
  {
    forall i | 0 <= i < |u.kids| ensures AllPlain(u'.kids[i]) { SameTreePlain(u.kids[i], u'.kids[i]); }
  }

  lemma FrontSame<D(!new)>(u: Node<D>, t: Node<D>, s: seq<Block<D>>, schedule: seq<Agent>)
    requires Fresh(u) && AllPlain(u) && Fresh(t) && Inserted(u, t)
    requires t.kind.Buffered? && t.sinks == {} && t.visitors == [] && IsNoop(t.stage) && t.kids == [u]
    requires GetsSame(PushAll(u, s), Run(Begin(t, s), schedule).root)
    ensures var root := Run(Begin(t, s), schedule).root;
            |root.kids| == 1 && AllPlain(root.kids[0])
            && Inserted(PushAll(u, s), root.kids[0]) && GetsSame(PushAll(u, s), root.kids[0])
  {
    var root := Run(Begin(t, s), schedule).root;
    RunSameTree(Begin(t, s), schedule);
    SameTreePlain(u, root.kids[0]);
    PushAllSameTree(u, s);
    InsertedNowhere(u);
    SameTreeInserted(u, u, PushAll(u, s), root.kids[0]);
    assert Droppable(root);
  }
}
