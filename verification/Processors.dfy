/** The objects of DataStream.hpp, updated in place: a processor with its error latch, its visitors and
    the processors behind it, the loop of a threaded buffer's thread, and a sink. Each is tied to the
    tree of module Pipelines that it shows. */
module Processors {
  import opened Options
  import opened Streams
  import opened Pipelines
  import opened PipelineRuns
  import opened NodeLaws

  /** A visitor that keeps what it was shown: a `StreamSink`, or one that does not throw. */
  class Visitor<D(!new)> {
    const isSink: bool
    ghost var shown: seq<Block<D>>
    var promise: Promise

    constructor (isSink: bool)
      ensures this.isSink == isSink && Valid() && shown == []
    {
      this.isSink, shown, promise := isSink, [], Promise(None, false);
    }

    ghost predicate Valid()
      reads this
    {
      isSink ==> promise == SinkAfter(shown)
    }

    /** `visitData`; that of a sink throws when it sets the promise a second time. */
    method VisitData(b: Block<D>) returns (threw: bool)
      requires Valid()
      modifies this
      ensures shown == old(shown) + [b] && Valid()
      ensures threw <==> isSink && SinkThrows(old(shown), b)
    {
      threw := false;
      SinkMore(shown, b);
      shown := shown + [b];
      if isSink && b.eop.Some? {
        if promise.status.None? {
          promise := promise.(status := b.eop);
        } else {
          promise, threw := promise.(thrown := true), true;
        }
      }
    }
  }

  /** The tree of one plain processor, as it is constructed. */
  function Alone<D>(stage: Stage<D>): Node<D> {
    Node(Plain, stage, false, [], [], [], [], {}, Idle, [], false, false, [])
  }

  class Processor<D(!new)> {
    const stage: Stage<D>
    var hadError: bool
    var handled: seq<Block<D>>
    var visitors: seq<Visitor<D>>
    var processors: seq<Processor<D>>
    ghost var received: seq<Block<D>>
    ghost var out: seq<Block<D>>
    /** The objects of this processor's subtree, and those of the processors behind it. */
    ghost var repr: set<object>
    ghost var below: set<object>

    /** The connections form a tree. */
    ghost predicate Shape()
      reads this, repr
    {
      && this in repr && this !in below && below <= repr
      && (forall v :: 0 <= v < |visitors| ==> visitors[v] in repr && visitors[v] !in below)
      && (forall v, w :: 0 <= v < w < |visitors| ==> visitors[v] != visitors[w])
      && (forall i :: 0 <= i < |processors| ==> processors[i] in repr && processors[i].repr <= below)
      && (forall i, j :: 0 <= i < j < |processors| ==> processors[i].repr !! processors[j].repr)
    }

    ghost predicate ShowsState(t: Node<D>)
      reads this
    {
      && t.kind.Plain? && t.act.Idle? && t.queue == [] && !t.started && !t.sawEop
      && t.stage == stage && t.hadError == hadError
      && t.received == received && t.handled == handled && t.out == out
    }

    ghost predicate ShowsVisitors(logs: seq<seq<Block<D>>>, sinks: set<nat>)
      reads this, visitors
    {
      && |logs| == |visitors|
      && (forall v :: v in sinks ==> v < |visitors|)
      && forall v :: 0 <= v < |visitors| ==>
           visitors[v].shown == logs[v] && visitors[v].Valid() && (visitors[v].isSink <==> v in sinks)
    }

    ghost predicate ShowsKids(kids: seq<Node<D>>)
      requires Shape()
      reads this, repr
      decreases repr, 0
    {
      |kids| == |processors|
      && forall i :: 0 <= i < |processors| ==> processors[i].Shows(kids[i])
    }

    /** The subtree of this processor is the idle synchronous tree `t`. */
    ghost predicate Shows(t: Node<D>)
      reads this, repr
      decreases repr, 1
    {
      Shape() && ShowsState(t) && ShowsVisitors(t.visitors, t.sinks) && ShowsKids(t.kids)
    }

    constructor (stage: Stage<D>)
      ensures Shows(Alone(stage)) && fresh(repr)
    {
      this.stage, hadError, handled, visitors, processors := stage, false, [], [], [];
      received, out, repr, below := [], [], {this}, {};
    }

    /** `connect`, of a visitor that is not in the tree; it may have been shown blocks before. */
    method ConnectVisitor(visitor: Visitor<D>, ghost t: Node<D>)
      requires Shows(t) && visitor !in repr && visitor.Valid()
      modifies this
      ensures Shows(t.(visitors := t.visitors + [visitor.shown],
                       sinks := if visitor.isSink then t.sinks + {|t.visitors|} else t.sinks))
      ensures repr == old(repr) + {visitor}
    {
      visitors := visitors + [visitor];
      repr := repr + {visitor};
    }

    /** `connect`, of a processor with all that is behind it. */
    method ConnectProcessor(processor: Processor<D>, ghost t: Node<D>, ghost u: Node<D>)
      requires Shows(t) && processor.Shows(u) && processor.repr !! repr
      modifies this
      ensures Shows(t.(kids := t.kids + [u])) && repr == old(repr) + processor.repr
    {
      processors := processors + [processor];
      repr := repr + processor.repr;
      below := below + processor.repr;
    }

    /** `pushData`; `threw` says that the exception of a sink has left it. */
    method PushData(b: Block<D>, ghost t: Node<D>) returns (threw: bool)
      requires Shows(t)
      modifies repr
      ensures Shows(PushOrThrow(t, b).0) && threw == PushOrThrow(t, b).1 && repr == old(repr)
      ensures old(hadError) ==> !threw && Shows(t.(received := t.received + [b]))
      ensures hadError <==> old(hadError) || (t.stage(t.handled + [b]).eop.Some?
                                              && t.stage(t.handled + [b]).eop.value.kind == EopError)
      decreases repr, 4
    {
      if hadError {
        LatchedDrops(t, b);
        received := received + [b];
        return false;
      }
      StageCalled(t, b);
      PushParts(t, b);
      var output := ProcessBlock(b, t);
      threw := HandOn(output, t, b);
    }

    /** The call of the stage and the error latch. */
    method ProcessBlock(b: Block<D>, ghost t: Node<D>) returns (output: Block<D>)
      requires Shows(t) && !hadError
      modifies this
      ensures Shape() && ShowsState(AfterStage(t, b)) && ShowsVisitors(t.visitors, t.sinks) && ShowsKids(t.kids)
      ensures output == t.stage(t.handled + [b])
      ensures repr == old(repr) && below == old(below) && visitors == old(visitors) && processors == old(processors)
    {
      received := received + [b];
      output := stage(handled + [b]);
      handled, out := handled + [b], out + [output];
      if IsError(output) { hadError := true; }
    }

    /** The two loops. */
    method HandOn(output: Block<D>, ghost t: Node<D>, ghost b: Block<D>) returns (threw: bool)
      requires !t.hadError && output == t.stage(t.handled + [b])
      requires Shape() && ShowsState(AfterStage(t, b)) && ShowsVisitors(t.visitors, t.sinks) && ShowsKids(t.kids)
      requires ShowsState(PushOrThrow(t, b).0)
      modifies repr
      ensures Shows(PushOrThrow(t, b).0) && threw == PushOrThrow(t, b).1 && repr == old(repr)
      decreases repr, 3
    {
      PushParts(t, b);
      threw := VisitAll(output, t.visitors, t.sinks, t.kids);
      if threw { return; }
      threw := PushOnKeeping(output, t, ShownUpTo(t.visitors, output, |t.visitors|));
    }

    method PushOnKeeping(output: Block<D>, ghost t: Node<D>, ghost logs: seq<seq<Block<D>>>) returns (threw: bool)
      requires Shape() && ShowsKids(t.kids) && ShowsVisitors(logs, t.sinks)
      modifies below
      ensures Shape() && ShowsVisitors(logs, t.sinks)
      ensures ShowsKids(KidsOrThrow(t, 0, output).0) && threw == KidsOrThrow(t, 0, output).1
      decreases repr, 2
    {
      threw := PushOn(output, t);
    }

    method VisitOne(output: Block<D>, v: nat, ghost logs: seq<seq<Block<D>>>, ghost sinks: set<nat>,
                    ghost kids: seq<Node<D>>) returns (threw: bool)
      requires Shape() && ShowsVisitors(logs, sinks) && ShowsKids(kids) && v < |visitors|
      modifies visitors[v]
      ensures Shape() && ShowsVisitors(logs[v := logs[v] + [output]], sinks) && ShowsKids(kids)
      ensures threw <==> v in sinks && SinkThrows(logs[v], output)
    {
      threw := visitors[v].VisitData(output);
      assert forall i :: 0 <= i < |processors| ==> processors[i].Shows(kids[i]);
    }

    /** The loop over the visitors, up to one that throws. */
    method VisitAll(output: Block<D>, ghost logs: seq<seq<Block<D>>>, ghost sinks: set<nat>, ghost kids: seq<Node<D>>)
      returns (threw: bool)
      requires Shape() && ShowsVisitors(logs, sinks) && ShowsKids(kids)
      modifies visitors
      ensures Shape() && ShowsKids(kids)
      ensures var k := Thrower(logs, sinks, output, 0);
              ShowsVisitors(ShownUpTo(logs, output, k), sinks) && (threw <==> k < |logs|)
    {
      ghost var now := logs;
      var v := 0;
      threw := false;
      while v < |visitors| && !threw
        invariant Shape() && ShowsKids(kids) && ShowsVisitors(now, sinks)
        invariant VisitedSoFar(logs, sinks, output, now, v, threw)
        decreases |visitors| - v
      {
        threw := VisitOne(output, v, now, sinks, kids);
        VisitedNext(logs, sinks, output, now, v, threw);
        now := now[v := now[v] + [output]];
        v := v + 1;
      }
      VisitedAll(logs, sinks, output, now, v, threw);
    }

    method PushOne(output: Block<D>, i: nat, ghost kids: seq<Node<D>>) returns (threw: bool)
      requires Shape() && ShowsKids(kids) && i < |processors|
      modifies processors[i].repr
      ensures Shape() && ShowsKids(kids[i := PushOrThrow(kids[i], output).0])
      ensures threw == PushOrThrow(kids[i], output).1
      decreases repr, 0
    {
      threw := processors[i].PushData(output, kids[i]);
      assert forall j :: 0 <= j < |processors| && j != i ==> processors[j].Shows(kids[j]);
    }

    /** The loop over the connected processors, up to one that throws. */
    method PushOn(output: Block<D>, ghost t: Node<D>) returns (threw: bool)
      requires Shape() && ShowsKids(t.kids)
      modifies below
      ensures Shape()
      ensures ShowsKids(KidsOrThrow(t, 0, output).0) && threw == KidsOrThrow(t, 0, output).1
      decreases repr, 1
    {
      ghost var now := t.kids;
      var i := 0;
      threw := false;
      PushedNone(t, output);
      while i < |processors| && !threw
        invariant i <= |processors| && Shape() && ShowsKids(now)
        invariant PushedSoFar(t, output, now, i, threw)
        decreases |processors| - i
      {
        PushedNext(t, output, now, i);
        ghost var kid := PushOrThrow(now[i], output).0;
        threw := PushOne(output, i, now);
        now := now[i := kid];
        i := i + 1;
      }
      PushedAll(t, output, now, i, threw);
    }

    /** `StreamThreadedBuffer::run` on the blocks that reach its queue, in their order, whether they are
        there when it starts or come while it runs: it pushes everything up to the first end-of-processing
        block and takes nothing after it, unless a sink throws. Without such a block it is left waiting
        for more. */
    method RunBuffer(arrivals: seq<Block<D>>, ghost t: Node<D>) returns (taken: nat, stopped: bool, threw: bool)
      requires Shows(t)
      modifies repr
      ensures taken <= |arrivals| && arrivals[..taken] <= UpToEop(arrivals)
      ensures !threw ==> arrivals[..taken] == UpToEop(arrivals)
      ensures !threw ==> (stopped <==> exists i :: 0 <= i < |arrivals| && IsEop(arrivals[i]))
      ensures forall i :: 0 <= i < taken - 1 ==> arrivals[i].eop.None?
      ensures !threw ==> if stopped then taken > 0 && arrivals[taken - 1].eop.Some?
                         else taken == |arrivals| && forall i :: 0 <= i < taken ==> arrivals[i].eop.None?
      ensures Shows(PushAllOrThrow(t, UpToEop(arrivals)).0) && threw == PushAllOrThrow(t, UpToEop(arrivals)).1
      ensures repr == old(repr)
    {
      taken, stopped, threw := Drain(arrivals, t);
      DrainedTo(arrivals, t, taken, stopped, threw);
    }

    method Drain(arrivals: seq<Block<D>>, ghost t: Node<D>) returns (taken: nat, stopped: bool, threw: bool)
      requires Shows(t)
      modifies repr
      ensures Drained(arrivals, taken, stopped, threw) && (taken == |arrivals| || stopped || threw)
      ensures ShowsPushed(t, arrivals, taken, threw) && repr == old(repr)
    {
      taken, stopped, threw := 0, false, false;
      while taken < |arrivals| && !stopped && !threw
        invariant Drained(arrivals, taken, stopped, threw)
        invariant ShowsPushed(t, arrivals, taken, threw) && repr == old(repr)
        decreases |arrivals| - taken
      {
        threw := TakeOne(arrivals, taken, t);
        stopped := !threw && IsEop(arrivals[taken]);
        taken := taken + 1;
      }
    }

    /** The first `n` blocks have been pushed, the last of them up to a sink that throws, if one does. */
    ghost predicate ShowsPushed(t: Node<D>, s: seq<Block<D>>, n: nat, threw: bool)
      reads this, repr
    {
      n <= |s| && Shows(PushAllOrThrow(t, s[..n]).0) && threw == PushAllOrThrow(t, s[..n]).1
    }

    method TakeOne(arrivals: seq<Block<D>>, n: nat, ghost t: Node<D>) returns (threw: bool)
      requires n < |arrivals| && ShowsPushed(t, arrivals, n, false)
      modifies repr
      ensures ShowsPushed(t, arrivals, n + 1, threw) && repr == old(repr)
    {
      OnePushedMore(t, arrivals, n);
      threw := PushData(arrivals[n], PushAllOrThrow(t, arrivals[..n]).0);
    }
  }

  lemma OnePushedMore<D>(t: Node<D>, s: seq<Block<D>>, n: nat)
    requires n < |s| && !PushAllOrThrow(t, s[..n]).1
    ensures PushAllOrThrow(t, s[..n + 1]) == PushOrThrow(PushAllOrThrow(t, s[..n]).0, s[n])
  {
    assert Init(s[..n + 1]) == s[..n];
  }

  /** A node after its stage has answered, before the visitors. */
  function AfterStage<D>(t: Node<D>, b: Block<D>): Node<D> {
    var o := t.stage(t.handled + [b]);
    t.(received := t.received + [b], handled := t.handled + [b], out := t.out + [o], hadError := IsError(o))
  }

  lemma PushParts<D>(t: Node<D>, b: Block<D>)
    requires !t.hadError
    ensures var (u, threw) := PushOrThrow(t, b);
            var o := t.stage(t.handled + [b]);
            var k := Thrower(t.visitors, t.sinks, o, 0);
            && u == AfterStage(t, b).(visitors := u.visitors, kids := u.kids)
            && u.visitors == ShownUpTo(t.visitors, o, k)
            && (k < |t.visitors| ==> threw && u.kids == t.kids)
            && (k == |t.visitors| ==> (u.kids, threw) == KidsOrThrow(t, 0, o))
  {
  }

  /** The loop over the visitors has come to visitor `v`. */
  ghost predicate VisitedSoFar<D>(logs: seq<seq<Block<D>>>, sinks: set<nat>, o: Block<D>,
                                  now: seq<seq<Block<D>>>, v: nat, threw: bool) {
    && |now| == |logs| && v <= |logs|
    && (forall w :: 0 <= w < |logs| ==> now[w] == if w < v then logs[w] + [o] else logs[w])
    && (threw ==> v > 0 && Thrower(logs, sinks, o, 0) == v - 1)
    && (!threw ==> Thrower(logs, sinks, o, 0) == Thrower(logs, sinks, o, v))
  }

  lemma VisitedNext<D>(logs: seq<seq<Block<D>>>, sinks: set<nat>, o: Block<D>,
                       now: seq<seq<Block<D>>>, v: nat, threw: bool)
    requires VisitedSoFar(logs, sinks, o, now, v, false) && v < |logs|
    requires threw <==> v in sinks && SinkThrows(now[v], o)
    ensures VisitedSoFar(logs, sinks, o, now[v := now[v] + [o]], v + 1, threw)
  {
  }

  lemma VisitedAll<D>(logs: seq<seq<Block<D>>>, sinks: set<nat>, o: Block<D>,
                      now: seq<seq<Block<D>>>, v: nat, threw: bool)
    requires VisitedSoFar(logs, sinks, o, now, v, threw) && (threw || v == |logs|)
    ensures now == ShownUpTo(logs, o, Thrower(logs, sinks, o, 0))
    ensures threw <==> Thrower(logs, sinks, o, 0) < |logs|
  {
  }

  /** The loop over the processors has come to processor `i`. */
  ghost predicate PushedSoFar<D>(t: Node<D>, o: Block<D>, now: seq<Node<D>>, i: nat, threw: bool) {
    && |now| == |t.kids| && i <= |t.kids| && now[i..] == t.kids[i..]
    && (threw ==> KidsOrThrow(t, 0, o) == (now, true))
    && (!threw ==> KidsOrThrow(t, 0, o) == (now[..i] + KidsOrThrow(t, i, o).0, KidsOrThrow(t, i, o).1))
  }

  lemma PushedNone<D>(t: Node<D>, o: Block<D>)
    ensures PushedSoFar(t, o, t.kids, 0, false)
  {
    assert t.kids[..0] + KidsOrThrow(t, 0, o).0 == KidsOrThrow(t, 0, o).0;
  }

  lemma PushedNext<D>(t: Node<D>, o: Block<D>, now: seq<Node<D>>, i: nat)
    requires PushedSoFar(t, o, now, i, false) && i < |t.kids|
    ensures now[i] == t.kids[i]
    ensures var (kid, threw) := PushOrThrow(now[i], o); PushedSoFar(t, o, now[i := kid], i + 1, threw)
  {
    assert now[i] == now[i..][0] == t.kids[i..][0] == t.kids[i];
    var (kid, threw) := PushOrThrow(now[i], o);
    var next := now[i := kid];
    assert next[i + 1..] == now[i..][1..] == t.kids[i + 1..];
    assert next[..i + 1] == now[..i] + [kid];
    if threw {
      assert now[..i] + ([kid] + t.kids[i + 1..]) == next;
    } else {
      assert now[..i] + ([kid] + KidsOrThrow(t, i + 1, o).0) == next[..i + 1] + KidsOrThrow(t, i + 1, o).0;
    }
  }

  lemma PushedAll<D>(t: Node<D>, o: Block<D>, now: seq<Node<D>>, i: nat, threw: bool)
    requires PushedSoFar(t, o, now, i, threw) && (threw || i == |t.kids|)
    ensures KidsOrThrow(t, 0, o) == (now, threw)
  {
    if !threw { assert now[..i] + [] == now; }
  }

  /** The loop of a buffer's thread has taken so many blocks. */
  ghost predicate Drained<D>(s: seq<Block<D>>, n: nat, stopped: bool, threw: bool) {
    && n <= |s| && (forall i :: 0 <= i < n - 1 ==> !IsEop(s[i]))
    && (stopped ==> !threw && n > 0 && IsEop(s[n - 1]))
    && (!threw && !stopped && n > 0 ==> !IsEop(s[n - 1]))
  }

  lemma DrainedTo<D>(s: seq<Block<D>>, t: Node<D>, n: nat, stopped: bool, threw: bool)
    requires Drained(s, n, stopped, threw) && (n == |s| || stopped || threw)
    requires threw == PushAllOrThrow(t, s[..n]).1
    ensures s[..n] <= UpToEop(s) && (!threw ==> s[..n] == UpToEop(s))
    ensures !threw ==> (stopped <==> exists i :: 0 <= i < |s| && IsEop(s[i]))
    ensures PushAllOrThrow(t, UpToEop(s)) == PushAllOrThrow(t, s[..n])
  {
    TakenOf(s, n);
    if threw {
      ThrowStays(t, s[..n], UpToEop(s));
    } else if stopped {
      UpToFirstEop(s, n);
    } else {
      NoEopPasses(s, n);
    }
  }

  /** Blocks without an end of processing but the last are delivered. */
  lemma TakenOf<D>(s: seq<Block<D>>, n: nat)
    requires n <= |s| && forall i :: 0 <= i < n - 1 ==> !IsEop(s[i])
    ensures s[..n] <= UpToEop(s)
  {
    UpToEopPrefix(s[..n], s);
  }

  /** What has thrown has thrown, whatever was still to be pushed. */
  lemma {:induction false} ThrowStays<D>(t: Node<D>, r: seq<Block<D>>, s: seq<Block<D>>)
    requires r <= s && PushAllOrThrow(t, r).1
    ensures PushAllOrThrow(t, s) == PushAllOrThrow(t, r)
    decreases |s|
  {
    if |r| < |s| {
      ThrowStays(t, r, Init(s));
    } else {
      assert r == s;
    }
  }

  lemma NoEopPasses<D>(s: seq<Block<D>>, n: nat)
    requires n == |s| && forall i :: 0 <= i < n ==> !IsEop(s[i])
    ensures s[..n] == UpToEop(s)
  {
    UpToEopOfTidy(s);
  }

  lemma {:induction false} UpToFirstEop<D>(s: seq<Block<D>>, n: nat)
    requires 0 < n <= |s| && IsEop(s[n - 1]) && forall i :: 0 <= i < n - 1 ==> !IsEop(s[i])
    ensures UpToEop(s) == s[..n]
    decreases |s|
  {
    var r := UpToEop(Init(s));
    if n < |s| {
      UpToFirstEop(Init(s), n);
      assert Init(s)[..n] == s[..n];
    } else {
      assert s[..n] == s;
      assert forall i :: 0 <= i < |r| ==> r[i] == s[i];
    }
  }
}
