/** The example source: a loop that pushes data blocks until it has pushed enough or a flag that
    other threads overwrite tells it to stop, and then one end-of-processing block. */
module SimpleSources {
  import opened Options
  import opened Streams
  import opened Pipelines
  import opened PipelineRuns
  import opened PipelineTheorems
  import opened PipelineThrows
  import opened PipelineProgress

  /** Calls of `stop()` and `cancel()` by other threads. */
  datatype Command = Stop | Cancel

  function FlagOf(c: Command): nat {
    match c
    case Stop => 1
    case Cancel => 2
  }

  /** The flag after the calls `cs`, made one after the other: the last one stands. */
  function FlagAfter(flag: nat, cs: seq<Command>): nat {
    if cs == [] then flag else FlagOf(Last(cs))
  }

  /** The calls made before each load of the flag, from the start of the run. */
  type History = nat -> seq<Command>

  ghost predicate Grows(calls: History) {
    forall i: nat, j: nat :: i <= j ==> calls(i) <= calls(j)
  }

  /** The load of the flag that decides the status, when `k` data blocks have been pushed: one load
      for each of them, one more that ended the loop early, and then this one. */
  function FinalLoad(numBlocks: nat, k: nat): nat {
    if k < numBlocks then k + 1 else k
  }

  /** The status of the last block, after the calls `cs`. */
  function StatusAfter(cs: seq<Command>): EopStatus {
    EopStatus(if cs != [] && Last(cs).Cancel? then EopCancelled else EopSuccess, "")
  }

  /** `pushed` is what a source of `numBlocks` blocks pushes when `calls` are made: as many data blocks
      as the loads before any call allow, at most `numBlocks`, and one end-of-processing block,
      cancelled if the last call before the final load was `cancel()` and a success otherwise. */
  ghost predicate IsEmission<D>(numBlocks: nat, calls: History, payload: D, pushed: seq<Block<D>>) {
    && pushed != []
    && var k := |pushed| - 1;
       && k <= numBlocks
       && (forall i :: 0 <= i < k ==> pushed[i] == Block(Some(payload), None))
       && (k > 0 ==> calls(k - 1) == [])
       && (k < numBlocks ==> calls(k) != [])
       && pushed[k] == Block(None, Some(StatusAfter(calls(FinalLoad(numBlocks, k)))))
  }

  class SimpleSource<D> {
    const numBlocks: nat
    const payload: D
    var stopFlag: nat

    constructor (numBlocks: nat, payload: D)
      ensures this.numBlocks == numBlocks && this.payload == payload && stopFlag == 0
    {
      this.numBlocks, this.payload, stopFlag := numBlocks, payload, 0;
    }

    method Stop()
      modifies this
      ensures stopFlag == 1 == FlagOf(Command.Stop)
    {
      stopFlag := 1;
    }

    method Cancel()
      modifies this
      ensures stopFlag == 2 == FlagOf(Command.Cancel)
    {
      stopFlag := 2;
    }

    /** Other threads call `stop()` and `cancel()`. */
    method Interfere(cs: seq<Command>)
      modifies this
      ensures stopFlag == FlagAfter(old(stopFlag), cs)
    {
      for i := 0 to |cs|
        invariant stopFlag == FlagAfter(old(stopFlag), cs[..i])
      {
        if cs[i].Stop? { Stop(); } else { Cancel(); }
      }
      assert cs[..|cs|] == cs;
    }

    /** `_stop_flag.load()`, the i-th of the run. */
    method Load(calls: History, i: nat) returns (flag: nat)
      requires Grows(calls) && stopFlag == if i == 0 then 0 else FlagAfter(0, calls(i - 1))
      modifies this
      ensures flag == stopFlag == FlagAfter(0, calls(i))
    {
      var before := if i == 0 then [] else calls(i - 1);
      assert before <= calls(i);
      var since := calls(i)[|before|..];
      assert before + since == calls(i);
      Interfere(since);
      flag := stopFlag;
    }

    /** The loop of `run()`. */
    method PushBlocks(calls: History) returns (pushed: seq<Block<D>>)
      requires stopFlag == 0 && Grows(calls)
      modifies this
      ensures |pushed| <= numBlocks
      ensures forall i :: 0 <= i < |pushed| ==> pushed[i] == Block(Some(payload), None)
      ensures pushed != [] ==> calls(|pushed| - 1) == []
      ensures |pushed| < numBlocks ==> calls(|pushed|) != []
      ensures var loads := FinalLoad(numBlocks, |pushed|);
              stopFlag == if loads == 0 then 0 else FlagAfter(0, calls(loads - 1))
    {
      pushed := [];
      while |pushed| < numBlocks
        invariant |pushed| <= numBlocks
        invariant stopFlag == if pushed == [] then 0 else FlagAfter(0, calls(|pushed| - 1))
        invariant forall i :: 0 <= i < |pushed| ==> pushed[i] == Block(Some(payload), None)
        invariant pushed != [] ==> calls(|pushed| - 1) == []
      {
        var flag := Load(calls, |pushed|);
        if flag != 0 { return; }
        pushed := pushed + [Block(Some(payload), None)];
      }
    }

    method Run(calls: History) returns (pushed: seq<Block<D>>)
      requires stopFlag == 0 && Grows(calls)
      modifies this
      ensures IsEmission(numBlocks, calls, payload, pushed)
      ensures var k := |pushed| - 1;
              && 0 <= k <= numBlocks && (k > 0 ==> calls(k - 1) == []) && (k < numBlocks ==> calls(k) != [])
              && (forall i :: 0 <= i < k ==> pushed[i] == Block(Some(payload), None))
              && pushed[k].data == None && pushed[k].eop.Some? && pushed[k].eop.value.message == ""
              && var cs := calls(if k < numBlocks then k + 1 else k);
                 pushed[k].eop.value.kind
                 == if cs != [] && cs[|cs| - 1].Cancel? then EopCancelled else EopSuccess
    {
      var blocks := PushBlocks(calls);
      var load := FinalLoad(numBlocks, |blocks|);
      var flag := Load(calls, load);
      var status := StatusFor(flag, calls(load));
      pushed := blocks + [Block(None, Some(status))];
      WithEop(numBlocks, calls, payload, blocks);
    }
  }

  lemma WithEop<D>(numBlocks: nat, calls: History, payload: D, blocks: seq<Block<D>>)
    requires |blocks| <= numBlocks && forall i :: 0 <= i < |blocks| ==> blocks[i] == Block(Some(payload), None)
    requires blocks != [] ==> calls(|blocks| - 1) == []
    requires |blocks| < numBlocks ==> calls(|blocks|) != []
    ensures IsEmission(numBlocks, calls, payload,
                       blocks + [Block(None, Some(StatusAfter(calls(FinalLoad(numBlocks, |blocks|)))))])
  {
  }

  method StatusFor(flag: nat, ghost calls: seq<Command>) returns (status: EopStatus)
    requires flag == FlagAfter(0, calls)
    ensures status == StatusAfter(calls)
    ensures status.kind == (if calls != [] && calls[|calls| - 1].Cancel? then EopCancelled else EopSuccess)
    ensures status.message == ""
  {
    status := if flag == 0 || flag == 1 then EopStatus(EopSuccess, "")
              else if flag == 2 then EopStatus(EopCancelled, "")
              else EopStatus(EopError, "Unknown stop flag");
  }

  lemma EmissionNoLonger<D>(numBlocks: nat, calls: History, payload: D, p: seq<Block<D>>, q: seq<Block<D>>)
    requires Grows(calls) && IsEmission(numBlocks, calls, payload, p) && IsEmission(numBlocks, calls, payload, q)
    ensures |q| <= |p|
  {
    var k, l := |p| - 1, |q| - 1;
    assert forall j: nat :: k <= j ==> calls(k) <= calls(j);
    assert l > 0 ==> calls(l - 1) == [];
  }

  /** The calls alone determine what is pushed. */
  lemma EmissionUnique<D>(numBlocks: nat, calls: History, payload: D, p: seq<Block<D>>, q: seq<Block<D>>)
    requires Grows(calls) && IsEmission(numBlocks, calls, payload, p) && IsEmission(numBlocks, calls, payload, q)
    ensures p == q
  {
    EmissionNoLonger(numBlocks, calls, payload, p, q);
    EmissionNoLonger(numBlocks, calls, payload, q, p);
  }

  /** What a source pushes is data* EOP, with at most `numBlocks` data blocks: fewer exactly if it was
      told to stop or cancel before the last of them. Its status is cancelled exactly if `cancel()` is the
      last call made before the load of the flag that follows the loop, and otherwise a success. */
  lemma EmissionComplete<D>(numBlocks: nat, calls: History, payload: D, pushed: seq<Block<D>>)
    requires Grows(calls) && IsEmission(numBlocks, calls, payload, pushed)
    ensures Complete(pushed) && |pushed| <= numBlocks + 1
    ensures |pushed| <= numBlocks <==> numBlocks > 0 && calls(numBlocks - 1) != []
    ensures var k := |pushed| - 1;
            var cs := calls(if k < numBlocks then k + 1 else k);
            && pushed[k].data == None && pushed[k].eop.Some? && pushed[k].eop.value.message == ""
            && (pushed[k].eop.value.kind == EopCancelled <==> cs != [] && cs[|cs| - 1].Cancel?)
            && (pushed[k].eop.value.kind != EopCancelled ==> pushed[k].eop.value.kind == EopSuccess)
  {
    var k := |pushed| - 1;
    assert forall j: nat :: k <= j ==> calls(k) <= calls(j);
    assert k < numBlocks ==> calls(k) <= calls(numBlocks - 1);
  }

  /** A source feeding a pipeline of any stages, under any calls of `stop()` and `cancel()` and any
      interleaving: if what it pushes fits and two ends arrive at no sink, the run can be completed from
      where it stands, and then every sink is resolved once, with the end of processing that arrives at
      it, if one does. */
  lemma SourceResolvesSinks<D(!new)>(numBlocks: nat, calls: History, payload: D, pushed: seq<Block<D>>,
                                     t: Node<D>, schedule: seq<Agent>, path: seq<nat>, v: nat)
    returns (more: seq<Agent>)
    requires Grows(calls) && IsEmission(numBlocks, calls, payload, pushed)
    requires Fresh(t) && Roomy(t) && Fits(t, pushed) && SinksOnce(t, pushed)
    requires HasPath(t, path) && v < |NodeAt(t, path).visitors| && v in NodeAt(t, path).sinks
    ensures var run := PipelineRuns.Run(Begin(t, pushed), schedule + more);
            && Completed(run)
            && HasPath(run.root, path) && v < |NodeAt(run.root, path).visitors|
            && SinkAfter(NodeAt(run.root, path).visitors[v]) == Promise(FirstEop(Arriving(t, path, pushed)), false)
  {
    more := EveryRunCanComplete(t, pushed, schedule);
    RunConcat(Begin(t, pushed), schedule, more);
    SinkResolves(t, pushed, schedule + more, path, v);
  }

  /** If what it pushes fits and two ends arrive at some sink, every run can be continued to the moment
      at which a sink throws, and none completes. */
  lemma SourceThrows<D(!new)>(numBlocks: nat, calls: History, payload: D, pushed: seq<Block<D>>,
                              t: Node<D>, schedule: seq<Agent>) returns (more: seq<Agent>)
    requires Grows(calls) && IsEmission(numBlocks, calls, payload, pushed)
    requires Fresh(t) && Roomy(t) && Fits(t, pushed) && !SinksOnce(t, pushed)
    ensures Crashed(PipelineRuns.Run(Begin(t, pushed), schedule + more).root)
    ensures !Completed(PipelineRuns.Run(Begin(t, pushed), schedule))
  {
    if Completed(PipelineRuns.Run(Begin(t, pushed), schedule)) { CompletedOnce(t, pushed, schedule); }
    more := Throws(t, pushed, schedule);
  }

  /** With stages that pass the end of processing through and end it early on errors only, what the
      source pushes always fits, and every sink is resolved exactly once, with the status that arrives
      on its path. */
  lemma SourceResolvesOnce<D(!new)>(numBlocks: nat, calls: History, payload: D, pushed: seq<Block<D>>,
                                    t: Node<D>, schedule: seq<Agent>, path: seq<nat>, v: nat)
    returns (more: seq<Agent>)
    requires Grows(calls) && IsEmission(numBlocks, calls, payload, pushed)
    requires Fresh(t) && TreeBehaved(t) && Roomy(t)
    requires HasPath(t, path) && v < |NodeAt(t, path).visitors| && v in NodeAt(t, path).sinks
    ensures var run := PipelineRuns.Run(Begin(t, pushed), schedule + more);
            && Completed(run)
            && HasPath(run.root, path) && v < |NodeAt(run.root, path).visitors|
            && Complete(Along(StagesTo(t, path), pushed))
            && SinkAfter(NodeAt(run.root, path).visitors[v])
                 == Promise(Last(Along(StagesTo(t, path), pushed)).eop, false)
  {
    EmissionComplete(numBlocks, calls, payload, pushed);
    BehavedFits(t, pushed);
    BehavedOnce(t, pushed);
    more := EveryRunCanComplete(t, pushed, schedule);
    RunConcat(Begin(t, pushed), schedule, more);
    SinkResolvesOnce(t, pushed, schedule + more, path, v);
  }
}
