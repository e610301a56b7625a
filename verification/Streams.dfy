/** Blocks, stages and the sequences of blocks that stages make of sequences of blocks. A stage is
    any deterministic `processData`: a function of the blocks it has been given so far. */
module Streams {
  import opened Options

  datatype EopStatusType = EopSuccess | EopCancelled | EopError

  datatype EopStatus = EopStatus(kind: EopStatusType, message: string)

  /** A `SharedDataBlock`: shared data, an end-of-processing status, either or both. */
  datatype Block<+D> = Block(data: Option<D>, eop: Option<EopStatus>)

  predicate IsEop<D>(b: Block<D>) { b.eop.Some? }

  predicate IsError<D>(b: Block<D>) { b.eop.Some? && b.eop.value.kind == EopError }

  type Stage<!D> = seq<Block<D>> -> Block<D>

  function Last<T>(s: seq<T>): T
    requires s != []
  {
    s[|s| - 1]
  }

  function Init<T>(s: seq<T>): seq<T> {
    if s == [] then [] else s[..|s| - 1]
  }

  /** A stage whose outputs so far are `out` has latched its error flag. */
  predicate Failed<D>(out: seq<Block<D>>) {
    out != [] && IsError(Last(out))
  }

  /** What a stage with an error latch puts out for the blocks `r` pushed into it. */
  function Outputs<D>(f: Stage<D>, r: seq<Block<D>>): seq<Block<D>>
    decreases |r|
  {
    if r == [] then []
    else var o := Outputs(f, Init(r)); if Failed(o) then o else o + [f(r)]
  }

  /** What the stage alone answers, block by block, when nothing latches. */
  function Answers<D>(f: Stage<D>, r: seq<Block<D>>): (a: seq<Block<D>>)
    ensures |a| == |r|
  {
    seq(|r|, i requires 0 <= i < |r| => f(r[..i + 1]))
  }

  /** The index of the first error, or the length. */
  function FirstError<D>(s: seq<Block<D>>): (k: nat)
    ensures k <= |s| && (k < |s| ==> IsError(s[k]))
    ensures forall i :: 0 <= i < k ==> !IsError(s[i])
  {
    if s == [] then 0
    else
      var k := FirstError(Init(s));
      if k < |s| - 1 then k else if IsError(Last(s)) then k else k + 1
  }

  /** A sequence up to and including its first error. */
  function Cut<D>(s: seq<Block<D>>): seq<Block<D>> {
    if FirstError(s) < |s| then s[..FirstError(s) + 1] else s
  }

  ghost predicate IsNoop<D(!new)>(f: Stage<D>) {
    forall r: seq<Block<D>> :: r != [] ==> f(r) == Last(r)
  }

  /** The stage passes an end-of-processing block through and turns a data block into a data block or
      an error. */
  ghost predicate Behaved<D(!new)>(f: Stage<D>) {
    forall r: seq<Block<D>> :: r != [] ==>
      && (IsEop(Last(r)) ==> f(r) == Last(r))
      && (!IsEop(Last(r)) && IsEop(f(r)) ==> IsError(f(r)))
  }

  /** No end-of-processing block stands before the last position. */
  ghost predicate EopOnlyLast<D>(s: seq<Block<D>>) {
    forall i :: 0 <= i < |s| - 1 ==> !IsEop(s[i])
  }

  /** Data blocks and then one end-of-processing block. */
  ghost predicate Complete<D>(s: seq<Block<D>>) {
    s != [] && IsEop(Last(s)) && EopOnlyLast(s)
  }

  /** What a threaded buffer delivers of `s`: everything up to its first end-of-processing block. */
  function UpToEop<D>(s: seq<Block<D>>): (r: seq<Block<D>>)
    ensures r <= s
    ensures EopOnlyLast(r)
    ensures r == s || (r != [] && IsEop(Last(r)))
    decreases |s|
  {
    if s == [] then []
    else
      var r := UpToEop(Init(s));
      if |r| < |s| - 1 || (r != [] && IsEop(Last(r))) then r else s
  }

  // ---------------------------------------------------------------------------------------------

  lemma {:induction false} OutputsBasics<D>(f: Stage<D>, r: seq<Block<D>>)
    ensures |Outputs(f, r)| <= |r|
    ensures !Failed(Outputs(f, r)) ==> |Outputs(f, r)| == |r|
    decreases |r|
  {
    if r != [] { OutputsBasics(f, Init(r)); }
  }

  lemma {:induction false} OutputsMonotone<D>(f: Stage<D>, r: seq<Block<D>>, r': seq<Block<D>>)
    requires r <= r'
    ensures Outputs(f, r) <= Outputs(f, r')
    decreases |r'|
  {
    if |r| < |r'| {
      OutputsMonotone(f, r, Init(r'));
    } else {
      assert r == r';
    }
  }

  /** The error latch cuts the stage's answers after the first error and does nothing else. */
  lemma {:induction false} OutputsAreCutAnswers<D>(f: Stage<D>, r: seq<Block<D>>)
    ensures Outputs(f, r) == Cut(Answers(f, r))
    decreases |r|
  {
    if r != [] {
      OutputsAreCutAnswers(f, Init(r));
      AnswersSnoc(f, r);
      CutSnoc(Answers(f, Init(r)), f(r));
    }
  }

  lemma AnswersSnoc<D>(f: Stage<D>, r: seq<Block<D>>)
    requires r != []
    ensures Answers(f, r) == Answers(f, Init(r)) + [f(r)]
  {
    assert r[..|r|] == r;
    forall i | 0 <= i < |r| - 1 ensures Answers(f, r)[i] == Answers(f, Init(r))[i] {
      assert Init(r)[..i + 1] == r[..i + 1];
    }
  }

  lemma CutSnoc<D>(s: seq<Block<D>>, b: Block<D>)
    ensures Cut(s + [b]) == if Failed(Cut(s)) then Cut(s) else s + [b]
    ensures !Failed(Cut(s)) ==> Cut(s) == s
  {
    assert Init(s + [b]) == s;
    if FirstError(s) < |s| {
      assert Last(Cut(s)) == s[FirstError(s)];
      assert (s + [b])[..FirstError(s) + 1] == s[..FirstError(s) + 1];
    } else {
      assert forall i :: 0 <= i < |s| ==> !IsError(s[i]);
    }
  }

  lemma FirstErrorUnique<D>(s: seq<Block<D>>, k: nat)
    requires k <= |s| && (k < |s| ==> IsError(s[k])) && forall i :: 0 <= i < k ==> !IsError(s[i])
    ensures FirstError(s) == k
  {
    var j := FirstError(s);
    assert j < |s| ==> IsError(s[j]);
  }

  lemma {:induction false} NoopOutputs<D(!new)>(f: Stage<D>, r: seq<Block<D>>)
    requires IsNoop(f) && EopOnlyLast(r)
    ensures Outputs(f, r) == r
    decreases |r|
  {
    if r != [] {
      assert EopOnlyLast(Init(r));
      NoopOutputs(f, Init(r));
      if Failed(Init(r)) { assert IsEop(r[|r| - 2]); }
    }
  }

  /** A behaved stage keeps the end-of-processing block where it belongs. */
  lemma {:induction false} OutputsEopOnlyLast<D(!new)>(f: Stage<D>, r: seq<Block<D>>)
    requires Behaved(f) && EopOnlyLast(r)
    ensures EopOnlyLast(Outputs(f, r))
    ensures r != [] && IsEop(Last(r)) ==> Outputs(f, r) != [] && IsEop(Last(Outputs(f, r)))
    ensures Outputs(f, r) != [] && IsEop(Last(Outputs(f, r))) && !Failed(Outputs(f, r)) ==> IsEop(Last(r))
    decreases |r|
  {
    if r != [] {
      var i := Init(r);
      assert EopOnlyLast(i);
      OutputsEopOnlyLast(f, i);
      OutputsBasics(f, i);
      var o := Outputs(f, i);
      assert |r| >= 2 ==> !IsEop(r[|r| - 2]);
    }
  }

  /** data* EOP in gives data* EOP out, ending no later. */
  lemma CompleteOutputs<D(!new)>(f: Stage<D>, r: seq<Block<D>>)
    requires Behaved(f) && Complete(r)
    ensures Complete(Outputs(f, r)) && |Outputs(f, r)| <= |r|
  {
    OutputsEopOnlyLast(f, r);
    OutputsBasics(f, r);
  }

  lemma UpToEopOfTidy<D>(s: seq<Block<D>>)
    requires EopOnlyLast(s)
    ensures UpToEop(s) == s
  {
    var r := UpToEop(s);
    assert r != [] ==> r[|r| - 1] == s[|r| - 1];
  }

  /** A prefix of `s` whose last block alone may end the processing is delivered in full. */
  lemma UpToEopPrefix<D>(r: seq<Block<D>>, s: seq<Block<D>>)
    requires r <= s && EopOnlyLast(r)
    ensures r <= UpToEop(s)
    ensures r != [] && IsEop(Last(r)) ==> UpToEop(s) == r
  {
    var u := UpToEop(s);
    assert forall i :: 0 <= i < |u| && i < |r| ==> u[i] == r[i];
    assert 0 < |r| <= |u| ==> Last(r) == u[|r| - 1];
    assert 0 < |u| <= |r| ==> Last(u) == r[|u| - 1];
  }

  // ---------------------------------------------------------------------------------------------
  // A path of stages

  /** What comes out at the end of the path when every stage latches on its own. */
  function Along<D>(fs: seq<Stage<D>>, s: seq<Block<D>>): seq<Block<D>>
    decreases |fs|
  {
    if fs == [] then s else Outputs(Last(fs), Along(Init(fs), s))
  }

  /** What the stages of the path alone make of every block. */
  function Through<D>(fs: seq<Stage<D>>, s: seq<Block<D>>): (a: seq<Block<D>>)
    ensures |a| == |s|
    decreases |fs|
  {
    if fs == [] then s else Answers(Last(fs), Through(Init(fs), s))
  }

  lemma CutOfAnswersOfCut<D(!new)>(f: Stage<D>, x: seq<Block<D>>)
    requires Behaved(f)
    ensures Cut(Answers(f, Cut(x))) == Cut(Answers(f, x))
  {
    var k := FirstError(x);
    if k < |x| {
      var a, c := Answers(f, x), Answers(f, Cut(x));
      assert x[..k + 1] == Cut(x);
      forall i | 0 <= i <= k ensures c[i] == a[i] { assert Cut(x)[..i + 1] == x[..i + 1]; }
      assert a[k] == x[k] by { assert f(x[..k + 1]) == Last(x[..k + 1]); }
      var j := FirstError(a);
      FirstErrorUnique(c, j);
      assert c[..j + 1] == a[..j + 1];
    }
  }

  ghost predicate AllBehaved<D(!new)>(fs: seq<Stage<D>>) {
    forall i :: 0 <= i < |fs| ==> Behaved(fs[i])
  }

  /** Latching stage by stage is the same as stopping at the first block on which any stage of the
      path fails: what reaches the end of the path is the unlatched answers up to and including the
      first error among them. */
  lemma {:induction false} FirstFailureWins<D(!new)>(fs: seq<Stage<D>>, s: seq<Block<D>>)
    requires AllBehaved(fs) && (forall i :: 0 <= i < |s| - 1 ==> !IsError(s[i]))
    ensures Along(fs, s) == Cut(Through(fs, s))
    decreases |fs|
  {
    if fs != [] {
      var f := Last(fs);
      FirstFailureWins(Init(fs), s);
      OutputsAreCutAnswers(f, Along(Init(fs), s));
      CutOfAnswersOfCut(f, Through(Init(fs), s));
    } else if |s| > 0 && IsError(Last(s)) {
      FirstErrorUnique(s, |s| - 1);
    } else {
      FirstErrorUnique(s, |s|);
    }
  }

  /** On one block, the first stage that fails decides: the later ones pass its error on. */
  lemma {:induction false} FirstFailingStageDecides<D(!new)>(fs: seq<Stage<D>>, i: nat, s: seq<Block<D>>, j: nat)
    requires AllBehaved(fs) && i <= |fs| && j < |s|
    requires IsError(Through(fs[..i], s)[j])
    ensures Through(fs, s)[j] == Through(fs[..i], s)[j]
    decreases |fs|
  {
    if i < |fs| {
      assert Init(fs)[..i] == fs[..i];
      FirstFailingStageDecides(Init(fs), i, s, j);
      AnswerPasses(Last(fs), Through(Init(fs), s), j);
    } else {
      assert fs[..i] == fs;
    }
  }

  lemma AnswerPasses<D(!new)>(f: Stage<D>, t: seq<Block<D>>, j: nat)
    requires Behaved(f) && j < |t| && IsEop(t[j])
    ensures Answers(f, t)[j] == t[j]
  {
    assert Last(t[..j + 1]) == t[j];
  }

  /** data* EOP at the head of a behaved path arrives as data* EOP at its end. The status that arrives
      is that of the first failing block (j) and of the first stage (i - 1) that fails on it, or, if
      no stage fails on any block, the source's own. */
  lemma StatusAtEnd<D(!new)>(fs: seq<Stage<D>>, s: seq<Block<D>>)
    requires AllBehaved(fs) && Complete(s)
    ensures Complete(Along(fs, s))
    ensures var j := FirstError(Through(fs, s));
            if j < |s| then
              exists i :: 0 <= i <= |fs| && IsError(Through(fs[..i], s)[j])
                && (forall h :: 0 <= h < i ==> !IsError(Through(fs[..h], s)[j]))
                && Last(Along(fs, s)) == Through(fs[..i], s)[j]
            else Last(Along(fs, s)) == Last(s)
  {
    FirstFailureWins(fs, s);
    AlongComplete(fs, s);
    var j := FirstError(Through(fs, s));
    if j < |s| {
      assert fs[..|fs|] == fs;
      var i := FirstFailingStage(fs, s, j, |fs|);
      FirstFailingStageDecides(fs, i, s, j);
    } else {
      EopPasses(fs, s, |s| - 1);
    }
  }

  lemma {:induction false} AlongComplete<D(!new)>(fs: seq<Stage<D>>, s: seq<Block<D>>)
    requires AllBehaved(fs) && Complete(s)
    ensures Complete(Along(fs, s))
    decreases |fs|
  {
    if fs != [] {
      AlongComplete(Init(fs), s);
      CompleteOutputs(Last(fs), Along(Init(fs), s));
    }
  }

  lemma {:induction false} EopPasses<D(!new)>(fs: seq<Stage<D>>, s: seq<Block<D>>, j: nat)
    requires AllBehaved(fs) && j < |s| && IsEop(s[j])
    ensures Through(fs, s)[j] == s[j]
    decreases |fs|
  {
    if fs != [] {
      EopPasses(Init(fs), s, j);
      AnswerPasses(Last(fs), Through(Init(fs), s), j);
    }
  }

  lemma {:induction false} FirstFailingStage<D(!new)>(fs: seq<Stage<D>>, s: seq<Block<D>>, j: nat, n: nat)
    returns (i: nat)
    requires n <= |fs| && j < |s| && IsError(Through(fs[..n], s)[j])
    ensures i <= n && IsError(Through(fs[..i], s)[j])
    ensures forall h :: 0 <= h < i ==> !IsError(Through(fs[..h], s)[j])
    decreases n
  {
    i := n;
    if h :| 0 <= h < n && IsError(Through(fs[..h], s)[j]) {
      i := FirstFailingStage(fs, s, j, h);
    }
  }

  // ---------------------------------------------------------------------------------------------
  // The sink

  /** A `StreamSink`: its promise, and whether a second `set_value` has thrown. */
  datatype Promise = Promise(status: Option<EopStatus>, thrown: bool)

  function VisitSink<D>(p: Promise, b: Block<D>): Promise {
    if b.eop.None? then p
    else if p.status.None? then p.(status := b.eop)
    else p.(thrown := true)
  }

  function SinkAfter<D>(s: seq<Block<D>>): Promise
    decreases |s|
  {
    if s == [] then Promise(None, false) else VisitSink(SinkAfter(Init(s)), Last(s))
  }

  /** Showing `b` to a sink that has been shown `log` sets its promise a second time. */
  predicate SinkThrows<D>(log: seq<Block<D>>, b: Block<D>) {
    b.eop.Some? && SinkAfter(log).status.Some?
  }

  lemma SinkMore<D>(log: seq<Block<D>>, b: Block<D>)
    ensures SinkAfter(log + [b]) == VisitSink(SinkAfter(log), b)
    ensures SinkAfter(log + [b]).thrown <==> SinkAfter(log).thrown || SinkThrows(log, b)
  {
    assert Init(log + [b]) == log;
  }

  /** The status of the first end-of-processing block, if there is one. */
  function FirstEop<D>(s: seq<Block<D>>): Option<EopStatus> {
    var r := UpToEop(s);
    if r == [] then None else Last(r).eop
  }

  ghost predicate TwoEops<D>(s: seq<Block<D>>) {
    exists i, j :: 0 <= i < j < |s| && IsEop(s[i]) && IsEop(s[j])
  }

  lemma {:induction false} UpToEopHasAll<D>(s: seq<Block<D>>)
    ensures FirstEop(s).None? <==> forall i :: 0 <= i < |s| ==> !IsEop(s[i])
  {
    var r := UpToEop(s);
    if r != [] { assert r[|r| - 1] == s[|r| - 1]; }
    forall i | 0 <= i < |r| - 1 ensures !IsEop(s[i]) { assert r[i] == s[i]; }
  }

  lemma UpToEopMore<D>(s: seq<Block<D>>)
    requires s != []
    ensures FirstEop(s) == if FirstEop(Init(s)).Some? then FirstEop(Init(s)) else Last(s).eop
  {
  }

  lemma TwoEopsMore<D>(s: seq<Block<D>>)
    requires s != []
    ensures TwoEops(s) <==> TwoEops(Init(s)) || (FirstEop(Init(s)).Some? && IsEop(Last(s)))
  {
    var r := Init(s);
    UpToEopHasAll(r);
    assert forall i :: 0 <= i < |r| ==> s[i] == r[i];
    if FirstEop(r).Some? && IsEop(Last(s)) {
      var i :| 0 <= i < |r| && IsEop(r[i]);
      assert IsEop(s[i]) && IsEop(s[|s| - 1]);
    }
  }

  /** For every sequence of blocks: the promise has the status of the first end-of-processing block, if
      there was one, and setting it has thrown exactly if there were two. */
  lemma {:induction false} SinkExact<D>(s: seq<Block<D>>)
    ensures SinkAfter(s).status == FirstEop(s)
    ensures SinkAfter(s).thrown <==> TwoEops(s)
    decreases |s|
  {
    if s != [] {
      SinkExact(Init(s));
      UpToEopMore(s);
      TwoEopsMore(s);
    }
  }

  /** What a sink has been told, and that it has thrown, stays so. */
  lemma SinkKeeps<D>(r: seq<Block<D>>, s: seq<Block<D>>)
    requires r <= s
    ensures FirstEop(r).Some? ==> FirstEop(s) == FirstEop(r)
    ensures TwoEops(r) ==> TwoEops(s)
  {
    UpToEopPrefix(UpToEop(r), s);
    assert forall i :: 0 <= i < |r| ==> r[i] == s[i];
  }

  /** On a stream with no end-of-processing block but the last, the promise never throws and is set
      by the last block. */
  lemma SinkSetOnce<D>(s: seq<Block<D>>)
    requires EopOnlyLast(s)
    ensures !SinkAfter(s).thrown
    ensures SinkAfter(s).status == if s == [] then None else Last(s).eop
  {
    SinkExact(s);
    UpToEopOfTidy(s);
  }
}
