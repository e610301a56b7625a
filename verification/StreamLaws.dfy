/** The laws of the error latch, the end of processing and the sink, read off the status of each block. */
module StreamLaws {
  import opened Options
  import opened Streams

  lemma CutAtError<D>(a: seq<Block<D>>, k: nat)
    requires k < |a| && a[k].eop.Some? && a[k].eop.value.kind == EopError
    requires forall i :: 0 <= i < k && a[i].eop.Some? ==> a[i].eop.value.kind != EopError
    ensures Cut(a) == a[..k + 1]
  {
    FirstErrorUnique(a, k);
  }

  lemma CutNowhere<D>(a: seq<Block<D>>)
    requires forall i :: 0 <= i < |a| && a[i].eop.Some? ==> a[i].eop.value.kind != EopError
    ensures Cut(a) == a
  {
    FirstErrorUnique(a, |a|);
  }

  lemma AnswerIs<D>(f: Stage<D>, r: seq<Block<D>>, i: nat)
    requires i < |r|
    ensures Answers(f, r)[i] == f(r[..i + 1])
  {
  }

  /** A stage whose k-th answer is its first of kind EopError puts out its answers up to that one. */
  lemma LatchesOnError<D>(f: Stage<D>, r: seq<Block<D>>, a: seq<Block<D>>, k: nat)
    requires |a| == |r| && (forall i :: 0 <= i < |r| ==> a[i] == f(r[..i + 1]))
    requires k < |a| && a[k].eop.Some? && a[k].eop.value.kind == EopError
    requires forall i :: 0 <= i < k && a[i].eop.Some? ==> a[i].eop.value.kind != EopError
    ensures Outputs(f, r) == a[..k + 1]
  {
    AnswersAre(f, r, a);
    OutputsAreCutAnswers(f, r);
    CutAtError(a, k);
  }

  lemma AnswersAre<D>(f: Stage<D>, r: seq<Block<D>>, a: seq<Block<D>>)
    requires |a| == |r| && (forall i :: 0 <= i < |r| ==> a[i] == f(r[..i + 1]))
    ensures Answers(f, r) == a
  {
    forall i | 0 <= i < |r| ensures Answers(f, r)[i] == a[i] { AnswerIs(f, r, i); }
  }

  /** A stage that never answers with a status of that kind, with others or none, answers every block. */
  lemma NeverLatches<D>(f: Stage<D>, r: seq<Block<D>>, a: seq<Block<D>>)
    requires |a| == |r| && (forall i :: 0 <= i < |r| ==> a[i] == f(r[..i + 1]))
    requires forall i :: 0 <= i < |a| && a[i].eop.Some? ==> a[i].eop.value.kind != EopError
    ensures Outputs(f, r) == a
  {
    AnswersAre(f, r, a);
    OutputsAreCutAnswers(f, r);
    CutNowhere(a);
  }

  lemma {:induction false} StopsAtEop<D>(s: seq<Block<D>>, k: nat)
    requires k < |s| && s[k].eop.Some? && forall i :: 0 <= i < k ==> s[i].eop.None?
    ensures UpToEop(s) == s[..k + 1]
  {
    var r := s[..k + 1];
    assert EopOnlyLast(r);
    assert Last(r) == s[k];
    UpToEopPrefix(r, s);
  }

  /** A threaded buffer whose k-th block is the first with a status, of any kind, delivers the blocks up to
      that one. The promise of a sink that is shown the stream has that status, and setting it again throws
      exactly if another block with a status follows. */
  lemma FirstStatusCounts<D>(s: seq<Block<D>>, k: nat)
    requires k < |s| && s[k].eop.Some? && forall i :: 0 <= i < k ==> s[i].eop.None?
    ensures UpToEop(s) == s[..k + 1]
    ensures SinkAfter(s).status == s[k].eop
    ensures SinkAfter(s).thrown <==> exists j :: k < j < |s| && s[j].eop.Some?
  {
    StopsAtEop(s, k);
    SinkExact(s);
    if j :| k < j < |s| && s[j].eop.Some? {
      assert IsEop(s[k]) && IsEop(s[j]);
    }
  }

  /** Without a status everything is delivered, and the promise is left unset. */
  lemma NoStatus<D>(s: seq<Block<D>>)
    requires forall i :: 0 <= i < |s| ==> s[i].eop.None?
    ensures UpToEop(s) == s && SinkAfter(s) == Promise(None, false)
  {
    UpToEopOfTidy(s);
    SinkExact(s);
    UpToEopHasAll(s);
  }
}
