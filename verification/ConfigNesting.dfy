/** The section events nest: what a file leaves open after each line, and when all of it is closed. */
module ConfigNesting {
  import opened Options
  import opened Sequences
  import opened ConfigSections

  /** All non-empty prefixes of a path, shortest first. */
  function Prefixes(p: Path): seq<Path> { seq(|p|, i requires 0 <= i < |p| => p[..i + 1]) }

  /** The sections open after an event, innermost last: a section opens inside its parent, and only
      the innermost closes. */
  function Nest(open: seq<Path>, e: Event): Option<seq<Path>> {
    match e
    case Open(p) =>
      if p != [] && (if open == [] then |p| == 1 else open[|open| - 1] == Parent(p)) then Some(open + [p]) else None
    case Close(p) => if open != [] && open[|open| - 1] == p then Some(open[..|open| - 1]) else None
    case Item(_, _, _) => Some(open)
  }

  function Nesting(out: seq<Event>): Option<seq<Path>> {
    if out == [] then Some([])
    else match Nesting(out[..|out| - 1])
      case None => None
      case Some(open) => Nest(open, out[|out| - 1])
  }

  /** The event sequence opens and closes every section, properly nested. */
  predicate Balanced(out: seq<Event>) { Nesting(out) == Some([]) }

  lemma NestingMore(out: seq<Event>, e: Event)
    ensures Nesting(out + [e]) == (match Nesting(out) case None => None case Some(open) => Nest(open, e))
  {
    assert (out + [e])[..|out|] == out;
  }

  lemma {:induction false} BrokenStays(out: seq<Event>, more: seq<Event>)
    requires Nesting(out) == None
    ensures Nesting(out + more) == None
  {
    if more == [] {
      assert out + more == out;
    } else {
      BrokenStays(out, more[..|more| - 1]);
      NestingMore(out + more[..|more| - 1], more[|more| - 1]);
      assert out + more[..|more| - 1] + [more[|more| - 1]] == out + more;
    }
  }

  lemma PrefixesMore(p: Path)
    requires p != []
    ensures Prefixes(p) == Prefixes(Parent(p)) + [p]
  {
    forall i | 0 <= i < |p| - 1 ensures Prefixes(p)[i] == Prefixes(Parent(p))[i] {
      assert Parent(p)[..i + 1] == p[..i + 1];
    }
    assert p[..|p|] == p;
  }

  lemma LastOpen(p: Path)
    ensures Prefixes(p) == [] <==> p == []
    ensures p != [] ==> Prefixes(p)[|p| - 1] == p
  {
  }

  lemma CloseOne(out: seq<Event>, q: Path)
    requires q != [] && Nesting(out) == Some(Prefixes(q))
    ensures Nesting(out + [Close(q)]) == Some(Prefixes(Parent(q)))
  {
    NestingMore(out, Close(q));
    PrefixesMore(q);
    LastOpen(q);
  }

  lemma OpenOne(out: seq<Event>, q: Path)
    requires q != [] && Nesting(out) == Some(Prefixes(Parent(q)))
    ensures Nesting(out + [Open(q)]) == Some(Prefixes(q))
  {
    NestingMore(out, Open(q));
    PrefixesMore(q);
    LastOpen(Parent(q));
  }

  /** Closing the names of `p` beyond the first `k` leaves the first `k` open. */
  lemma {:induction false} NestingCloses(out: seq<Event>, p: Path, k: nat)
    requires k <= |p| && Nesting(out) == Some(Prefixes(p))
    ensures Nesting(out + Closes(p, k)) == Some(Prefixes(p[..k]))
    decreases |p| - k
  {
    if k == |p| {
      assert p[..k] == p && out + Closes(p, k) == out;
    } else {
      var q := p[..k + 1];
      NestingCloses(out, p, k + 1);
      CloseOne(out + Closes(p, k + 1), q);
      ClosesMore(p, k);
      Associative(out, Closes(p, k + 1), [Close(q)]);
      assert Parent(q) == p[..k];
    }
  }

  /** Opening the names of `p` beyond the first `k`, when these are open, opens `p`. */
  lemma {:induction false} NestingOpens(out: seq<Event>, p: Path, k: nat)
    requires k <= |p| && Nesting(out) == Some(Prefixes(p[..k]))
    ensures Nesting(out + Opens(p, k)) == Some(Prefixes(p))
    decreases |p|
  {
    if k == |p| {
      assert p[..k] == p && out + Opens(p, k) == out;
    } else {
      assert Parent(p)[..k] == p[..k];
      NestingOpens(out, Parent(p), k);
      OpenLast(out, p, k);
    }
  }

  lemma OpenLast(out: seq<Event>, p: Path, k: nat)
    requires k < |p| && Nesting(out + Opens(Parent(p), k)) == Some(Prefixes(Parent(p)))
    ensures Nesting(out + Opens(p, k)) == Some(Prefixes(p))
  {
    OpenOne(out + Opens(Parent(p), k), p);
    LastOpens(p, k);
    Associative(out, Opens(Parent(p), k), [Open(p)]);
  }

  lemma LastOpens(p: Path, k: nat)
    requires k < |p|
    ensures Opens(p, k) == Opens(Parent(p), k) + [Open(p)]
  {
    assert p[..|p|] == p;
    OpensMore(p, k, |p| - 1);
  }

  /** An output that ends in closing `b`, with the parents of `b` left open, had `b` open before. */
  lemma BeforeClose(out: seq<Event>, b: Path)
    requires b != [] && Nesting(out + [Close(b)]) == Some(Prefixes(Parent(b)))
    ensures Nesting(out) == Some(Prefixes(b))
  {
    NestingMore(out, Close(b));
    var open := Nesting(out).value;
    assert open == open[..|open| - 1] + [b];
    PrefixesMore(b);
  }

  lemma EnteredFrom(pre: seq<Event>, b: Path, p: Path)
    requires p != [] && Nesting(pre) == Some(Prefixes(b))
    ensures var k := Common(b, Parent(p)); Nesting(pre + Closes(b, k) + Opens(p, k)) == Some(Prefixes(p))
  {
    var k := Common(b, Parent(p));
    NestingCloses(pre, b, k);
    assert b[..k] == p[..k];
    NestingOpens(pre + Closes(b, k), p, k);
  }

  lemma EndsWithClose(out: seq<Event>, b: Path)
    requires EndsInClose(out) && out[|out| - 1].path == b
    ensures out == out[..|out| - 1] + [Close(b)]
  {
  }

  lemma EnteredIs(out: seq<Event>, b: Path, p: Path)
    requires p != [] && EndsInClose(out) && out[|out| - 1].path == b
    ensures var k := Common(b, Parent(p)); Entered(out, p) == out[..|out| - 1] + Closes(b, k) + Opens(p, k)
  {
  }

  /** A header after the closing of section `b` leaves exactly the prefixes of its own path open. */
  lemma EnteredNests(out: seq<Event>, b: Path, p: Path)
    requires p != [] && b != [] && EndsInClose(out) && out[|out| - 1].path == b
    requires Nesting(out) == Some(Prefixes(Parent(b)))
    ensures Nesting(Entered(out, p)) == Some(Prefixes(p))
  {
    EndsWithClose(out, b);
    EnteredIs(out, b, p);
    ReopenedNests(out[..|out| - 1], b, p);
  }

  lemma ReopenedNests(pre: seq<Event>, b: Path, p: Path)
    requires p != [] && b != [] && Nesting(pre + [Close(b)]) == Some(Prefixes(Parent(b)))
    ensures var k := Common(b, Parent(p)); Nesting(pre + Closes(b, k) + Opens(p, k)) == Some(Prefixes(p))
  {
    BeforeClose(pre, b);
    EnteredFrom(pre, b, p);
  }

  /** Between the two sections, no event opens or closes an ancestor that they share. */
  lemma SharedStayOpen(out: seq<Event>, p: Path, i: nat)
    requires p != [] && EndsInClose(out) && |out| - 1 <= i < |Entered(out, p)|
    ensures var b := out[|out| - 1].path;
            var e := Entered(out, p)[i];
            !e.Item? && |e.path| > Common(b, Parent(p)) && Entered(out, p)[..|out| - 1] == out[..|out| - 1]
  {
  }

  // ---------------------------------------------------------------------------------------------
  // Whole files

  /** The current section after some lines; [] is "default". */
  function SectionAt(lines: seq<Line>): Path {
    if lines == [] then []
    else match lines[|lines| - 1]
      case Header(p) => p
      case Default => []
      case Entry(_, _, _) => SectionAt(lines[..|lines| - 1])
  }

  /** The last section that a header named, whether or not the default section followed. */
  function LastNamed(lines: seq<Line>): Path {
    if lines == [] then []
    else if lines[|lines| - 1].Header? then lines[|lines| - 1].path
    else LastNamed(lines[..|lines| - 1])
  }

  /** Before line `i` the file has returned to the default section from a section with parents, and
      the file ends there or line `i` is an entry. */
  predicate LeavesOpen(lines: seq<Line>, i: nat, maxLayers: nat) {
    && i <= |lines|
    && SectionAt(lines[..i]) == []
    && |LastNamed(lines[..i])| >= 2
    && (i < |lines| ==> lines[i].Entry? && |lines[i].dotted| <= maxLayers)
  }

  lemma {:induction false} SectionIs(lines: seq<Line>, maxLayers: nat)
    requires Proper(lines)
    ensures ReadAll(lines, maxLayers).section == SectionAt(lines)
  {
    if lines != [] { SectionIs(lines[..|lines| - 1], maxLayers); }
  }

  lemma {:induction false} NamedIsProper(lines: seq<Line>)
    requires Proper(lines)
    ensures SectionAt(lines) != [] ==> LastNamed(lines) == SectionAt(lines)
  {
    if lines != [] { NamedIsProper(lines[..|lines| - 1]); }
  }

  /** What the lines read so far leave open, when the section named last is `named`. */
  ghost predicate Tidy(s: Reading, named: Path) {
    if s.section != [] then
      named == s.section && Nesting(s.out) == Some(Prefixes(named))
    else
      && Nesting(s.out) == Some(Prefixes(Parent(named)))
      && (EndsInClose(s.out) ==> named != [] && s.out[|s.out| - 1].path == named)
      && (|named| >= 2 ==> EndsInClose(s.out))
  }

  lemma AddedNests(out: seq<Event>, path: Path, name: string, inputs: seq<string>)
    ensures Nesting(Added(out, path, name, inputs)) == Nesting(out) && !EndsInClose(Added(out, path, name, inputs))
  {
    var n := |out|;
    if n > 0 && out[n - 1].Item? && out[n - 1].path == path && out[n - 1].name == name {
      NestingMore(out[..n - 1], out[n - 1]);
      assert out == out[..n - 1] + [out[n - 1]];
      NestingMore(out[..n - 1], Item(path, name, out[n - 1].inputs + inputs));
    } else {
      NestingMore(out, Item(path, name, inputs));
    }
  }

  lemma LeftNests(s: Reading, named: Path)
    requires Tidy(s, named)
    ensures Nesting(Left(s)) == Some(Prefixes(Parent(named)))
    ensures EndsInClose(Left(s)) ==> named != [] && Left(s)[|Left(s)| - 1].path == named
    ensures |named| >= 2 ==> EndsInClose(Left(s))
  {
    if s.section != [] {
      CloseOne(s.out, named);
    }
  }

  lemma HeaderNests(s: Reading, named: Path, p: Path)
    requires Tidy(s, named) && p != []
    ensures Nesting(Entered(Left(s), p)) == Some(Prefixes(p))
  {
    LeftNests(s, named);
    if EndsInClose(Left(s)) {
      EnteredNests(Left(s), named, p);
    } else {
      assert Prefixes(Parent(named)) == Prefixes(p[..0]);
      NestingOpens(Left(s), p, 0);
    }
  }

  lemma TidyStep(s: Reading, named: Path, line: Line, maxLayers: nat)
    requires Tidy(s, named) && (line.Header? ==> line.path != [])
    requires !(s.section == [] && |named| >= 2 && Kept([], line, maxLayers))
    ensures Tidy(ReadLine(s, line, maxLayers), if line.Header? then line.path else named)
  {
    match line
    case Header(p) => HeaderNests(s, named, p);
    case Default => LeftNests(s, named);
    case Entry(dotted, name, inputs) =>
      if Kept(s.section, line, maxLayers) { TidyEntry(s, named, s.section + dotted, name, inputs); }
  }

  lemma TidyEntry(s: Reading, named: Path, path: Path, name: string, inputs: seq<string>)
    requires Tidy(s, named) && !(s.section == [] && |named| >= 2)
    ensures Tidy(s.(out := Added(s.out, path, name, inputs)), named)
  {
    AddedNests(s.out, path, name, inputs);
  }

  lemma {:induction false} AllTidy(lines: seq<Line>, maxLayers: nat)
    requires Proper(lines) && forall i :: 0 <= i < |lines| ==> !LeavesOpen(lines, i, maxLayers)
    ensures Tidy(ReadAll(lines, maxLayers), LastNamed(lines))
  {
    if lines == [] {
      LastOpen([]);
    } else {
      FrontLeaves(lines, maxLayers);
      AllTidy(lines[..|lines| - 1], maxLayers);
      LastStep(lines[..|lines| - 1], lines[|lines| - 1], maxLayers);
    }
  }

  lemma FrontLeaves(lines: seq<Line>, maxLayers: nat)
    requires lines != [] && forall i :: 0 <= i < |lines| ==> !LeavesOpen(lines, i, maxLayers)
    ensures var front := lines[..|lines| - 1];
            && (forall i :: 0 <= i < |front| ==> !LeavesOpen(front, i, maxLayers))
            && !(SectionAt(front) == [] && |LastNamed(front)| >= 2 && Kept([], lines[|front|], maxLayers))
  {
    var front := lines[..|lines| - 1];
    forall i | 0 <= i < |front| ensures !LeavesOpen(front, i, maxLayers) {
      assert front[..i] == lines[..i] && !LeavesOpen(lines, i, maxLayers);
    }
    assert !LeavesOpen(lines, |front|, maxLayers);
  }

  lemma LastStep(front: seq<Line>, line: Line, maxLayers: nat)
    requires Proper(front) && (line.Header? ==> line.path != []) && Tidy(ReadAll(front, maxLayers), LastNamed(front))
    requires !(SectionAt(front) == [] && |LastNamed(front)| >= 2 && Kept([], line, maxLayers))
    ensures var s := ReadAll(front, maxLayers);
            Tidy(ReadLine(s, line, maxLayers), if line.Header? then line.path else LastNamed(front))
  {
    SectionIs(front, maxLayers);
    TidyStep(ReadAll(front, maxLayers), LastNamed(front), line, maxLayers);
  }

  /** After a header, exactly the prefixes of its path are open, unless an entry came in the default
      section, entered from a section with parents. */
  lemma OpenAfterHeader(lines: seq<Line>, p: Path, maxLayers: nat)
    requires Proper(lines + [Header(p)])
    requires forall i :: 0 <= i < |lines| ==> !LeavesOpen(lines, i, maxLayers)
    ensures Nesting(ReadAll(lines + [Header(p)], maxLayers).out) == Some(Prefixes(p))
  {
    var all := lines + [Header(p)];
    assert all[..|lines|] == lines && all[|lines|] == Header(p);
    assert forall i :: 0 <= i < |lines| ==> lines[i] == all[i];
    AllTidy(lines, maxLayers);
    HeaderNests(ReadAll(lines, maxLayers), LastNamed(lines), p);
  }

  lemma FinishedNests(s: Reading, named: Path)
    requires Tidy(s, named)
    ensures Nesting(Finished(s)) == Some(Prefixes(if s.section != [] then [] else Parent(named)))
  {
    if s.section != [] {
      NestingCloses(s.out, s.section, 0);
    } else {
      assert Finished(s) == s.out;
    }
  }

  // An output that is no longer well nested

  /** An event that opens a section in the wrong place, which no later step takes back. */
  ghost predicate Ruined(out: seq<Event>, n: nat) {
    n < |out| && out[n].Open? && Nesting(out[..n + 1]) == None
  }

  ghost predicate Leftover(s: Reading, q: Path) {
    s.section == [] && !EndsInClose(s.out) && q != [] && Nesting(s.out) == Some(Prefixes(q))
  }

  ghost predicate Broken(s: Reading) {
    (exists q: Path :: Leftover(s, q)) || (exists n: nat :: Ruined(s.out, n))
  }

  lemma RuinedStays(out: seq<Event>, more: seq<Event>, n: nat)
    requires Ruined(out, n) && n < |more| && more[..n + 1] == out[..n + 1]
    ensures Ruined(more, n)
  {
    assert more[n] == more[..n + 1][n] == out[..n + 1][n];
  }

  lemma LeftKeeps(s: Reading, n: nat)
    requires Ruined(s.out, n)
    ensures Ruined(Left(s), n)
  {
    RuinedStays(s.out, Left(s), n);
  }

  lemma RuinedStep(s: Reading, n: nat, line: Line, maxLayers: nat)
    requires Ruined(s.out, n) && (line.Header? ==> line.path != [])
    ensures Ruined(ReadLine(s, line, maxLayers).out, n)
  {
    LeftKeeps(s, n);
    match line
    case Header(p) => RuinedStays(Left(s), Entered(Left(s), p), n);
    case Default =>
    case Entry(dotted, name, inputs) => RuinedStays(s.out, Added(s.out, s.section + dotted, name, inputs), n);
  }

  /** Opening a section at the top while another is open. */
  lemma OpensInside(out: seq<Event>, q: Path, p: Path)
    requires q != [] && p != [] && Nesting(out) == Some(Prefixes(q))
    ensures Ruined(out + Opens(p, 0), |out|)
  {
    LastOpen(q);
    NestingMore(out, Open(p[..1]));
    BrokenOpen(out, Opens(p, 0), Open(p[..1]));
  }

  lemma BrokenOpen(out: seq<Event>, more: seq<Event>, e: Event)
    requires more != [] && more[0] == e && e.Open? && Nesting(out + [e]) == None
    ensures Ruined(out + more, |out|)
  {
    FirstOfMore(out, more);
  }

  lemma BrokenStep(s: Reading, line: Line, maxLayers: nat)
    requires Broken(s) && (line.Header? ==> line.path != [])
    ensures Broken(ReadLine(s, line, maxLayers))
  {
    if q: Path :| Leftover(s, q) {
      match line
      case Header(p) => OpensInside(s.out, q, p);
      case Default => assert Leftover(ReadLine(s, line, maxLayers), q);
      case Entry(dotted, name, inputs) =>
        AddedNests(s.out, s.section + dotted, name, inputs);
        assert Leftover(ReadLine(s, line, maxLayers), q);
    } else {
      var n: nat :| Ruined(s.out, n);
      RuinedStep(s, n, line, maxLayers);
    }
  }

  lemma {:induction false} BrokenOn(lines: seq<Line>, n: nat, maxLayers: nat)
    requires Proper(lines) && n <= |lines| && Broken(ReadAll(lines[..n], maxLayers))
    ensures Broken(ReadAll(lines, maxLayers))
    decreases |lines|
  {
    if n == |lines| {
      assert lines[..n] == lines;
    } else {
      var front := lines[..|lines| - 1];
      assert front[..n] == lines[..n];
      BrokenOn(front, n, maxLayers);
      BrokenStep(ReadAll(front, maxLayers), lines[|lines| - 1], maxLayers);
    }
  }

  lemma BrokenEnds(s: Reading)
    requires Broken(s)
    ensures !Balanced(Finished(s))
  {
    if q: Path :| Leftover(s, q) {
      assert Finished(s) == s.out;
      LastOpen(q);
    } else {
      var n: nat :| Ruined(s.out, n);
      BrokenStays(s.out[..n + 1], Finished(s)[n + 1..]);
      assert s.out[..n + 1] + Finished(s)[n + 1..] == Finished(s);
    }
  }

  lemma LeftoverAt(lines: seq<Line>, i: nat, maxLayers: nat)
    requires Proper(lines) && i < |lines| && LeavesOpen(lines, i, maxLayers)
    requires forall j :: 0 <= j < i ==> !LeavesOpen(lines, j, maxLayers)
    ensures Broken(ReadAll(lines[..i + 1], maxLayers))
  {
    var front := lines[..i];
    TidyBefore(lines, i, maxLayers);
    SectionIs(front, maxLayers);
    assert lines[..i + 1][..i] == front;
    LeftoverStep(ReadAll(front, maxLayers), LastNamed(front), lines[i], maxLayers);
  }

  lemma LeftoverStep(s: Reading, named: Path, line: Line, maxLayers: nat)
    requires Tidy(s, named) && s.section == [] && |named| >= 2 && line.Entry? && |line.dotted| <= maxLayers
    ensures Broken(ReadLine(s, line, maxLayers))
  {
    AddedNests(s.out, s.section + line.dotted, line.name, line.inputs);
    assert s.section + line.dotted == line.dotted;
    assert Leftover(ReadLine(s, line, maxLayers), Parent(named));
  }

  lemma TidyBefore(lines: seq<Line>, i: nat, maxLayers: nat)
    requires Proper(lines) && i <= |lines| && forall j :: 0 <= j < i ==> !LeavesOpen(lines, j, maxLayers)
    ensures Tidy(ReadAll(lines[..i], maxLayers), LastNamed(lines[..i]))
  {
    forall j | 0 <= j < i ensures !LeavesOpen(lines[..i], j, maxLayers) {
      assert lines[..i][..j] == lines[..j] && !LeavesOpen(lines, j, maxLayers);
    }
    AllTidy(lines[..i], maxLayers);
  }

  lemma UnbalancedAt(lines: seq<Line>, i: nat, maxLayers: nat)
    requires Proper(lines) && LeavesOpen(lines, i, maxLayers)
    requires forall j :: 0 <= j < i ==> !LeavesOpen(lines, j, maxLayers)
    ensures !Balanced(Emitted(lines, maxLayers))
  {
    if i < |lines| {
      LeftoverAt(lines, i, maxLayers);
      BrokenOn(lines, i + 1, maxLayers);
      BrokenEnds(ReadAll(lines, maxLayers));
    } else {
      assert lines[..i] == lines;
      TidyBefore(lines, i, maxLayers);
      SectionIs(lines, maxLayers);
      FinishedNests(ReadAll(lines, maxLayers), LastNamed(lines));
      LastOpen(Parent(LastNamed(lines)));
    }
  }

  lemma BalancedWhen(lines: seq<Line>, maxLayers: nat)
    requires Proper(lines) && forall i :: 0 <= i <= |lines| ==> !LeavesOpen(lines, i, maxLayers)
    ensures Balanced(Emitted(lines, maxLayers))
  {
    AllTidy(lines, maxLayers);
    SectionIs(lines, maxLayers);
    assert lines[..|lines|] == lines && !LeavesOpen(lines, |lines|, maxLayers);
    FinishedNests(ReadAll(lines, maxLayers), LastNamed(lines));
    LastOpen([]);
    assert SectionAt(lines) == [] ==> Parent(LastNamed(lines)) == [];
  }

  lemma {:induction false} First(lines: seq<Line>, i: nat, maxLayers: nat) returns (j: nat)
    requires LeavesOpen(lines, i, maxLayers)
    ensures LeavesOpen(lines, j, maxLayers) && forall k :: 0 <= k < j ==> !LeavesOpen(lines, k, maxLayers)
  {
    j := 0;
    while !LeavesOpen(lines, j, maxLayers)
      invariant j <= i && forall k :: 0 <= k < j ==> !LeavesOpen(lines, k, maxLayers)
      decreases i - j
    {
      j := j + 1;
    }
  }

  /** The section events of a file are well nested and leave nothing open exactly when the file never
      has an entry, or ends, in the default section after it came back to it from a section with parents. */
  lemma WellBracketed(lines: seq<Line>, maxLayers: nat)
    requires Proper(lines)
    ensures Balanced(Emitted(lines, maxLayers)) <==> forall i :: 0 <= i <= |lines| ==> !LeavesOpen(lines, i, maxLayers)
  {
    if i: nat :| i <= |lines| && LeavesOpen(lines, i, maxLayers) {
      var j := First(lines, i, maxLayers);
      UnbalancedAt(lines, j, maxLayers);
    } else {
      BalancedWhen(lines, maxLayers);
    }
  }

  lemma {:induction false} NeverBack(lines: seq<Line>)
    requires forall i :: 0 <= i < |lines| ==> !lines[i].Default?
    ensures LastNamed(lines) == SectionAt(lines)
  {
    if lines != [] { NeverBack(lines[..|lines| - 1]); }
  }

  /** Without a header [default], every file is well bracketed. */
  lemma NamedSectionsAreBalanced(lines: seq<Line>, maxLayers: nat)
    requires Proper(lines) && forall i :: 0 <= i < |lines| ==> !lines[i].Default?
    ensures Balanced(Emitted(lines, maxLayers))
  {
    forall i: nat | i <= |lines| ensures !LeavesOpen(lines, i, maxLayers) {
      NeverBack(lines[..i]);
    }
    BalancedWhen(lines, maxLayers);
  }

  /** The file of the two headers [a.b] and [default] leaves `a` open. */
  lemma DefaultLeavesOpen(maxLayers: nat)
    ensures !Balanced(Emitted([Header(["a", "b"]), Default], maxLayers))
  {
    var lines := [Header(["a", "b"]), Default];
    assert lines[..2] == lines && lines[..1] == [Header(["a", "b"])];
    assert LeavesOpen(lines, 2, maxLayers);
    WellBracketed(lines, maxLayers);
  }

  // ---------------------------------------------------------------------------------------------
  // The entries

  type Value = (Path, string, string)

  function Each(path: Path, name: string, inputs: seq<string>): seq<Value> {
    seq(|inputs|, i requires 0 <= i < |inputs| => (path, name, inputs[i]))
  }

  function ValuesOf(e: Event): seq<Value> {
    if e.Item? then Each(e.path, e.name, e.inputs) else []
  }

  /** The single values that the items of an output carry, in order. */
  function Values(out: seq<Event>): seq<Value> {
    if out == [] then [] else Values(out[..|out| - 1]) + ValuesOf(out[|out| - 1])
  }

  /** The values of the entries of a file, under their sections, in order, without the entries whose section
      and parents are more than `maxLayers` names together. */
  function FileValues(lines: seq<Line>, maxLayers: nat): seq<Value> {
    if lines == [] then []
    else
      var front, line := lines[..|lines| - 1], lines[|lines| - 1];
      FileValues(front, maxLayers) +
      if line.Entry? && |SectionAt(front) + line.dotted| <= maxLayers
      then Each(SectionAt(front) + line.dotted, line.name, line.inputs)
      else []
  }

  lemma ValuesMore(out: seq<Event>, e: Event)
    ensures Values(out + [e]) == Values(out) + ValuesOf(e)
  {
    assert (out + [e])[..|out|] == out;
  }

  lemma {:induction false} ValuesAppend(a: seq<Event>, b: seq<Event>)
    ensures Values(a + b) == Values(a) + Values(b)
    decreases |b|
  {
    if b == [] {
      assert a + b == a;
    } else {
      ValuesAppend(a, b[..|b| - 1]);
      ValuesAppendOne(a, b[..|b| - 1], b[|b| - 1]);
      assert b == b[..|b| - 1] + [b[|b| - 1]];
    }
  }

  lemma ValuesAppendOne(a: seq<Event>, front: seq<Event>, e: Event)
    requires Values(a + front) == Values(a) + Values(front)
    ensures Values(a + (front + [e])) == Values(a) + Values(front + [e])
  {
    ValuesMore(a + front, e);
    ValuesMore(front, e);
    Associative(a, front, [e]);
  }

  lemma {:induction false} NoValues(out: seq<Event>)
    requires forall i :: 0 <= i < |out| ==> !out[i].Item?
    ensures Values(out) == []
  {
    if out != [] { NoValues(out[..|out| - 1]); }
  }

  lemma ValuesAround(pre: seq<Event>, a: seq<Event>, b: seq<Event>)
    requires Values(a) == [] && Values(b) == []
    ensures Values(pre + a + b) == Values(pre)
  {
    ValuesAppend(pre + a, b);
    ValuesAppend(pre, a);
  }

  lemma ValuesEntered(out: seq<Event>, p: Path)
    requires p != []
    ensures Values(Entered(out, p)) == Values(out)
  {
    if EndsInClose(out) {
      var b := out[|out| - 1].path;
      var k := Common(b, Parent(p));
      NoValues(Closes(b, k));
      NoValues(Opens(p, k));
      ValuesAround(out[..|out| - 1], Closes(b, k), Opens(p, k));
    } else {
      NoValues(Opens(p, 0));
      ValuesAppend(out, Opens(p, 0));
    }
  }

  lemma ValuesAdded(out: seq<Event>, path: Path, name: string, inputs: seq<string>)
    ensures Values(Added(out, path, name, inputs)) == Values(out) + Each(path, name, inputs)
  {
    var n := |out|;
    if n > 0 && out[n - 1].Item? && out[n - 1].path == path && out[n - 1].name == name {
      assert Added(out, path, name, inputs)[..n - 1] == out[..n - 1];
      var before := out[n - 1].inputs;
      assert Each(path, name, before + inputs) == Each(path, name, before) + Each(path, name, inputs);
    } else {
      assert Added(out, path, name, inputs)[..n] == out;
    }
  }

  lemma ValuesLeft(s: Reading)
    ensures Values(Left(s)) == Values(s.out)
  {
    if s.section != [] { assert Left(s)[..|s.out|] == s.out; }
  }

  lemma {:induction false} ValuesRead(lines: seq<Line>, maxLayers: nat)
    requires Proper(lines)
    ensures Values(ReadAll(lines, maxLayers).out) == FileValues(lines, maxLayers)
  {
    if lines != [] {
      var front, line := lines[..|lines| - 1], lines[|lines| - 1];
      var s := ReadAll(front, maxLayers);
      ValuesRead(front, maxLayers);
      SectionIs(front, maxLayers);
      ValuesLeft(s);
      match line
      case Header(p) => ValuesEntered(Left(s), p);
      case Default =>
      case Entry(dotted, name, inputs) => ValuesAdded(s.out, s.section + dotted, name, inputs);
    }
  }

  /** Whatever the headers do, the output carries every value of every entry of at most `maxLayers` names,
      under its section, once and in the order of the file. */
  lemma ValuesKept(lines: seq<Line>, maxLayers: nat)
    requires Proper(lines)
    ensures Values(Emitted(lines, maxLayers)) == FileValues(lines, maxLayers)
  {
    var s := ReadAll(lines, maxLayers);
    ValuesRead(lines, maxLayers);
    ValuesAppend(s.out, Closes(s.section, 0));
    NoValues(Closes(s.section, 0));
  }
}
