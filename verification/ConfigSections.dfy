/** The section events of ConfigBase::from_config: the items named "++" and "--" that open and close
    the sections of a configuration file. */
module ConfigSections {
  /** The names of a section and its parents, outermost first. */
  type Path = seq<string>

  /** An element of the output: `Open` is an item named "++", `Close` one named "--". */
  datatype Event = Open(path: Path) | Close(path: Path) | Item(path: Path, name: string, inputs: seq<string>)

  /** A line of the file, split up: a section header, the header [default], or an entry whose name has
      the parents `dotted` of its own. */
  datatype Line = Header(path: Path) | Default | Entry(dotted: Path, name: string, inputs: seq<string>)

  predicate Proper(lines: seq<Line>) {
    forall i :: 0 <= i < |lines| ==> lines[i].Header? ==> lines[i].path != []
  }

  predicate EndsInClose(out: seq<Event>) { out != [] && out[|out| - 1].Close? }

  // ---------------------------------------------------------------------------------------------
  // What is emitted

  function Parent(p: Path): Path { if p == [] then [] else p[..|p| - 1] }

  /** The length of the longest common prefix. */
  function Common(a: Path, b: Path): (r: nat)
    ensures r <= |a| && r <= |b|
    ensures forall i :: 0 <= i < r ==> a[i] == b[i]
    ensures r < |a| && r < |b| ==> a[r] != b[r]
  {
    if a != [] && b != [] && a[0] == b[0] then 1 + Common(a[1..], b[1..]) else 0
  }

  lemma CommonIs(a: Path, b: Path, k: nat)
    requires k <= |a| && k <= |b| && (forall i :: 0 <= i < k ==> a[i] == b[i])
    requires k < |a| && k < |b| ==> a[k] != b[k]
    ensures Common(a, b) == k
  {
  }

  /** Closes `p` and its ancestors of more than `k` names, innermost first. */
  function Closes(p: Path, k: nat): seq<Event>
    requires k <= |p|
  {
    seq(|p| - k, i requires 0 <= i < |p| - k => Close(p[..|p| - i]))
  }

  /** Opens the ancestors of `p` of more than `k` names and `p`, outermost first. */
  function Opens(p: Path, k: nat): seq<Event>
    requires k <= |p|
  {
    seq(|p| - k, i requires 0 <= i < |p| - k => Open(p[..k + i + 1]))
  }

  lemma ClosesMore(p: Path, k: nat)
    requires k < |p|
    ensures Closes(p, k) == Closes(p, k + 1) + [Close(p[..k + 1])]
  {
  }

  lemma ClosesOne(p: Path)
    requires p != []
    ensures Closes(p, |p| - 1) == [Close(p)] && Closes(p, |p|) == []
  {
    assert p[..|p|] == p;
  }

  lemma OpensMore(p: Path, k: nat, n: nat)
    requires k <= n < |p|
    ensures Opens(p[..n + 1], k) == Opens(p[..n], k) + [Open(p[..n + 1])]
  {
    forall i | 0 <= i < n - k
      ensures Opens(p[..n + 1], k)[i] == Opens(p[..n], k)[i]
    {
      assert p[..n + 1][..k + i + 1] == p[..k + i + 1] == p[..n][..k + i + 1];
    }
    assert p[..n + 1][..n + 1] == p[..n + 1];
  }

  /** The output after the header of section `p`: when it ended with the closing of a section, the
      ancestors that the two sections share stay open. */
  function Entered(out: seq<Event>, p: Path): seq<Event>
    requires p != []
  {
    if EndsInClose(out) then
      var b := out[|out| - 1].path;
      var k := Common(b, Parent(p));
      out[..|out| - 1] + Closes(b, k) + Opens(p, k)
    else out + Opens(p, 0)
  }

  function Added(out: seq<Event>, path: Path, name: string, inputs: seq<string>): seq<Event> {
    var n := |out|;
    if n > 0 && out[n - 1].Item? && out[n - 1].path == path && out[n - 1].name == name then
      out[..n - 1] + [Item(path, name, out[n - 1].inputs + inputs)]
    else out + [Item(path, name, inputs)]
  }

  /** The reader between two lines. The section [] is "default". */
  datatype Reading = Reading(out: seq<Event>, section: Path)

  function Left(s: Reading): seq<Event> {
    if s.section != [] then s.out + [Close(s.section)] else s.out
  }

  predicate Kept(section: Path, line: Line, maxLayers: nat) {
    line.Entry? && |section + line.dotted| <= maxLayers
  }

  function ReadLine(s: Reading, line: Line, maxLayers: nat): Reading
    requires line.Header? ==> line.path != []
  {
    match line
    case Header(p) => Reading(Entered(Left(s), p), p)
    case Default => Reading(Left(s), [])
    case Entry(dotted, name, inputs) =>
      if Kept(s.section, line, maxLayers)
      then s.(out := Added(s.out, s.section + dotted, name, inputs))
      else s
  }

  function ReadAll(lines: seq<Line>, maxLayers: nat): Reading
    requires Proper(lines)
  {
    if lines == [] then Reading([], [])
    else ReadLine(ReadAll(lines[..|lines| - 1], maxLayers), lines[|lines| - 1], maxLayers)
  }

  function Finished(s: Reading): seq<Event> { s.out + Closes(s.section, 0) }

  /** The output for a whole file. */
  function Emitted(lines: seq<Line>, maxLayers: nat): seq<Event>
    requires Proper(lines)
  {
    Finished(ReadAll(lines, maxLayers))
  }

  /** ConfigBase::from_config with its vector `output`. */
  class ConfigReader {
    var output: seq<Event>
    var currentSection: Path
    const maximumLayers: nat

    constructor (maximumLayers: nat)
      ensures output == [] && currentSection == [] && this.maximumLayers == maximumLayers
    {
      output, currentSection := [], [];
      this.maximumLayers := maximumLayers;
    }

    function Reader(): Reading
      reads this
    {
      Reading(output, currentSection)
    }

    function Back(): Event
      reads this
      requires output != []
    {
      output[|output| - 1]
    }

    /** Appends a copy of the last item, without the last of its parents. */
    method PushParent()
      requires EndsInClose(output) && Back().path != []
      modifies this`output
      ensures output == old(output) + [Close(Parent(old(Back().path)))]
    {
      output := output + [Close(Parent(Back().path))];
    }

    /** The last item closes the first `n` names of `b`, and what follows `pre` closed all the longer ones. */
    ghost predicate ClosedDownTo(pre: seq<Event>, b: Path, n: nat)
      reads this
    {
      1 <= n <= |b| && output == pre + Closes(b, n - 1)
    }

    lemma BackIs(pre: seq<Event>, b: Path, n: nat)
      requires ClosedDownTo(pre, b, n)
      ensures EndsInClose(output) && Back() == Close(b[..n]) && Parent(b[..n]) == b[..n - 1]
      ensures output[..|output| - 1] == pre + Closes(b, n)
    {
      ClosesMore(b, n - 1);
    }

    /** Closes sections until the one that was closed last has fewer than `size` names. */
    method CloseWhileAtLeast(size: nat, ghost pre: seq<Event>, ghost b: Path, ghost n: nat) returns (ghost m: nat)
      requires size >= 2 && ClosedDownTo(pre, b, n)
      modifies this`output
      ensures m == (if n < size then n else size - 1) && ClosedDownTo(pre, b, m)
    {
      m := n;
      BackIs(pre, b, m);
      while |Back().path| >= size
        invariant 1 <= m <= n && ClosedDownTo(pre, b, m) && Back() == Close(b[..m])
        invariant EndsInClose(output) && (m < n ==> m >= size - 1)
        decreases |Back().path|
      {
        BackIs(pre, b, m);
        PushParent();
        m := m - 1;
        ClosesMore(b, m - 1);
        assert ClosedDownTo(pre, b, m);
        BackIs(pre, b, m);
      }
    }

    /** Opens the ancestors of `parents` of more than `common` names, outermost first. */
    method OpenAncestors(parents: Path, common: nat)
      requires common < |parents|
      modifies this`output
      ensures output == old(output) + Opens(Parent(parents), common)
    {
      var ii := common;
      while ii < |parents| - 1
        invariant common <= ii <= |parents| - 1
        invariant output == old(output) + Opens(parents[..ii], common)
      {
        output := output + [Open(parents[..ii + 1])];
        OpensMore(parents, common, ii);
        ii := ii + 1;
      }
    }

    method CommonLength(parents: Path, mpair: nat) returns (common: nat)
      requires output != [] && mpair <= |Back().path| && mpair <= |parents|
      ensures common <= mpair && forall i :: 0 <= i < common ==> Back().path[i] == parents[i]
      ensures common < mpair ==> Back().path[common] != parents[common]
    {
      common := 0;
      while common < mpair
        invariant common <= mpair && forall i :: 0 <= i < common ==> Back().path[i] == parents[i]
      {
        if Back().path[common] != parents[common] { break; }
        common := common + 1;
      }
    }

    /** checkParentSegments, called after the new section's name has become the current section. */
    method CheckParentSegments(parents: Path)
      requires parents != [] && (EndsInClose(output) ==> Back().path != [])
      modifies this`output
      ensures output == Entered(old(output), parents)
    {
      OpensMore(parents, 0, |parents| - 1);
      assert parents[..|parents|] == parents;
      if output != [] && Back().Close? {
        ReopenFrom(parents);
      } else if |parents| > 1 {
        OpenAncestors(parents, 0);
      }
      output := output + [Open(parents)];
    }

    method ReopenFrom(parents: Path)
      requires parents != [] && EndsInClose(output) && Back().path != []
      modifies this`output
      ensures output + [Open(parents)] == Entered(old(output), parents)
    {
      ghost var pre, b := output[..|output| - 1], Back().path;
      ClosesOne(b);
      var msize := if |parents| > 1 then |parents| else 2;
      ghost var n := CloseWhileAtLeast(msize, pre, b, |b|);
      if |parents| > 1 {
        ReopenShared(parents, pre, b, n);
      } else {
        assert Parent(parents) == [] && n == 1;
      }
      EnteredFrom(old(output), pre, b, parents);
    }

    /** Of the section closed last, which has fewer names than `parents`, reopens what is shared. */
    method ReopenShared(parents: Path, ghost pre: seq<Event>, ghost b: Path, ghost n: nat)
      requires |parents| > 1 && n == (if |b| < |parents| then |b| else |parents| - 1) && ClosedDownTo(pre, b, n)
      modifies this`output
      ensures var k := Common(b, Parent(parents)); output == pre + Closes(b, k) + Opens(Parent(parents), k)
    {
      BackIs(pre, b, n);
      var mpair := if |Back().path| < |parents| - 1 then |Back().path| else |parents| - 1;
      var common := CommonLength(parents, mpair);
      CommonIs(b, Parent(parents), common);
      CloseToShared(common, mpair, pre, b);
      OpenAncestors(parents, common);
    }

    /** Takes back the last close when its section is an ancestor of the new one, and else closes down to
        the `common` shared names. */
    method CloseToShared(common: nat, mpair: nat, ghost pre: seq<Event>, ghost b: Path)
      requires common <= mpair && ClosedDownTo(pre, b, mpair)
      modifies this`output
      ensures output == pre + Closes(b, common)
    {
      BackIs(pre, b, mpair);
      if common == mpair {
        output := output[..|output| - 1];
      } else {
        ghost var m := CloseWhileAtLeast(common + 2, pre, b, mpair);
      }
    }

    lemma EnteredFrom(out: seq<Event>, pre: seq<Event>, b: Path, p: Path)
      requires p != [] && out == pre + [Close(b)]
      ensures var k := Common(b, Parent(p));
              Entered(out, p) == pre + Closes(b, k) + Opens(Parent(p), k) + [Open(p)]
    {
      var k := Common(b, Parent(p));
      assert p[..|p|] == p && out[..|out| - 1] == pre;
      OpensMore(p, k, |p| - 1);
    }

    /** The end of the current section, when it is not the default one. */
    method CloseSection()
      modifies this`output
      ensures output == Left(old(Reader()))
    {
      if currentSection != [] { output := output + [Close(currentSection)]; }
    }

    method Read(line: Line)
      requires line.Header? ==> line.path != []
      requires EndsInClose(output) ==> Back().path != []
      modifies this
      ensures Reader() == ReadLine(old(Reader()), line, maximumLayers)
    {
      match line {
        case Header(path) =>
          CloseSection();
          currentSection := path;
          CheckParentSegments(path);
        case Default =>
          CloseSection();
          currentSection := [];
        case Entry(dotted, name, inputs) =>
          var parents := currentSection + dotted;
          if |parents| > maximumLayers { return; }
          if output != [] && Back().Item? && name == Back().name && parents == Back().path {
            output := output[..|output| - 1] + [Back().(inputs := Back().inputs + inputs)];
          } else {
            output := output + [Item(parents, name, inputs)];
          }
      }
    }

    method Finish()
      modifies this`output
      ensures output == Finished(old(Reader()))
    {
      if currentSection != [] {
        output := output + [Close(currentSection)];
        ClosesOne(currentSection);
        CloseParents(old(output), currentSection);
      }
    }

    method CloseParents(ghost pre: seq<Event>, ghost b: Path)
      requires ClosedDownTo(pre, b, |b|)
      modifies this`output
      ensures output == pre + Closes(b, 0)
    {
      ghost var n: nat := |b|;
      BackIs(pre, b, n);
      while |Back().path| > 1
        invariant ClosedDownTo(pre, b, n) && EndsInClose(output) && n == |Back().path| >= 1
      {
        BackIs(pre, b, n);
        PushParent();
        n := n - 1;
        ClosesMore(b, n - 1);
        assert ClosedDownTo(pre, b, n);
        BackIs(pre, b, n);
      }
    }
  }

  /** ConfigBase::from_config. */
  method FromConfig(lines: seq<Line>, maximumLayers: nat) returns (output: seq<Event>)
    requires Proper(lines)
    ensures output == Emitted(lines, maximumLayers)
  {
    var reader := new ConfigReader(maximumLayers);
    var i := 0;
    while i < |lines|
      invariant 0 <= i <= |lines| && fresh(reader) && reader.maximumLayers == maximumLayers
      invariant reader.Reader() == ReadAll(lines[..i], maximumLayers)
    {
      assert lines[..i + 1][..i] == lines[..i];
      NoEmptyClose(lines[..i], maximumLayers);
      reader.Read(lines[i]);
      i := i + 1;
    }
    assert lines[..i] == lines;
    reader.Finish();
    output := reader.output;
  }

  /** No item closes an empty path. */
  lemma {:induction false} NoEmptyClose(lines: seq<Line>, maxLayers: nat)
    requires Proper(lines)
    ensures var out := ReadAll(lines, maxLayers).out; EndsInClose(out) ==> out[|out| - 1].path != []
  {
    if lines != [] {
      NoEmptyClose(lines[..|lines| - 1], maxLayers);
      ReadLineCloses(ReadAll(lines[..|lines| - 1], maxLayers), lines[|lines| - 1], maxLayers);
    }
  }

  lemma LastOfOpens(out: seq<Event>, p: Path, k: nat)
    requires k < |p|
    ensures var all := out + Opens(p, k); all[|all| - 1] == Open(p)
  {
    assert p[..|p|] == p;
  }

  lemma EnteredOpens(out: seq<Event>, p: Path)
    requires p != []
    ensures !EndsInClose(Entered(out, p))
  {
    if EndsInClose(out) {
      var k := Common(out[|out| - 1].path, Parent(p));
      LastOfOpens(out[..|out| - 1] + Closes(out[|out| - 1].path, k), p, k);
    } else {
      LastOfOpens(out, p, 0);
    }
  }

  lemma ReadLineCloses(s: Reading, line: Line, maxLayers: nat)
    requires line.Header? ==> line.path != []
    ensures var out := ReadLine(s, line, maxLayers).out;
            EndsInClose(out) ==> out == Left(s) || out == s.out
  {
    if line.Header? { EnteredOpens(Left(s), line.path); }
  }
}
