/** The entries of a file in the output of the section events: where each of them goes, and how entries of the
    same name are merged. */
module ConfigEntries {
  import opened Options
  import opened Sequences
  import opened ConfigSections
  import opened ConfigNesting

  // ---------------------------------------------------------------------------------------------
  // The section of a line

  lemma {:induction false} EntriesKeepSection(lines: seq<Line>, h: nat, i: nat)
    requires h <= i <= |lines| && forall j :: h <= j < i ==> lines[j].Entry?
    ensures SectionAt(lines[..i]) == SectionAt(lines[..h])
    decreases i
  {
    if h < i {
      EntriesKeepSection(lines, h, i - 1);
      assert lines[..i][..i - 1] == lines[..i - 1];
    }
  }

  /** A line belongs to the section of the last header before it, to none after [default] or when there is no
      header before it. */
  lemma SectionOfLine(lines: seq<Line>, h: nat, i: nat)
    requires h <= i <= |lines| && forall j :: h <= j < i ==> lines[j].Entry?
    ensures h == 0 ==> SectionAt(lines[..i]) == []
    ensures h > 0 && lines[h - 1].Header? ==> SectionAt(lines[..i]) == lines[h - 1].path
    ensures h > 0 && lines[h - 1].Default? ==> SectionAt(lines[..i]) == []
  {
    EntriesKeepSection(lines, h, i);
    if h > 0 { assert lines[..h][h - 1] == lines[h - 1]; }
  }

  // ---------------------------------------------------------------------------------------------
  // One entry

  /** The values of the entries before line `i` come first; then those of line `i`, if it is an entry of at
      most `maxLayers` names, and then the others. */
  lemma ValuesOfLine(lines: seq<Line>, i: nat, maxLayers: nat, section: Path, before: seq<Value>, all: seq<Value>)
    requires Proper(lines) && i < |lines| && section == SectionAt(lines[..i])
    requires before == FileValues(lines[..i], maxLayers) && all == Values(Emitted(lines, maxLayers))
    ensures lines[i].Entry? && |section + lines[i].dotted| <= maxLayers ==>
              && before <= all && |before| + |lines[i].inputs| <= |all|
              && forall k :: 0 <= k < |lines[i].inputs| ==>
                   all[|before| + k] == (section + lines[i].dotted, lines[i].name, lines[i].inputs[k])
    ensures !(lines[i].Entry? && |section + lines[i].dotted| <= maxLayers) ==>
              FileValues(lines[..i + 1], maxLayers) == before
  {
    if lines[i].Entry? && |section + lines[i].dotted| <= maxLayers {
      ValuesKept(lines, maxLayers);
      EntryAmong(lines, i, maxLayers, section + lines[i].dotted, before, all);
    } else {
      FileValuesAt(lines, i, maxLayers);
    }
  }

  lemma EntryAmong(lines: seq<Line>, i: nat, maxLayers: nat, path: Path, before: seq<Value>, all: seq<Value>)
    requires i < |lines| && lines[i].Entry? && path == SectionAt(lines[..i]) + lines[i].dotted && |path| <= maxLayers
    requires before == FileValues(lines[..i], maxLayers) && all == FileValues(lines, maxLayers)
    ensures before <= all && |before| + |lines[i].inputs| <= |all|
    ensures forall k :: 0 <= k < |lines[i].inputs| ==> all[|before| + k] == (path, lines[i].name, lines[i].inputs[k])
  {
    EntryInOrder(lines, i, maxLayers, path);
    EachFollows(before, path, lines[i].name, lines[i].inputs, all);
  }

  lemma EntryInOrder(lines: seq<Line>, i: nat, maxLayers: nat, path: Path)
    requires i < |lines| && lines[i].Entry? && path == SectionAt(lines[..i]) + lines[i].dotted && |path| <= maxLayers
    ensures FileValues(lines[..i], maxLayers) + Each(path, lines[i].name, lines[i].inputs)
         <= FileValues(lines, maxLayers)
  {
    FileValuesAt(lines, i, maxLayers);
    FileValuesGrow(lines, i + 1, |lines|, maxLayers);
    assert lines[..|lines|] == lines;
  }

  lemma EachFollows(before: seq<Value>, path: Path, name: string, inputs: seq<string>, all: seq<Value>)
    requires before + Each(path, name, inputs) <= all
    ensures before <= all && |before| + |inputs| <= |all|
    ensures forall k :: 0 <= k < |inputs| ==> all[|before| + k] == (path, name, inputs[k])
  {
    forall k | 0 <= k < |inputs| ensures all[|before| + k] == (path, name, inputs[k]) {
      assert (before + Each(path, name, inputs))[|before| + k] == Each(path, name, inputs)[k];
    }
  }

  lemma FileValuesAt(lines: seq<Line>, i: nat, maxLayers: nat)
    requires i < |lines|
    ensures var section := SectionAt(lines[..i]);
            FileValues(lines[..i + 1], maxLayers) == FileValues(lines[..i], maxLayers) +
              if lines[i].Entry? && |section + lines[i].dotted| <= maxLayers
              then Each(section + lines[i].dotted, lines[i].name, lines[i].inputs) else []
  {
    assert lines[..i + 1][..i] == lines[..i];
  }

  lemma {:induction false} FileValuesGrow(lines: seq<Line>, i: nat, n: nat, maxLayers: nat)
    requires i <= n <= |lines|
    ensures FileValues(lines[..i], maxLayers) <= FileValues(lines[..n], maxLayers)
    decreases n
  {
    if i < n {
      FileValuesGrow(lines, i, n - 1, maxLayers);
      FileValuesStep(lines, n - 1, maxLayers);
    }
  }

  lemma FileValuesStep(lines: seq<Line>, n: nat, maxLayers: nat)
    requires n < |lines|
    ensures FileValues(lines[..n], maxLayers) <= FileValues(lines[..n + 1], maxLayers)
  {
    FileValuesAt(lines, n, maxLayers);
  }

  /** An entry of at most `maxLayers` names is the last item right after it is read, under its section and
      its own parents, with its inputs at the end; all that was put out before stays, but for the last item
      when that has the same parents and name, to whose inputs these are added. */
  lemma EntryIsLast(lines: seq<Line>, dotted: Path, name: string, inputs: seq<string>, maxLayers: nat)
    requires Proper(lines) && |SectionAt(lines) + dotted| <= maxLayers
    ensures Proper(lines + [Entry(dotted, name, inputs)])
    ensures var before, out := ReadAll(lines, maxLayers).out,
                               ReadAll(lines + [Entry(dotted, name, inputs)], maxLayers).out;
            var path, n := SectionAt(lines) + dotted, |before|;
            if n > 0 && before[n - 1].Item? && before[n - 1].path == path && before[n - 1].name == name
            then out == before[..n - 1] + [Item(path, name, before[n - 1].inputs + inputs)]
            else out == before + [Item(path, name, inputs)]
  {
    EntryRead(lines, Entry(dotted, name, inputs), maxLayers);
    SectionIs(lines, maxLayers);
    AddedAfter(ReadAll(lines, maxLayers), dotted, name, inputs, maxLayers);
  }

  lemma EntryRead(lines: seq<Line>, line: Line, maxLayers: nat)
    requires Proper(lines) && line.Entry?
    ensures Proper(lines + [line])
    ensures ReadAll(lines + [line], maxLayers) == ReadLine(ReadAll(lines, maxLayers), line, maxLayers)
  {
    assert (lines + [line])[..|lines|] == lines;
  }

  lemma AddedAfter(s: Reading, dotted: Path, name: string, inputs: seq<string>, maxLayers: nat)
    requires |s.section + dotted| <= maxLayers
    ensures ReadLine(s, Entry(dotted, name, inputs), maxLayers).out == Added(s.out, s.section + dotted, name, inputs)
  {
  }

  /** A deeper entry leaves no trace. */
  lemma DeepEntrySkipped(lines: seq<Line>, dotted: Path, name: string, inputs: seq<string>, maxLayers: nat)
    requires Proper(lines) && |SectionAt(lines) + dotted| > maxLayers
    ensures Proper(lines + [Entry(dotted, name, inputs)])
    ensures ReadAll(lines + [Entry(dotted, name, inputs)], maxLayers) == ReadAll(lines, maxLayers)
  {
    EntryRead(lines, Entry(dotted, name, inputs), maxLayers);
    SectionIs(lines, maxLayers);
  }

  /** The entry of a named section is put out while exactly the prefixes of the section's path are open. */
  lemma EntryInSection(lines: seq<Line>, h: nat, dotted: Path, name: string, inputs: seq<string>, maxLayers: nat)
    requires Proper(lines) && h < |lines| && lines[h].Header? && |lines[h].path + dotted| <= maxLayers
    requires forall j :: h < j < |lines| ==> lines[j].Entry?
    requires forall i :: 0 <= i < h ==> !LeavesOpen(lines, i, maxLayers)
    ensures Proper(lines + [Entry(dotted, name, inputs)])
    ensures var out := ReadAll(lines + [Entry(dotted, name, inputs)], maxLayers).out;
            && out != [] && out[|out| - 1].Item?
            && out[|out| - 1].path == lines[h].path + dotted && out[|out| - 1].name == name
            && Nesting(out) == Some(Prefixes(lines[h].path))
  {
    SectionBehind(lines, h);
    EntryIsLast(lines, dotted, name, inputs, maxLayers);
    OpenBehind(lines, h, maxLayers);
    EntryAddsNothing(lines, Entry(dotted, name, inputs), maxLayers);
  }

  lemma SectionBehind(lines: seq<Line>, h: nat)
    requires h < |lines| && lines[h].Header? && forall j :: h < j < |lines| ==> lines[j].Entry?
    ensures SectionAt(lines) == lines[h].path
  {
    SectionOfLine(lines, h + 1, |lines|);
    assert lines[..|lines|] == lines;
  }

  lemma OpenBehind(lines: seq<Line>, h: nat, maxLayers: nat)
    requires Proper(lines) && h < |lines| && lines[h].Header? && forall j :: h < j < |lines| ==> lines[j].Entry?
    requires forall i :: 0 <= i < h ==> !LeavesOpen(lines, i, maxLayers)
    ensures Nesting(ReadAll(lines, maxLayers).out) == Some(Prefixes(lines[h].path))
  {
    HeaderOpens(lines, h, maxLayers);
    StillOpen(lines, h + 1, |lines|, maxLayers);
    assert lines[..|lines|] == lines;
  }

  lemma EntryAddsNothing(lines: seq<Line>, line: Line, maxLayers: nat)
    requires Proper(lines) && line.Entry? && Proper(lines + [line])
    ensures Nesting(ReadAll(lines + [line], maxLayers).out) == Nesting(ReadAll(lines, maxLayers).out)
  {
    EntryRead(lines, line, maxLayers);
    EntryKeepsOpen(ReadAll(lines, maxLayers), line, maxLayers);
  }

  /** Entries neither open nor close a section. */
  lemma {:induction false} StillOpen(lines: seq<Line>, h: nat, n: nat, maxLayers: nat)
    requires Proper(lines) && h <= n <= |lines| && forall j :: h <= j < n ==> lines[j].Entry?
    ensures Nesting(ReadAll(lines[..n], maxLayers).out) == Nesting(ReadAll(lines[..h], maxLayers).out)
    decreases n
  {
    if h < n {
      StillOpen(lines, h, n - 1, maxLayers);
      OneMoreLine(lines, n - 1);
      EntryAddsNothing(lines[..n - 1], lines[n - 1], maxLayers);
    }
  }

  lemma OneMoreLine(lines: seq<Line>, n: nat)
    requires n < |lines|
    ensures lines[..n + 1] == lines[..n] + [lines[n]]
  {
  }

  lemma HeaderOpens(lines: seq<Line>, h: nat, maxLayers: nat)
    requires Proper(lines) && h < |lines| && lines[h].Header?
    requires forall i :: 0 <= i < h ==> !LeavesOpen(lines, i, maxLayers)
    ensures Nesting(ReadAll(lines[..h + 1], maxLayers).out) == Some(Prefixes(lines[h].path))
  {
    assert lines[..h + 1] == lines[..h] + [Header(lines[h].path)];
    forall i | 0 <= i < h ensures !LeavesOpen(lines[..h], i, maxLayers) {
      assert lines[..h][..i] == lines[..i] && !LeavesOpen(lines, i, maxLayers);
    }
    OpenAfterHeader(lines[..h], lines[h].path, maxLayers);
  }

  lemma EntryKeepsOpen(s: Reading, line: Line, maxLayers: nat)
    requires line.Entry?
    ensures Nesting(ReadLine(s, line, maxLayers).out) == Nesting(s.out)
  {
    AddedNests(s.out, s.section + line.dotted, line.name, line.inputs);
  }

  // ---------------------------------------------------------------------------------------------
  // Merging

  /** No two neighbouring items have the same parents and the same name. */
  predicate Apart(out: seq<Event>) {
    forall i :: 0 < i < |out| && out[i].Item? && out[i - 1].Item? ==>
      out[i].path != out[i - 1].path || out[i].name != out[i - 1].name
  }

  lemma ApartMore(out: seq<Event>, more: seq<Event>)
    requires Apart(out) && forall i :: 0 <= i < |more| ==> !more[i].Item?
    ensures Apart(out + more)
  {
    assert forall i :: 0 <= i < |out| ==> (out + more)[i] == out[i];
  }

  lemma ApartFront(out: seq<Event>)
    requires Apart(out) && out != []
    ensures Apart(out[..|out| - 1])
  {
  }

  lemma ApartAdded(out: seq<Event>, path: Path, name: string, inputs: seq<string>)
    requires Apart(out)
    ensures Apart(Added(out, path, name, inputs))
  {
  }

  lemma ApartEntered(out: seq<Event>, p: Path)
    requires Apart(out) && p != []
    ensures Apart(Entered(out, p))
  {
    if EndsInClose(out) {
      var b := out[|out| - 1].path;
      var k := Common(b, Parent(p));
      ApartFront(out);
      ApartMore(out[..|out| - 1], Closes(b, k));
      ApartMore(out[..|out| - 1] + Closes(b, k), Opens(p, k));
    } else {
      ApartMore(out, Opens(p, 0));
    }
  }

  lemma {:induction false} ApartRead(lines: seq<Line>, maxLayers: nat)
    requires Proper(lines)
    ensures Apart(ReadAll(lines, maxLayers).out)
  {
    if lines != [] {
      var s, line := ReadAll(lines[..|lines| - 1], maxLayers), lines[|lines| - 1];
      ApartRead(lines[..|lines| - 1], maxLayers);
      ApartMore(s.out, [Close(s.section)]);
      match line
      case Header(p) => ApartEntered(Left(s), p);
      case Default =>
      case Entry(dotted, name, inputs) => ApartAdded(s.out, s.section + dotted, name, inputs);
    }
  }

  /** Entries of the same parents and name that follow each other are put out as one item. */
  lemma MergedOnce(lines: seq<Line>, maxLayers: nat, i: nat)
    requires Proper(lines)
    ensures var out := Emitted(lines, maxLayers);
            0 < i < |out| && out[i].Item? && out[i - 1].Item? ==>
              out[i].path != out[i - 1].path || out[i].name != out[i - 1].name
  {
    ApartRead(lines, maxLayers);
    var s := ReadAll(lines, maxLayers);
    ApartMore(s.out, Closes(s.section, 0));
  }
}
