/**
 * `parse_tree_text`: the lines of a tree drawing become an optional project
 * name and a nested directory structure. The file read is left to the caller;
 * the parser receives the lines as read.
 */
module TreeText {
  import opened Wrappers
  import opened PyText
  import opened TreeLine
  import opened Structure
  import opened Nesting
  import opened Seqs

  /** Indexing the first line of an input with no non-blank line raises `IndexError`. */
  datatype ParseError = NoLines

  /** `(project_name, root_dict)`. */
  datatype Parsed = Parsed(projectName: Option<string>, root: Node)

  /** `[line.rstrip() for line in f if line.strip() != '']`. */
  function KeptLines(raw: seq<string>): (kept: seq<string>)
    ensures |kept| <= |raw|
    ensures forall i :: 0 <= i < |kept| ==> kept[i] != [] && !IsSpace(kept[i][|kept[i]| - 1])
    ensures kept == [] <==> forall i :: 0 <= i < |raw| ==> IsBlank(raw[i])
    decreases |raw|
  {
    if raw == [] then []
    else
      var rest := KeptLines(raw[1..]);
      assert forall i :: 1 <= i < |raw| ==> raw[i] == raw[1..][i - 1];
      if IsBlank(raw[0]) then rest
      else
        [RStrip(raw[0])] + rest
  }

  /**
   * The root line: a first line ending in `/` names the project (its trailing
   * `/` run removed, then stripped) and is not an entry; otherwise there is no
   * project name and every line is a candidate entry.
   */
  function SplitRoot(lines: seq<string>): (r: (Option<string>, seq<string>))
    requires lines != []
    ensures r.0.Some? <==> EndsWith(lines[0], '/')
    ensures r.1 == if r.0.Some? then lines[1..] else lines
    ensures r.0.Some? ==> r.0.value == Strip(RStripChar(lines[0], '/'))
    ensures r.0.Some? && r.0.value != [] ==> !IsSpace(r.0.value[0]) && !IsSpace(r.0.value[|r.0.value| - 1])
  {
    if EndsWith(lines[0], '/') then (Some(Strip(RStripChar(lines[0], '/'))), lines[1..])
    else (None, lines)
  }

  /** The entries of the lines the pattern accepts, in order; the other lines contribute nothing. */
  function Entries(lines: seq<string>): (es: seq<Entry>)
    ensures |es| <= |lines|
    decreases |lines|
  {
    if lines == [] then []
    else
      var found := match ParseLine(lines[|lines| - 1]) case None => [] case Some(e) => [e];
      Entries(lines[..|lines| - 1]) + found
  }

  /** What `parse_tree_text` returns for the lines `raw`, or the error it raises. */
  function ParseSpec(raw: seq<string>): Result<Parsed, ParseError> {
    var lines := KeptLines(raw);
    if lines == [] then Failure(NoLines)
    else
      var head := SplitRoot(lines);
      Success(Parsed(head.0, Assemble(Entries(head.1))))
  }

  /**
   * `parse_tree_text` over lines already read: filter and strip the lines,
   * detect the root line, then place each matching line with the
   * `(level, dict)` stack.
   */
  method ParseTreeText(raw: seq<string>) returns (r: Result<Parsed, ParseError>)
    ensures r == ParseSpec(raw)
    ensures r.Failure? <==> forall i :: 0 <= i < |raw| ==> IsBlank(raw[i])
    ensures r.Success? ==> r.value.root.Dir? && WellFormed(r.value.root)
  {
    var lines := KeptLines(raw);
    if lines == [] {
      return Failure(NoLines);
    }
    var firstLine := lines[0];
    var projectName: Option<string>;
    if EndsWith(firstLine, '/') {
      projectName := Some(Strip(RStripChar(firstLine, '/')));
      lines := lines[1..];
    } else {
      projectName := None;
    }
    var root := Dir([]);
    var stack := [RootFrame];
    ghost var entries: seq<Entry> := [];
    for k := 0 to |lines|
      invariant entries == Entries(lines[..k])
      invariant root == Assemble(entries)
      invariant stack == StackAfter(entries)
    {
      EntriesStep(lines, k);
      var m := MatchLine(lines[k]);
      if m.Some? {
        var name := EntryName(m.value.text);
        var level := LevelOf(m.value.indent);
        var entry := if EndsWith(name, '/') then Dir([]) else File;
        ghost var e := Entry(name, level, EndsWith(name, '/'));
        assert ParseLine(lines[k]) == Some(e);
        stack, root := PlaceEntry(stack, root, name, level, entry, entries);
        entries := entries + [e];
      } else {
        assert ParseLine(lines[k]).None?;
      }
    }
    assert lines[..|lines|] == lines;
    AssembleWellFormed(entries);
    r := Success(Parsed(projectName, root));
  }

  lemma EntriesStep(lines: seq<string>, k: nat)
    requires k < |lines|
    ensures Entries(lines[..k + 1]) == Entries(lines[..k]) + match ParseLine(lines[k]) case None => [] case Some(e) => [e]
  {
    assert lines[..k + 1][..k] == lines[..k];
  }

  /** The entries of two runs of lines are the entries of each, in order. */
  lemma {:induction false} EntriesAppend(a: seq<string>, b: seq<string>)
    ensures Entries(a + b) == Entries(a) + Entries(b)
    decreases |b|
  {
    if b != [] {
      var b' := b[..|b| - 1];
      assert (a + b)[..|a + b| - 1] == a + b';
      EntriesAppend(a, b');
    } else {
      assert a + b == a;
    }
  }

  /** A line the pattern rejects leaves no trace: removing it changes nothing. */
  lemma UnmatchedLineIgnored(a: seq<string>, line: string, b: seq<string>)
    requires ParseLine(line).None?
    ensures Entries(a + [line] + b) == Entries(a + b)
  {
    assert [line][..0] == [];
    assert Entries([line]) == [];
    EntriesAppend(a + [line], b);
    EntriesAppend(a, [line]);
    assert Entries(a + [line]) == Entries(a);
    EntriesAppend(a, b);
  }

  /** The filter works line by line: the kept lines of two runs are the kept lines of each, in order. */
  lemma {:induction false} KeptLinesAppend(a: seq<string>, b: seq<string>)
    ensures KeptLines(a + b) == KeptLines(a) + KeptLines(b)
    decreases |a|
  {
    if a == [] {
      assert a + b == b;
    } else {
      assert (a + b)[1..] == a[1..] + b;
      KeptLinesAppend(a[1..], b);
    }
  }

  /** A blank line is dropped wherever it stands; a non-blank one is kept, right-stripped, in its place. */
  lemma OneLineKept(a: seq<string>, line: string, b: seq<string>)
    ensures KeptLines(a + [line] + b) == KeptLines(a) + (if IsBlank(line) then [] else [RStrip(line)]) + KeptLines(b)
  {
    KeptLinesAppend(a + [line], b);
    KeptLinesAppend(a, [line]);
    assert [line][1..] == [];
  }

  /** Lines that are non-empty and end in a non-space character pass the filter unchanged. */
  lemma {:induction false} TrimmedLinesKept(raw: seq<string>)
    requires forall i :: 0 <= i < |raw| ==> raw[i] != [] && !IsSpace(raw[i][|raw[i]| - 1])
    ensures KeptLines(raw) == raw
    decreases |raw|
  {
    if raw != [] {
      assert !IsBlank(raw[0]);
      assert RStrip(raw[0]) == raw[0];
      TrimmedLinesKept(raw[1..]);
      assert [raw[0]] + raw[1..] == raw;
    }
  }

  /** When every line is accepted, there is one entry per line, in order. */
  lemma {:induction false} EveryLineMatched(lines: seq<string>, es: seq<Entry>)
    requires |lines| == |es|
    requires forall i {:trigger ParseLine(lines[i])} :: 0 <= i < |lines| ==> ParseLine(lines[i]) == Some(es[i])
    ensures Entries(lines) == es
    decreases |lines|
  {
    if lines != [] {
      var n := |lines| - 1;
      var front := lines[..n];
      assert forall i :: 0 <= i < n ==> ParseLine(front[i]) == Some(es[..n][i]);
      EveryLineMatched(front, es[..n]);
      assert Entries(lines) == Entries(front) + [es[n]];
      LastSplit(es);
    }
  }
}
