/**
 * Drawings worked through the parser. Each concrete string is a parameter
 * pinned to its literal by `requires`, rather than a literal in the `ensures`:
 * the solver then unfolds the parser one line at a time instead of evaluating
 * every function on the literal at once, which keeps each proof small.
 */
module TreeTextExamples {
  import opened Wrappers
  import opened PyText
  import opened TreeLine
  import opened Structure
  import opened Nesting
  import opened TreeText
  import opened Seqs

  /** A line `indent + branch + text` whose text is a plain name yields that name at the indent's level. */
  lemma PlainLine(indent: string, branch: string, text: string)
    requires forall i :: 0 <= i < |indent| ==> IsIndentChar(indent[i])
    requires IsBranch(branch)
    requires text != [] && '\n' !in text && '#' !in text
    requires !IsSpace(text[0]) && !IsSpace(text[|text| - 1])
    ensures ParseLine(indent + branch + text) == Some(Entry(text, LevelOf(indent), EndsWith(text, '/')))
  {
    var l := indent + branch + text;
    var m := LineMatch(indent, branch, text);
    LineAccepted(indent, branch, text);
    assert MatchLine(l) == Some(m);
    StripOfTrimmed(text);
  }

  lemma LineAccepted(indent: string, branch: string, text: string)
    requires forall i :: 0 <= i < |indent| ==> IsIndentChar(indent[i])
    requires IsBranch(branch)
    requires text != [] && '\n' !in text
    ensures Accepts(indent + branch + text, LineMatch(indent, branch, text))
  {
    var l := indent + branch + text;
    assert l[..|indent|] == indent;
    assert l[|indent|..|indent| + 4] == branch;
    assert l[|indent| + 4..] == text;
  }

  /** `├── README.md` is a file at the top level. */
  lemma ReadmeLine(line: string, name: string)
    requires line == "├── README.md" && name == "README.md"
    ensures ParseLine(line) == Some(Entry(name, 1, false))
  {
    var indent := "";
    assert !IsSpace(name[0]) && !IsSpace(name[|name| - 1]) && '#' !in name && '\n' !in name && !EndsWith(name, '/');
    assert LevelOf(indent) == 1;
    assert indent + Tee + name == line;
    PlainLine(indent, Tee, name);
  }

  /** `├── src/` is a directory at the top level. */
  lemma SrcLine(line: string, name: string)
    requires line == "├── src/" && name == "src/"
    ensures ParseLine(line) == Some(Entry(name, 1, true))
  {
    var indent := "";
    assert !IsSpace(name[0]) && !IsSpace(name[|name| - 1]) && '#' !in name && '\n' !in name && EndsWith(name, '/');
    assert LevelOf(indent) == 1;
    assert indent + Tee + name == line;
    PlainLine(indent, Tee, name);
  }

  /** `│   └── main.py` is a file one level down. */
  lemma MainLine(line: string, name: string)
    requires line == "│   └── main.py" && name == "main.py"
    ensures ParseLine(line) == Some(Entry(name, 2, false))
  {
    var indent := "│   ";
    assert forall i :: 0 <= i < |indent| ==> IsIndentChar(indent[i]);
    assert !IsSpace(name[0]) && !IsSpace(name[|name| - 1]) && '#' !in name && '\n' !in name && !EndsWith(name, '/');
    assert BarsAsSpaces(indent) == "    ";
    assert LevelOf(indent) == 2;
    assert indent + Elbow + name == line;
    PlainLine(indent, Elbow, name);
  }

  /** A file and a directory at the top level, then a file inside the directory. */
  lemma FileThenDirWithFile(a: string, d: string, f: string)
    requires a != d
    ensures Assemble([Entry(a, 1, false), Entry(d, 1, true), Entry(f, 2, false)])
      == Dir([Child(a, File), Child(d, Dir([Child(f, File)]))])
  {
    var e1, e2, e3 := Entry(a, 1, false), Entry(d, 1, true), Entry(f, 2, false);
    FileThenDir(a, d);
    DirIsParent(a, d);
    FileIntoSecond(a, d, f);
    AssembleStep([e1, e2], e3);
    Triple(e1, e2, e3);
  }

  lemma FileThenDir(a: string, d: string)
    requires a != d
    ensures Assemble([Entry(a, 1, false), Entry(d, 1, true)]) == Dir([Child(a, File), Child(d, Dir([]))])
  {
    AfterFirst(Entry(a, 1, false), Entry(d, 1, true));
    PutSecond(Child(a, File), d, Dir([]));
  }

  /** After a file and a directory at the top level, an entry one level down goes into the directory. */
  lemma DirIsParent(a: string, d: string)
    ensures ParentPathAt([Entry(a, 1, false), Entry(d, 1, true)], 2) == [d]
  {
    var e1, e2 := Entry(a, 1, false), Entry(d, 1, true);
    FirstEntry(e1);
    ParentStep([e1], e2, 2);
    Pair(e1, e2);
  }

  /** The first entry lands at the top level, whatever its level. */
  lemma FirstEntry(e: Entry)
    ensures Assemble([e]) == Dir([Child(e.name, EntryNode(e))])
    ensures ParentPathAt([e], e.level) == []
  {
    Pair(e, e);
    AssembleStep([], e);
    ParentStep([], e, e.level);
    FirstChild(e.name, EntryNode(e));
  }

  /** A second entry no deeper than the first goes next to it. */
  lemma AfterFirst(e1: Entry, e2: Entry)
    ensures e2.level <= e1.level ==>
      Assemble([e1, e2]) == Dir(Put([Child(e1.name, EntryNode(e1))], e2.name, EntryNode(e2)))
  {
    FirstEntry(e1);
    ParentStep([], e1, e2.level);
    AssembleStep([e1], e2);
    Pair(e1, e2);
  }

  lemma PutSecond(c: Child, k: string, v: Node)
    ensures c.name != k ==> Put([c], k, v) == [c, Child(k, v)]
  {
    if c.name != k {
      PutAppends([c], k, v);
    }
  }

  lemma FileIntoSecond(a: string, d: string, f: string)
    requires a != d
    ensures Insert(Dir([Child(a, File), Child(d, Dir([]))]), [d], f, File)
      == Dir([Child(a, File), Child(d, Dir([Child(f, File)]))])
  {
    SecondDir(Child(a, File), d, Dir([Child(f, File)]));
    InsertOneDown([Child(a, File), Child(d, Dir([]))], d, Dir([]), f, File);
    PutIntoEmpty(f, File);
  }

  lemma SecondDir(c: Child, d: string, v: Node)
    ensures c.name != d ==> Get([c, Child(d, Dir([]))], d) == Some(Dir([]))
    ensures c.name != d ==> Put([c, Child(d, Dir([]))], d, v) == [c, Child(d, v)]
  {
    if c.name != d {
      PutReplaces([c, Child(d, Dir([]))], 1, d, v);
    }
  }

  lemma PutIntoEmpty(k: string, v: Node)
    ensures Insert(Dir([]), [], k, v) == Dir([Child(k, v)])
  {
    FirstChild(k, v);
  }

  lemma FirstChild(k: string, v: Node)
    ensures Put([], k, v) == [Child(k, v)]
  {
    PutAppends([], k, v);
    Pair(Child(k, v), Child(k, v));
  }

  /** Inserting one directory down rebinds that directory to its updated copy. */
  lemma InsertOneDown(cs: seq<Child>, d: string, c: Node, k: string, v: Node)
    ensures Get(cs, d) == Some(c) ==> Insert(Dir(cs), [d], k, v) == Dir(Put(cs, d, Insert(c, [], k, v)))
  {
    assert [d][1..] == [];
  }



  /**
   * The drawing
   *   app/
   *   ├── README.md
   *   ├── src/
   *   │   └── main.py
   * names the project `app` and holds a file and a directory with one file in it.
   */
  lemma AppDrawing(raw: seq<string>, root: string, l1: string, l2: string, l3: string,
                   project: string, readme: string, src: string, main: string)
    requires root == "app/" && l1 == "├── README.md" && l2 == "├── src/" && l3 == "│   └── main.py"
    requires project == "app" && readme == "README.md" && src == "src/" && main == "main.py"
    requires raw == [root, l1, l2, l3]
    ensures ParseSpec(raw)
      == Success(Parsed(Some(project), Dir([Child(readme, File), Child(src, Dir([Child(main, File)]))])))
  {
    AppHeader(raw, root, project);
    assert raw[1..] == [l1, l2, l3];
    AppEntries(l1, l2, l3, readme, src, main);
    FileThenDirWithFile(readme, src, main);
  }

  lemma AppEntries(l1: string, l2: string, l3: string, readme: string, src: string, main: string)
    requires l1 == "├── README.md" && l2 == "├── src/" && l3 == "│   └── main.py"
    requires readme == "README.md" && src == "src/" && main == "main.py"
    ensures Entries([l1, l2, l3]) == [Entry(readme, 1, false), Entry(src, 1, true), Entry(main, 2, false)]
  {
    ReadmeLine(l1, readme);
    SrcLine(l2, src);
    MainLine(l3, main);
    ThreeLines(l1, l2, l3, Entry(readme, 1, false), Entry(src, 1, true), Entry(main, 2, false));
  }

  lemma ThreeLines(l1: string, l2: string, l3: string, e1: Entry, e2: Entry, e3: Entry)
    requires ParseLine(l1) == Some(e1) && ParseLine(l2) == Some(e2) && ParseLine(l3) == Some(e3)
    ensures Entries([l1, l2, l3]) == [e1, e2, e3]
  {
    assert Entries([l1]) == [e1] by {
      OneMoreLine([], l1, e1);
      Pair(l1, l2);
      Pair(e1, e2);
    }
    assert Entries([l1, l2]) == [e1, e2] by {
      OneMoreLine([l1], l2, e2);
      Pair(l1, l2);
      Pair(e1, e2);
    }
    OneMoreLine([l1, l2], l3, e3);
    Triple(l1, l2, l3);
    Triple(e1, e2, e3);
  }

  lemma OneMoreLine(lines: seq<string>, l: string, e: Entry)
    requires ParseLine(l) == Some(e)
    ensures Entries(lines + [l]) == Entries(lines) + [e]
  {
    assert (lines + [l])[..|lines|] == lines;
  }

  /** The lines of the drawing pass the filter as they are, and `app/` is the root line. */
  lemma AppHeader(raw: seq<string>, root: string, project: string)
    requires root == "app/" && project == "app"
    requires |raw| == 4 && raw[0] == root
    requires forall i :: 1 <= i < 4 ==> raw[i] != [] && !IsSpace(raw[i][|raw[i]| - 1])
    ensures KeptLines(raw) == raw
    ensures SplitRoot(raw) == (Some(project), raw[1..])
  {
    assert !IsSpace('/');
    TrimmedLinesKept(raw);
    AppRoot(root, project);
  }

  lemma AppRoot(root: string, project: string)
    requires root == "app/" && project == "app"
    ensures Strip(RStripChar(root, '/')) == project
  {
    assert project + "/" == root && !EndsWith(project, '/');
    assert RStripChar(root, '/') == project;
    StripOfTrimmed(project);
  }

  /** `├── main.py  # entry point`: the comment and the spaces before it are dropped from the name. */
  lemma CommentedLine(line: string, text: string, name: string, pad: string, comment: string)
    requires line == "├── main.py  # entry point" && text == "main.py  # entry point"
    requires name == "main.py" && pad == "  " && comment == " entry point"
    ensures ParseLine(line) == Some(Entry(name, 1, false))
  {
    CommentedText(text, name, pad, comment);
    CommentedSplit(line, [], text);
    LineSplits([], Tee, text);
    assert LevelOf([]) == 1;
  }

  lemma CommentedText(text: string, name: string, pad: string, comment: string)
    requires text == "main.py  # entry point" && name == "main.py" && pad == "  " && comment == " entry point"
    ensures EntryName(text) == name && !EndsWith(name, '/')
  {
    assert text == name + pad + "#" + comment;
    assert !IsSpace(name[0]) && !IsSpace(name[|name| - 1]) && '#' !in name;
    assert IsBlank(pad);
    CommentedName(name, pad, comment);
  }

  lemma CommentedSplit(line: string, indent: string, text: string)
    requires line == "├── main.py  # entry point" && indent == "" && text == "main.py  # entry point"
    ensures line == indent + Tee + text && text != [] && '\n' !in text
  {
  }

  /** A line built from an indentation run, a branch glyph and a one-line text splits into exactly those parts. */
  lemma LineSplits(indent: string, branch: string, text: string)
    requires forall i :: 0 <= i < |indent| ==> IsIndentChar(indent[i])
    requires IsBranch(branch)
    requires text != [] && '\n' !in text
    ensures MatchLine(indent + branch + text) == Some(LineMatch(indent, branch, text))
  {
    LineAccepted(indent, branch, text);
  }

  /**
   * A directory drawn again under the same parent is bound to a fresh empty
   * directory: `a/` keeps its place but loses the file `f` drawn inside it
   * before.
   */
  lemma RedrawnDirectoryKeepsPlace(a: string, f: string)
    requires EndsWith(a, '/') && !EndsWith(f, '/')
    ensures Assemble([Entry(a, 1, true), Entry(f, 2, false), Entry(a, 1, true)]) == Dir([Child(a, Dir([]))])
  {
    var e1, e2, e3 := Entry(a, 1, true), Entry(f, 2, false), Entry(a, 1, true);
    DirThenChild(a, f);
    ChildIsSkipped(a, f);
    AssembleStep([e1, e2], e3);
    RebindOnly(a, Dir([Child(f, File)]), Dir([]));
    Triple(e1, e2, e3);
  }

  /** A directory at the top level, then a file one level down inside it. */
  lemma DirThenChild(a: string, f: string)
    ensures Assemble([Entry(a, 1, true), Entry(f, 2, false)]) == Dir([Child(a, Dir([Child(f, File)]))])
  {
    var e1, e2 := Entry(a, 1, true), Entry(f, 2, false);
    FirstEntry(e1);
    DirectoryIsParent([], e1, 2);
    Pair(e1, e2);
    AssembleStep([e1], e2);
    RebindOnly(a, Dir([]), Dir([Child(f, File)]));
    InsertOneDown([Child(a, Dir([]))], a, Dir([]), f, File);
    PutIntoEmpty(f, File);
  }

  /** The file one level down is popped before the next top-level entry, whose parent is the root. */
  lemma ChildIsSkipped(a: string, f: string)
    ensures ParentPathAt([Entry(a, 1, true), Entry(f, 2, false)], 1) == []
  {
    var e1, e2 := Entry(a, 1, true), Entry(f, 2, false);
    FirstEntry(e1);
    ParentStep([e1], e2, 1);
    Pair(e1, e2);
  }

  /** Rebinding the only child replaces its value. */
  lemma RebindOnly(k: string, u: Node, v: Node)
    ensures Get([Child(k, u)], k) == Some(u) && Put([Child(k, u)], k, v) == [Child(k, v)]
  {
    PutReplaces([Child(k, u)], 0, k, v);
  }

  /**
   * A first line ending in `/` is the root line even when it is drawn as an
   * entry: `├── x/` alone names the project `├── x` and leaves no entry lines.
   */
  lemma EntryDrawnFirstIsRoot(line: string, name: string)
    requires line == "├── x/" && name == "├── x"
    ensures SplitRoot([line]) == (Some(name), [])
  {
    assert name + "/" == line && !EndsWith(name, '/');
    assert RStripChar(line, '/') == name;
    StripOfTrimmed(name);
  }
}
