/**
 * One line of a tree drawing: the fixed pattern `^([\s│]*)(├── |└── )(.+)$`
 * written as a string decomposition, and the entry (name, depth, directory or
 * file) that a matching line describes.
 */
module TreeLine {
  import opened Wrappers
  import opened PyText

  /** The vertical continuation glyph `│`. */
  const Bar: char := '\U{2502}'
  /** The branch glyph `├── ` (tee, two horizontal rules, a space). */
  const Tee: string := "\U{251C}\U{2500}\U{2500} "
  /** The branch glyph `└── ` (elbow, two horizontal rules, a space). */
  const Elbow: string := "\U{2514}\U{2500}\U{2500} "

  /** Characters allowed in the indentation group `[\s│]`. */
  predicate IsIndentChar(c: char) {
    IsSpace(c) || c == Bar
  }

  predicate IsBranch(s: string) {
    s == Tee || s == Elbow
  }

  /** The three groups of a successful match: indentation, branch glyph, text after the glyph. */
  datatype LineMatch = LineMatch(indent: string, branch: string, text: string)

  /**
   * `(.+)$` applied to what follows the branch glyph: one or more characters
   * other than a newline, where `$` also accepts a single newline that ends the line.
   */
  function TailGroup(t: string): (r: Option<string>)
    ensures r.Some? ==> |r.value| > 0 && '\n' !in r.value
    ensures r.Some? ==> t == r.value || t == r.value + "\n"
    ensures (|t| > 0 && '\n' !in t) ==> r == Some(t)
    ensures (|t| > 1 && EndsWith(t, '\n') && '\n' !in t[..|t| - 1]) ==> r == Some(t[..|t| - 1])
  {
    var u := if EndsWith(t, '\n') then t[..|t| - 1] else t;
    if |u| > 0 && '\n' !in u then Some(u) else None
  }

  /**
   * The regular expression accepts `line` with these three groups: the
   * indentation is a run of `[\s│]`, the branch glyph follows it, and the
   * rest of the line is accepted by `(.+)$`.
   */
  ghost predicate Accepts(line: string, m: LineMatch) {
    |m.indent| + 4 <= |line| &&
    (forall i :: 0 <= i < |m.indent| ==> IsIndentChar(m.indent[i])) &&
    IsBranch(m.branch) &&
    line[..|m.indent|] == m.indent &&
    line[|m.indent|..|m.indent| + 4] == m.branch &&
    TailGroup(line[|m.indent| + 4..]) == Some(m.text)
  }

  /** The length of the longest run of indentation characters that starts `s`. */
  function IndentRun(s: string): (n: nat)
    ensures n <= |s|
    ensures forall i :: 0 <= i < n ==> IsIndentChar(s[i])
    ensures n < |s| ==> !IsIndentChar(s[n])
  {
    if s != [] && IsIndentChar(s[0]) then 1 + IndentRun(s[1..]) else 0
  }

  /**
   * `pattern.match(line)`. The indentation group is greedy, but neither
   * branch glyph starts with an indentation character, so the group is
   * forced to be the whole leading run and the line splits in one way only:
   * the result is that split when the pattern accepts the line, and `None`
   * when no split of the line is accepted.
   */
  function MatchLine(line: string): (r: Option<LineMatch>)
    ensures r.Some? ==> Accepts(line, r.value)
    ensures forall m :: Accepts(line, m) ==> r == Some(m)
  {
    OnlyRunSplit(line);
    RunSplitAccepted(line);
    RunSplit(line)
  }

  /** The split at the end of the leading run of indentation characters, when a branch glyph and a one-line text follow the run. */
  function RunSplit(line: string): Option<LineMatch>
  {
    var n := IndentRun(line);
    if n + 4 <= |line| && IsBranch(line[n..n + 4]) && TailGroup(line[n + 4..]).Some? then
      Some(LineMatch(line[..n], line[n..n + 4], TailGroup(line[n + 4..]).value))
    else
      None
  }

  /** Every accepted split is the one at the end of the leading run of indentation characters. */
  lemma OnlyRunSplit(line: string)
    ensures forall m :: Accepts(line, m) ==> RunSplit(line) == Some(m)
  {
    forall m | Accepts(line, m) ensures RunSplit(line) == Some(m) {
      AcceptedSplit(line, m);
    }
  }

  /** The split at the end of the leading run is accepted whenever it exists. */
  lemma RunSplitAccepted(line: string)
    ensures RunSplit(line).Some? ==> Accepts(line, RunSplit(line).value)
  {
    var n := IndentRun(line);
    if n + 4 <= |line| && IsBranch(line[n..n + 4]) && TailGroup(line[n + 4..]).Some? {
      SplitAccepted(line, n, line[..n], line[n..n + 4], TailGroup(line[n + 4..]).value);
    }
  }

  lemma SplitAccepted(line: string, n: nat, indent: string, branch: string, text: string)
    requires n + 4 <= |line| && indent == line[..n] && branch == line[n..n + 4]
    requires forall i :: 0 <= i < n ==> IsIndentChar(line[i])
    requires IsBranch(branch) && TailGroup(line[n + 4..]) == Some(text)
    ensures Accepts(line, LineMatch(indent, branch, text))
  {
    forall i | 0 <= i < n ensures IsIndentChar(indent[i]) {
      assert indent[i] == line[i];
    }
  }

  /** Depth of an entry in the drawing; the unindented entries are at depth 1, the root directory at 0. */
  type Level = n: nat | 1 <= n witness 1

  /** One entry of the drawing: its stored name, its depth and whether it is a directory. */
  datatype Entry = Entry(name: string, level: Level, isDir: bool)

  /**
   * `name_with_comment.split("#")[0].strip()`: the text before the first `#`,
   * without surrounding whitespace. It may be empty (a line holding only a comment).
   */
  function EntryName(text: string): (name: string)
    ensures '#' !in name
    ensures name != [] ==> !IsSpace(name[0]) && !IsSpace(name[|name| - 1])
    ensures name == [] <==> IsBlank(BeforeHash(text))
    ensures '#' !in text ==> name == Strip(text)
  {
    var beforeHash := BeforeHash(text);
    StripKeepsAbsentChar(beforeHash, '#');
    assert '#' !in text ==> beforeHash == text;
    Strip(beforeHash)
  }

  /** An inline comment after a name, and the whitespace before it, are not part of the name. */
  lemma CommentedName(text: string, pad: string, comment: string)
    requires text != [] && '#' !in text && !IsSpace(text[0]) && !IsSpace(text[|text| - 1])
    requires IsBlank(pad)
    ensures EntryName(text + pad + "#" + comment) == text
  {
    var kept := text + pad;
    assert '#' !in kept by {
      forall i | 0 <= i < |pad| ensures pad[i] != '#' {
        assert IsSpace(pad[i]);
      }
    }
    BeforeFirstHash(kept, comment);
    assert [] + text + pad == kept;
    StripIgnoresPadding([], text, pad);
  }

  /** `indent.replace("│", " ")`: every continuation glyph becomes one space. */
  function BarsAsSpaces(indent: string): (r: string)
    ensures |r| == |indent|
    ensures forall i :: 0 <= i < |r| ==> r[i] == (if indent[i] == Bar then ' ' else indent[i])
  {
    seq(|indent|, i requires 0 <= i < |indent| => if indent[i] == Bar then ' ' else indent[i])
  }

  /**
   * `len(indent.replace("│", " ")) // 4 + 1`: four indentation characters per
   * level, a partial group rounded down, so the depth is the number of whole
   * four-character groups plus one.
   */
  function LevelOf(indent: string): (level: Level)
    ensures (level - 1) * 4 <= |indent| < level * 4
  {
    |BarsAsSpaces(indent)| / 4 + 1
  }

  /** The entry a matching line describes; it is a directory exactly when its name ends with `/`. */
  function ToEntry(m: LineMatch): (e: Entry)
    ensures e.name == EntryName(m.text) && e.level == LevelOf(m.indent)
    ensures e.isDir <==> EndsWith(e.name, '/')
  {
    var name := EntryName(m.text);
    Entry(name, LevelOf(m.indent), EndsWith(name, '/'))
  }

  /** The entry on `line`, or `None` for a line the pattern does not accept. */
  function ParseLine(line: string): Option<Entry> {
    match MatchLine(line)
    case None => None
    case Some(m) => Some(ToEntry(m))
  }

  /** A line yields an entry exactly when the pattern accepts it, and the entry is read from the accepted split. */
  lemma ParseLineFollowsPattern(line: string)
    ensures ParseLine(line).None? <==> forall m :: !Accepts(line, m)
    ensures ParseLine(line).Some? ==> exists m :: Accepts(line, m) && ParseLine(line).value == ToEntry(m)
  {
    if MatchLine(line).Some? {
      assert Accepts(line, MatchLine(line).value);
    }
  }

  /** A branch glyph never starts with an indentation character. */
  lemma BranchStartsOutsideIndent(b: string)
    requires IsBranch(b)
    ensures |b| == 4 && !IsIndentChar(b[0])
  {
    assert b[0] == '\U{251C}' || b[0] == '\U{2514}';
  }

  /** An accepted split is the one that takes the whole leading run of indentation characters. */
  lemma AcceptedSplit(line: string, m: LineMatch)
    requires Accepts(line, m)
    ensures RunSplit(line) == Some(m)
  {
    AcceptedIndentIsRun(line, m);
    AcceptedParts(line, m, |m.indent|);
  }

  lemma AcceptedParts(line: string, m: LineMatch, n: nat)
    requires n == |m.indent| && Accepts(line, m)
    ensures n + 4 <= |line| && IsBranch(line[n..n + 4]) && TailGroup(line[n + 4..]).Some?
    ensures m == LineMatch(line[..n], line[n..n + 4], TailGroup(line[n + 4..]).value)
  {
  }

  lemma AcceptedIndentIsRun(line: string, m: LineMatch)
    requires Accepts(line, m)
    ensures |m.indent| == IndentRun(line)
  {
    var k := |m.indent|;
    BranchStartsOutsideIndent(m.branch);
    assert line[k] == m.branch[0];
    forall i | 0 <= i < k ensures IsIndentChar(line[i]) {
      assert line[i] == line[..k][i];
    }
    RunEndsAt(line, k);
  }

  /** A run of indentation characters followed by another character is the leading run. */
  lemma {:induction false} RunEndsAt(s: string, k: nat)
    requires k < |s| && !IsIndentChar(s[k])
    requires forall i :: 0 <= i < k ==> IsIndentChar(s[i])
    ensures IndentRun(s) == k
    decreases k
  {
    if k > 0 {
      assert IsIndentChar(s[0]);
      var rest := s[1..];
      assert forall i :: 0 <= i < k - 1 ==> rest[i] == s[i + 1];
      RunEndsAt(rest, k - 1);
    }
  }
}
