# Tree-drawing parser of the project structure generator

This project models `parse_tree_text`, the function of the project structure
generator that reads a plain-text drawing of a directory tree such as

```
app/
├── README.md
├── src/
│   └── main.py   # entry point
```

and returns an optional project name together with a nested mapping in which
every key is an entry name and every value is either a nested mapping (a
directory) or nothing (a file).

The model takes the lines as they were read and works through them in the
parser's own stages:

- `PyText` (`text.dfy`): Python's whitespace, `str.strip`, `str.rstrip`,
  `rstrip("/")` and the `split("#")[0]` cut, stated over `seq<char>`.
- `TreeLine` (`tree_line.dfy`): the line pattern `^([\s│]*)(├── |└── )(.+)$`.
  It is written as a decomposition of the line (`Accepts`), and `MatchLine` is
  proved to return the only accepted split. The line's name comes from
  `EntryName`, its depth from `LevelOf`, and `ToEntry` decides whether it is a
  file or a directory.
- `Structure` (`structure.dfy`): the result as a tree value. A directory is an
  ordered list of named children. `Put` gives Python dict assignment: a new
  name is appended, and an existing name keeps its position and gets the new
  value. `Insert` performs that assignment on the directory at a path.
- `Nesting` (`nesting.dfy`): the `(level, dict)` stack. Each stack item names
  its dict by its path from the root. The popping loop is the method `PopTo`,
  and one loop turn is the method `PlaceEntry`. They are proved against two
  descriptions:
  - the stack the entries leave behind (`StackAfter`);
  - a declarative rule for an entry's parent (`ParentPathAt`): the nearest
    earlier entry that is shallower is the parent if it is a directory; if it
    is a file, the parent is that file's own parent.

  The tree that rule builds is `Assemble`.
- `TreeText` (`parser.dfy`): the method `ParseTreeText`, a loop over the lines
  with its invariants, is proved equal to the function `ParseSpec`. The line
  filter, the root-line rule and the entry list are proved separately.
- `TreeTextExamples` (`examples.dfy`): concrete drawings worked through the
  model.

## Model

| member | source | states |
|---|---|---|
| TreeText.ParseTreeText | project_structure_generator.py:202-260 | The loop over the lines, with its stack and tree, returns exactly `ParseSpec(raw)`. It fails exactly when every line is blank. On success the result is a directory in which no directory binds a name twice. |
| TreeText.KeptLines | project_structure_generator.py:224 | The kept lines are never more than the raw lines. Each kept line is non-empty and ends in a non-space character. Nothing is kept exactly when every raw line is blank. |
| TreeText.KeptLinesAppend | project_structure_generator.py:224 | The filter works line by line: the kept lines of two runs are the kept lines of each, in order. |
| TreeText.OneLineKept | project_structure_generator.py:224 | A blank line is dropped wherever it stands. A non-blank line is kept in its place with trailing whitespace removed. |
| TreeText.TrimmedLinesKept | project_structure_generator.py:224 | Lines that are non-empty and end in a non-space character pass the filter unchanged. |
| TreeText.SplitRoot | project_structure_generator.py:230-235 | A project name exists exactly when the first kept line ends in `/`. That line is then removed from the entry lines; otherwise every line stays. The name is the line with its trailing `/` run removed, then stripped, so it has no whitespace at either end. A first line drawn as an entry, such as `├── x/`, is taken as the root line too. |
| TreeText.EntriesStep | project_structure_generator.py:240-243 | One more line adds its entry when the pattern accepts it, and nothing otherwise. |
| TreeText.EntriesAppend | project_structure_generator.py:240-243 | The entries of two runs of lines are the entries of each, in order. |
| TreeText.UnmatchedLineIgnored | project_structure_generator.py:241-243 | Removing a line the pattern rejects, anywhere among the entry lines that follow the root line, does not change the entries. Tree and stack are functions of the entries, so they do not change either. |
| TreeText.EveryLineMatched | project_structure_generator.py:240-250 | When every line is accepted, there is exactly one entry per line, in line order. |
| TreeLine.TailGroup | project_structure_generator.py:221 | `(.+)$` takes one or more characters without a newline. They are the whole rest of the line, or the rest without one final newline. A non-empty rest without a newline is taken whole, and a rest whose only newline is its last character is taken without it. |
| TreeLine.IndentRun | project_structure_generator.py:221 | The length of the longest leading run of `[\s│]` characters: every character inside it is one, and the next character is not. |
| TreeLine.MatchLine | project_structure_generator.py:221 | When a split is returned, the pattern accepts it. Every split the pattern accepts is the returned one, so a rejected line gets `None` and an accepted line has exactly one split. |
| TreeLine.OnlyRunSplit | project_structure_generator.py:221 | Every accepted split puts the branch glyph right after the whole leading run of indentation characters. |
| TreeLine.RunSplitAccepted | project_structure_generator.py:221 | The split at the end of the leading run, when a branch glyph and a one-line text follow the run, is accepted. |
| TreeLine.AcceptedSplit | project_structure_generator.py:221 | An accepted split is the one taken at the end of the leading indentation run. |
| TreeLine.AcceptedIndentIsRun | project_structure_generator.py:221 | The indentation group of an accepted split is the whole leading run. A greedy match cannot end elsewhere, because no branch glyph starts with an indentation character. |
| TreeLine.BranchStartsOutsideIndent | project_structure_generator.py:221 | Both branch glyphs are four characters long and start with a character that cannot appear in the indentation. |
| TreeLine.ParseLineFollowsPattern | project_structure_generator.py:241-250 | A line yields no entry exactly when no split is accepted. Otherwise the entry is read from an accepted split. |
| TreeLine.EntryName | project_structure_generator.py:246 | The name never contains `#` and has no whitespace at either end. It is empty exactly when the text before the first `#` is blank. Without a `#` it is the stripped text. |
| TreeLine.CommentedName | project_structure_generator.py:246 | A trimmed name followed by whitespace and a `#` comment yields exactly that name. |
| TreeLine.BarsAsSpaces | project_structure_generator.py:248 | Replacing `│` with a space keeps the length and changes no other character. |
| TreeLine.LevelOf | project_structure_generator.py:248 | The level is at least 1, and `(level - 1) * 4 <= length of indent < level * 4`, so an unindented entry has level 1. |
| TreeLine.ToEntry | project_structure_generator.py:244-250 | The entry's name is `EntryName` of the text and its level is `LevelOf` of the indentation. It is a directory exactly when its name ends in `/`. |
| PyText.TrimEnd | project_structure_generator.py:224 | The cut point leaves only whitespace after it and a non-space character (or nothing) just before it. |
| PyText.TrimStart | project_structure_generator.py:246 | The start point skips only whitespace and stops at a non-space character or at the end. |
| PyText.RStrip | project_structure_generator.py:224 | `rstrip()` returns a prefix that ends in a non-space character or is empty, and only whitespace is removed. |
| PyText.Strip | project_structure_generator.py:246 | `strip()` is empty exactly when the input is blank, and otherwise starts and ends with a non-space character. |
| PyText.StripTrimsOnlyWhitespace | project_structure_generator.py:246 | `strip()` returns a contiguous slice of its input with only blank text on either side. |
| PyText.StripKeepsAbsentChar | project_structure_generator.py:246 | Stripping does not introduce a character that was absent from the input. |
| PyText.StripOfTrimmed | project_structure_generator.py:232 | Stripping text that has no whitespace at either end changes nothing. |
| PyText.StripIgnoresPadding | project_structure_generator.py:246 | Blank padding on both sides of a trimmed text is removed and nothing else is. |
| PyText.RStripChar | project_structure_generator.py:232 | `rstrip("/")` returns a prefix that does not end in `/`, and only `/` characters are removed. |
| PyText.BeforeHash | project_structure_generator.py:246 | `split("#")[0]` is a prefix without `#`, ending where the first `#` stands. |
| PyText.BeforeFirstHash | project_structure_generator.py:246 | When a text without `#` is followed by `#`, the cut returns exactly that text. |
| Structure.IndexOf | project_structure_generator.py:256 | The position of the first child bound to the name. |
| Structure.Get | project_structure_generator.py:255-256 | A lookup finds nothing exactly when the name is not bound, and otherwise returns a child actually bound to that name. |
| Structure.Put | project_structure_generator.py:256 | `d[k] = v`: the name list is unchanged when `k` was bound and gains `k` at the end otherwise. `k` now maps to `v`, and every other child keeps its place and value. Distinct names stay distinct. |
| Structure.InsertAlongPath | project_structure_generator.py:255-256 | Assigning in the directory at a path changes each directory on the way only by that assignment. |
| Structure.InsertUpdatesTarget | project_structure_generator.py:255-256 | After assigning in the directory at a path, that directory is its old children with the `Put` applied, and the new entry is found at the path extended by its name. |
| Structure.LookupAppend | project_structure_generator.py:255-256 | Following one more name from a directory is a lookup among its children. |
| Structure.InsertPreservesWellFormed | project_structure_generator.py:256 | Assignment keeps names distinct in every directory of the tree. |
| Structure.PutPreservesWellFormed | project_structure_generator.py:256 | Binding a well-formed value keeps a well-formed directory well-formed. |
| Nesting.EntryNode | project_structure_generator.py:250 | The new node is a directory exactly for a directory entry, and a new directory is empty. |
| Nesting.Pop | project_structure_generator.py:252-253 | The popped stack is a prefix of the stack, its top is shallower than the level, and an item shallower than the level at the bottom is never removed. |
| Nesting.PopTo | project_structure_generator.py:252-253 | The `while` loop over the stack computes `Pop`. |
| Nesting.PopRemovesOnlyDeep | project_structure_generator.py:252-253 | Every removed item is at the level or deeper, so the result is the longest prefix with a shallower top. |
| Nesting.PopTwice | project_structure_generator.py:252-253 | Popping to a level and then to a shallower one is the same as popping to the shallower one. |
| Nesting.StackAfter | project_structure_generator.py:238 | The stack is never empty, and its bottom item is always the root `(0, root_dict)`. |
| Nesting.StackTopIsParent | project_structure_generator.py:252-255 | After popping to an entry's level, the top of the stack is the directory the declarative rule names as its parent. |
| Nesting.StackIsChain | project_structure_generator.py:252-259 | Stack levels strictly increase from bottom to top, and each item's path extends the one below it by one name. |
| Nesting.ChainPush | project_structure_generator.py:258-259 | Pushing a directory deeper than the top keeps the stack a chain. |
| Nesting.StackResolves | project_structure_generator.py:252-259 | Every directory on the stack exists in the tree built so far. So a dict held by the stack is always the one found in the result, and an assignment through the stack is an assignment at that path. |
| Nesting.ResolvesAfterInsert | project_structure_generator.py:255-256 | Assigning in the top directory keeps every remaining stack item resolvable. |
| Nesting.EntryInsertedIntoParent | project_structure_generator.py:254-256 | The parent directory exists when the entry comes. It gains exactly the binding of the entry's name, with dict semantics. The entry's node is then found at the parent's path extended by its name. |
| Nesting.AssembleWellFormed | project_structure_generator.py:237-260 | The result is a directory, and no directory in it binds a name twice. |
| Nesting.DeeperEntriesAreSkipped | project_structure_generator.py:252-253 | Entries at a level or deeper never hold the parent of a later entry at that level. |
| Nesting.UnindentedEntryIsTopLevel | project_structure_generator.py:248-256 | An entry at level 1 is bound directly in the root. |
| Nesting.EntryAfterDirectoryNestsInIt | project_structure_generator.py:256-259 | An entry right after a directory and deeper than it is bound inside that directory, however many levels deeper it is drawn. |
| Nesting.PlaceEntry | project_structure_generator.py:251-259 | One loop turn takes the stack and tree left by the earlier entries to the stack and tree of the entries followed by this one. |
| TreeTextExamples.AppDrawing | project_structure_generator.py:206-211 | `app/` with `README.md`, `src/` and `│   └── main.py` gives project `app` and the tree `{README.md: file, src/: {main.py: file}}`. |
| TreeTextExamples.CommentedLine | project_structure_generator.py:211 | `├── main.py  # entry point` is the file `main.py` at level 1. |
| TreeTextExamples.MainLine | project_structure_generator.py:211 | `│   └── main.py` is a file at level 2. |
| TreeTextExamples.SrcLine | project_structure_generator.py:210 | `├── src/` is a directory at level 1 whose key keeps its `/`. |
| TreeTextExamples.RedrawnDirectoryKeepsPlace | project_structure_generator.py:256 | A directory `a/` drawn again at the top level after a file inside it keeps its place and is bound to a fresh empty directory, losing that file. |
| TreeTextExamples.EntryDrawnFirstIsRoot | project_structure_generator.py:230-233 | A first kept line `├── x/` ends in `/`, so it is taken as the root line: the project name is `├── x` and no entry line is left. |
| TreeTextExamples.FileThenDirWithFile | project_structure_generator.py:207-211 | A file, a directory, then a deeper file give the file, then the directory holding the deeper file. |

## Left out

- Reading the file, and the logging and `sys.exit` when that fails (project_structure_generator.py:222-227), are I/O. The model receives the lines as read, each possibly ending in its newline.
- Only `parse_tree_text` is modelled. `ProjectStructureCreator`, `load_structure_from_file`, `DEFAULT_STRUCTURE`, the command-line interface, the logging set-up and the YAML import fallback are not part of this model. They are file-system side effects, foreign library loads and environment glue.
- The `re` engine is not modelled. The one pattern the parser uses is stated as a decomposition of the line. `\s` and `str.strip()` use the characters for which Python's `str.isspace` holds, listed in `PyText.Whitespace`.
- Aliasing is not modelled as such. The stack's dicts are named by their paths, and assignment is a tree update at a path. `Nesting.StackResolves` and `Nesting.StackIsChain` show that every stacked path leads to a directory of the result. A directory rebound under an existing name has always been popped already, so no stale alias ever receives an entry.
- Input with no non-blank line: `lines[0]` is read unguarded (project_structure_generator.py:230) and raises `IndexError`; the model returns `Failure(NoLines)`.
- TreeLine.ParseLine: it has no contract of its own. Its contract is stated by `TreeLine.ParseLineFollowsPattern`.
- Structure.Insert: its own contract states only that a directory stays a directory. What it does is stated by `Structure.InsertAlongPath` and `Structure.InsertUpdatesTarget`.
