/**
 * How the entries of a drawing nest. The parser keeps a stack of
 * `(level, dict)` items whose dicts are aliased inside the result; here each
 * item names its dict by the path of names that leads to it from the root,
 * and the result is a tree value updated at that path.
 *
 * Two descriptions of where an entry goes are related: the stack algorithm
 * (`Pop`, `StackAfter`) and a declarative rule (`ParentPathAt`): an entry's
 * parent is found at the nearest earlier entry that is shallower than it; if
 * that entry is a directory it is the parent, if it is a file the parent is
 * the file's own parent.
 */
module Nesting {
  import opened Wrappers
  import opened Structure
  import opened TreeLine
  import opened Seqs

  /** A stack item `(level, dict)`; the dict is the directory at `path`. */
  datatype Frame = Frame(level: nat, path: seq<string>)

  /** The bottom item `(0, root_dict)`. */
  const RootFrame: Frame := Frame(0, [])

  /** `{} if name.endswith("/") else None`: a fresh empty directory, or a file. */
  function EntryNode(e: Entry): (n: Node)
    ensures n.Dir? <==> e.isDir
    ensures n.Dir? ==> n.children == []
  {
    if e.isDir then Dir([]) else File
  }

  /**
   * `while stack and stack[-1][0] >= level: stack.pop()`: the result is a
   * prefix of the stack whose top is shallower than `level`; an item
   * shallower than `level` at the bottom is never removed.
   */
  function Pop(s: seq<Frame>, level: nat): (r: seq<Frame>)
    ensures r <= s
    ensures r != [] ==> r[|r| - 1].level < level
    ensures s != [] && s[0].level < level ==> r != []
  {
    if s != [] && s[|s| - 1].level >= level then Pop(s[..|s| - 1], level) else s
  }

  /** One turn of the popping loop. */
  lemma PopDropsTop(s: seq<Frame>, level: nat)
    requires s != [] && s[|s| - 1].level >= level
    ensures Pop(s[..|s| - 1], level) == Pop(s, level)
  {
  }

  /** The popping loop ends on an empty stack or one whose top is shallower than `level`. */
  lemma PopStopsBelow(s: seq<Frame>, level: nat)
    requires s == [] || s[|s| - 1].level < level
    ensures Pop(s, level) == s
  {
  }

  /** `Pop` removes only items at `level` or deeper, so its result is the longest prefix with a shallower top. */
  lemma {:induction false} PopRemovesOnlyDeep(s: seq<Frame>, level: nat)
    ensures forall i :: |Pop(s, level)| <= i < |s| ==> s[i].level >= level
    decreases |s|
  {
    if s != [] && s[|s| - 1].level >= level {
      PopRemovesOnlyDeep(s[..|s| - 1], level);
    }
  }

  /**
   * The stack once the entries `es` are processed: pop to the entry's level,
   * then push the entry when it is a directory. The root item is never popped,
   * since every entry is at level 1 or deeper.
   */
  function StackAfter(es: seq<Entry>): (s: seq<Frame>)
    ensures |s| >= 1 && s[0] == RootFrame
    decreases |es|
  {
    if es == [] then [RootFrame]
    else
      var e := es[|es| - 1];
      var popped := Pop(StackAfter(es[..|es| - 1]), e.level);
      if e.isDir then popped + [Frame(e.level, popped[|popped| - 1].path + [e.name])] else popped
  }

  /**
   * The path of the directory that receives an entry at `level` placed after
   * `es`: scan back to the nearest entry shallower than `level`; a directory
   * there is the parent, a file there passes the question on to its own parent.
   * With no such entry the parent is the root.
   */
  function ParentPathAt(es: seq<Entry>, level: nat): seq<string>
    decreases |es|
  {
    if es == [] then []
    else
      var e, before := es[|es| - 1], es[..|es| - 1];
      if e.level < level then
        ParentPathAt(before, e.level) + (if e.isDir then [e.name] else [])
      else
        ParentPathAt(before, level)
  }

  /** The result tree built by the declarative rule: each entry in turn is bound, by name, in its parent. */
  function Assemble(es: seq<Entry>): Node
    decreases |es|
  {
    if es == [] then Dir([])
    else
      var e, before := es[|es| - 1], es[..|es| - 1];
      Insert(Assemble(before), ParentPathAt(before, e.level), e.name, EntryNode(e))
  }

  /** The stack items form a chain from the root: levels strictly increase, each path extends the one below by one name. */
  ghost predicate Chain(s: seq<Frame>) {
    (forall i :: 0 <= i < |s| ==> |s[i].path| == i) &&
    (forall i, j :: 0 <= i < j < |s| ==> s[i].level < s[j].level && s[i].path <= s[j].path)
  }

  /** Every stack item names a directory that exists in `t`. */
  ghost predicate Resolves(t: Node, s: seq<Frame>) {
    forall i :: 0 <= i < |s| ==> Lookup(t, s[i].path).Some? && Lookup(t, s[i].path).value.Dir?
  }

  /** Popping to a level and then to a shallower one is popping to the shallower one. */
  lemma {:induction false} PopTwice(s: seq<Frame>, deep: nat, shallow: nat)
    requires shallow <= deep
    ensures Pop(Pop(s, deep), shallow) == Pop(s, shallow)
    decreases |s|
  {
    if s != [] && s[|s| - 1].level >= deep {
      PopTwice(s[..|s| - 1], deep, shallow);
    }
  }

  /** The top of the stack after popping to `level` names `path`. */
  ghost predicate TopIs(s: seq<Frame>, level: nat, path: seq<string>) {
    var p := Pop(s, level);
    |p| >= 1 && p[|p| - 1].path == path
  }

  /**
   * The stack algorithm agrees with the declarative rule: after popping to
   * `level`, the top of the stack is the parent directory `ParentPathAt` names.
   */

  lemma {:induction false} StackTopIsParent(es: seq<Entry>, level: nat)
    requires level >= 1
    ensures TopIs(StackAfter(es), level, ParentPathAt(es, level))
    decreases |es|
  {
    if es == [] {
      assert Pop([RootFrame], level) == [RootFrame];
    } else {
      var e, before := es[|es| - 1], es[..|es| - 1];
      StackTopIsParent(before, e.level);
      if e.level < level {
        TopAfterShallowerEntry(es, level);
      } else {
        StackTopIsParent(before, level);
        PopTwice(StackAfter(before), e.level, level);
        TopAfterDeeperEntry(es, level);
      }
    }
  }

  /** An entry shallower than `level` is itself the parent (a directory) or hands over its own parent (a file). */
  lemma TopAfterShallowerEntry(es: seq<Entry>, level: nat)
    requires es != [] && es[|es| - 1].level < level
    requires TopIs(StackAfter(es[..|es| - 1]), es[|es| - 1].level, ParentPathAt(es[..|es| - 1], es[|es| - 1].level))
    ensures TopIs(StackAfter(es), level, ParentPathAt(es, level))
  {
    var e, before := es[|es| - 1], es[..|es| - 1];
    var popped := Pop(StackAfter(before), e.level);
    if e.isDir {
      var stack := popped + [Frame(e.level, popped[|popped| - 1].path + [e.name])];
      assert StackAfter(es) == stack;
      assert Pop(stack, level) == stack;
    } else {
      assert StackAfter(es) == popped;
      assert Pop(popped, level) == popped;
    }
  }

  /** An entry at `level` or deeper is popped again before the next entry at `level` is placed. */
  lemma TopAfterDeeperEntry(es: seq<Entry>, level: nat)
    requires es != [] && es[|es| - 1].level >= level
    requires TopIs(StackAfter(es[..|es| - 1]), level, ParentPathAt(es[..|es| - 1], level))
    requires Pop(Pop(StackAfter(es[..|es| - 1]), es[|es| - 1].level), level) == Pop(StackAfter(es[..|es| - 1]), level)
    ensures TopIs(StackAfter(es), level, ParentPathAt(es, level))
  {
    var before := es[..|es| - 1];
    ParentSkipsDeeperEntry(es, level);
    StackAfterDeeperEntry(es, level);
    SamePopSameTop(StackAfter(es), StackAfter(before), level, ParentPathAt(before, level));
  }

  lemma SamePopSameTop(s: seq<Frame>, s': seq<Frame>, level: nat, path: seq<string>)
    requires Pop(s, level) == Pop(s', level) && TopIs(s', level, path)
    ensures TopIs(s, level, path)
  {
  }

  lemma ParentSkipsDeeperEntry(es: seq<Entry>, level: nat)
    requires es != [] && es[|es| - 1].level >= level
    ensures ParentPathAt(es, level) == ParentPathAt(es[..|es| - 1], level)
  {
  }

  lemma StackAfterDeeperEntry(es: seq<Entry>, level: nat)
    requires es != [] && es[|es| - 1].level >= level
    ensures Pop(StackAfter(es), level) == Pop(Pop(StackAfter(es[..|es| - 1]), es[|es| - 1].level), level)
  {
    var e, before := es[|es| - 1], es[..|es| - 1];
    var popped := Pop(StackAfter(before), e.level);
    if e.isDir {
      var f := Frame(e.level, popped[|popped| - 1].path + [e.name]);
      assert StackAfter(es) == popped + [f];
      PopPushedFrame(popped, f, level);
    }
  }

  lemma PopPushedFrame(s: seq<Frame>, f: Frame, level: nat)
    requires f.level >= level
    ensures Pop(s + [f], level) == Pop(s, level)
  {
    assert (s + [f])[..|s|] == s;
  }

  lemma {:induction false} StackIsChain(es: seq<Entry>)
    ensures Chain(StackAfter(es))
    decreases |es|
  {
    if es != [] {
      var e, before := es[|es| - 1], es[..|es| - 1];
      StackIsChain(before);
      var popped := Pop(StackAfter(before), e.level);
      ChainPrefix(StackAfter(before), popped);
      if e.isDir {
        ChainPush(popped, e.level, e.name);
      }
    }
  }

  lemma ChainPrefix(s: seq<Frame>, p: seq<Frame>)
    requires Chain(s) && p <= s
    ensures Chain(p)
  {
    assert forall i :: 0 <= i < |p| ==> p[i] == s[i];
  }

  lemma ChainPush(s: seq<Frame>, level: nat, name: string)
    requires Chain(s) && s != [] && s[|s| - 1].level < level
    ensures Chain(s + [Frame(level, s[|s| - 1].path + [name])])
  {
    var top := s[|s| - 1];
    var pushed := s + [Frame(level, top.path + [name])];
    forall i, j | 0 <= i < j < |pushed|
      ensures pushed[i].level < pushed[j].level && pushed[i].path <= pushed[j].path
    {
      if j == |s| && i < |s| - 1 {
        assert s[i].path <= top.path;
      }
    }
  }

  /** Every directory on the stack is present in the tree built so far. */
  lemma {:induction false} StackResolves(es: seq<Entry>)
    ensures Resolves(Assemble(es), StackAfter(es))
    decreases |es|
  {
    if es == [] {
      assert Lookup(Dir([]), []) == Some(Dir([]));
    } else {
      var e, before := es[|es| - 1], es[..|es| - 1];
      StackResolves(before);
      StackIsChain(before);
      ResolvesStep(before, e);
      LastSplit(es);
    }
  }

  lemma ResolvesStep(es: seq<Entry>, e: Entry)
    requires Resolves(Assemble(es), StackAfter(es)) && Chain(StackAfter(es))
    ensures Resolves(Assemble(es + [e]), StackAfter(es + [e]))
  {
    var t, s := Assemble(es), StackAfter(es);
    var popped := Pop(s, e.level);
    PoppedTopIsParent(es, e.level, s, popped);
    TreeStepAt(es, e, t, popped);
    StackStep(es, e);
    var top := popped[|popped| - 1].path;
    var t' := Insert(t, top, e.name, EntryNode(e));
    ResolvesAfterInsert(t, s, popped, e.name, EntryNode(e));
    if e.isDir {
      assert Lookup(t, top).Some? && Lookup(t, top).value.Dir? by {
        assert popped[|popped| - 1] == s[|popped| - 1];
      }
      InsertUpdatesTarget(t, top, e.name, EntryNode(e));
      ResolvesPushed(t', popped, Frame(e.level, top + [e.name]));
    }
  }

  /** Binding a name in the directory on top of a popped stack keeps every item of that stack resolvable. */
  lemma ResolvesAfterInsert(t: Node, s: seq<Frame>, p: seq<Frame>, k: string, v: Node)
    requires Resolves(t, s) && Chain(s) && p <= s && p != []
    ensures Resolves(Insert(t, p[|p| - 1].path, k, v), p)
  {
    var n := |p|;
    var top := p[n - 1].path;
    forall i | 0 <= i < n
      ensures Lookup(Insert(t, top, k, v), p[i].path).Some? && Lookup(Insert(t, top, k, v), p[i].path).value.Dir?
    {
      assert p[i] == s[i] && p[n - 1] == s[n - 1];
      assert s[i].path <= top by {
        if i < n - 1 { assert s[i].path <= s[n - 1].path; }
      }
      InsertAlongPath(t, top, k, v, s[i].path);
    }
  }

  lemma ResolvesPushed(t: Node, s: seq<Frame>, f: Frame)
    requires Resolves(t, s) && Lookup(t, f.path).Some? && Lookup(t, f.path).value.Dir?
    ensures Resolves(t, s + [f])
  {
    forall i | 0 <= i < |s| + 1
      ensures Lookup(t, (s + [f])[i].path).Some? && Lookup(t, (s + [f])[i].path).value.Dir?
    {
      if i < |s| {
        assert (s + [f])[i] == s[i];
      }
    }
  }

  /**
   * Each entry is bound, under its own name and with `d[k] = v` semantics, in
   * the directory the stack offers: that directory exists when the entry comes,
   * gains exactly that binding, and the entry's node is then found at the
   * parent's path extended by the entry's name.
   */
  lemma EntryInsertedIntoParent(es: seq<Entry>, e: Entry)
    ensures var p, t := ParentPathAt(es, e.level), Assemble(es);
      Lookup(t, p).Some? && Lookup(t, p).value.Dir? &&
      Lookup(Assemble(es + [e]), p) == Some(Dir(Put(Lookup(t, p).value.children, e.name, EntryNode(e)))) &&
      Lookup(Assemble(es + [e]), p + [e.name]) == Some(EntryNode(e))
  {
    var p, t := ParentPathAt(es, e.level), Assemble(es);
    StackTopIsParent(es, e.level);
    StackResolves(es);
    var s := StackAfter(es);
    var popped := Pop(s, e.level);
    assert popped[|popped| - 1] == s[|popped| - 1];
    assert (es + [e])[..|es|] == es;
    assert Assemble(es + [e]) == Insert(t, p, e.name, EntryNode(e));
    InsertUpdatesTarget(t, p, e.name, EntryNode(e));
  }

  /** The result is always a directory, and no directory in it binds a name twice. */
  lemma {:induction false} AssembleWellFormed(es: seq<Entry>)
    ensures Assemble(es).Dir? && WellFormed(Assemble(es))
    decreases |es|
  {
    if es != [] {
      var e, before := es[|es| - 1], es[..|es| - 1];
      AssembleWellFormed(before);
      InsertPreservesWellFormed(Assemble(before), ParentPathAt(before, e.level), e.name, EntryNode(e));
    }
  }

  /** Entries at `level` or deeper never hold the parent of a later entry at `level`: they are popped first. */
  lemma {:induction false} DeeperEntriesAreSkipped(es: seq<Entry>, later: seq<Entry>, level: nat)
    requires forall i :: 0 <= i < |later| ==> later[i].level >= level
    ensures ParentPathAt(es + later, level) == ParentPathAt(es, level)
    decreases |later|
  {
    if later == [] {
      assert es + later == es;
    } else {
      var all := es + later;
      assert all[..|all| - 1] == es + later[..|later| - 1];
      ParentSkipsDeeperEntry(all, level);
      DeeperEntriesAreSkipped(es, later[..|later| - 1], level);
    }
  }

  /** An unindented entry (level 1) is bound directly in the root directory. */
  lemma UnindentedEntryIsTopLevel(es: seq<Entry>, e: Entry)
    requires e.level == 1
    ensures Lookup(Assemble(es + [e]), [e.name]) == Some(EntryNode(e))
  {
    DeeperEntriesAreSkipped([], es, 1);
    assert [] + es == es;
    EntryInsertedIntoParent(es, e);
  }

  /**
   * An entry right after a directory entry and deeper than it is bound inside
   * that directory, however many levels deeper it is drawn.
   */
  lemma EntryAfterDirectoryNestsInIt(es: seq<Entry>, d: Entry, c: Entry)
    requires d.isDir && d.level < c.level
    ensures Lookup(Assemble(es + [d, c]), ParentPathAt(es, d.level) + [d.name, c.name]) == Some(EntryNode(c))
  {
    var withDir := es + [d];
    DirectoryIsParent(es, d, c.level);
    EntryInsertedIntoParent(withDir, c);
    AppendTwo(es, d, c);
    AppendTwo(ParentPathAt(es, d.level), d.name, c.name);
  }

  /** Right after a directory entry, the parent of anything deeper is that directory. */
  lemma DirectoryIsParent(es: seq<Entry>, d: Entry, level: nat)
    requires d.isDir && d.level < level
    ensures ParentPathAt(es + [d], level) == ParentPathAt(es, d.level) + [d.name]
  {
    assert (es + [d])[..|es|] == es;
  }

  /** One entry more: the tree gains the entry in the parent the declarative rule names. */
  lemma AssembleStep(es: seq<Entry>, e: Entry)
    ensures Assemble(es + [e]) == Insert(Assemble(es), ParentPathAt(es, e.level), e.name, EntryNode(e))
  {
    assert (es + [e])[..|es|] == es;
  }

  /** One entry more: the parent the declarative rule names for a later entry at `level`. */
  lemma ParentStep(es: seq<Entry>, e: Entry, level: nat)
    ensures ParentPathAt(es + [e], level)
      == if e.level < level then ParentPathAt(es, e.level) + (if e.isDir then [e.name] else []) else ParentPathAt(es, level)
  {
    assert (es + [e])[..|es|] == es;
  }

  /** One entry more: the stack is popped to the entry's level and, for a directory, pushed. */
  lemma StackStep(es: seq<Entry>, e: Entry)
    ensures var popped := Pop(StackAfter(es), e.level);
      StackAfter(es + [e]) == if e.isDir then popped + [Frame(e.level, popped[|popped| - 1].path + [e.name])] else popped
  {
    assert (es + [e])[..|es|] == es;
  }

  /** `while stack and stack[-1][0] >= level: stack.pop()`, on a stack value. */
  method PopTo(stack: seq<Frame>, level: nat) returns (popped: seq<Frame>)
    ensures popped == Pop(stack, level)
  {
    popped := stack;
    while |popped| > 0 && popped[|popped| - 1].level >= level
      invariant Pop(popped, level) == Pop(stack, level)
      decreases |popped|
    {
      PopDropsTop(popped, level);
      popped := popped[..|popped| - 1];
    }
    PopStopsBelow(popped, level);
  }

  /**
   * The body of the parser's loop for one matching line: pop the stack to the
   * entry's level, bind the entry in the directory now on top, and push it
   * when it is a directory. Starting from the state the entries `es` leave,
   * it leaves the state of `es` followed by this entry.
   */
  method PlaceEntry(stack: seq<Frame>, root: Node, name: string, level: Level, entry: Node, ghost es: seq<Entry>)
    returns (stack': seq<Frame>, root': Node)
    requires entry == File || entry == Dir([])
    requires stack == StackAfter(es) && root == Assemble(es)
    ensures stack' == StackAfter(es + [Entry(name, level, entry.Dir?)])
    ensures root' == Assemble(es + [Entry(name, level, entry.Dir?)])
  {
    ghost var e := Entry(name, level, entry.Dir?);
    stack' := PopTo(stack, level);
    PoppedTopIsParent(es, level, stack, stack');
    TreeStepAt(es, e, root, stack');
    StackStep(es, e);
    var parentPath := stack'[|stack'| - 1].path;
    root' := Insert(root, parentPath, name, entry);
    if entry.Dir? {
      stack' := stack' + [Frame(level, parentPath + [name])];
    }
  }

  lemma PoppedTopIsParent(es: seq<Entry>, level: Level, stack: seq<Frame>, p: seq<Frame>)
    requires stack == StackAfter(es) && p == Pop(stack, level)
    ensures |p| >= 1 && p[|p| - 1].path == ParentPathAt(es, level)
  {
    StackTopIsParent(es, level);
  }

  lemma TreeStepAt(es: seq<Entry>, e: Entry, root: Node, p: seq<Frame>)
    requires root == Assemble(es) && |p| >= 1 && p[|p| - 1].path == ParentPathAt(es, e.level)
    ensures Assemble(es + [e]) == Insert(root, p[|p| - 1].path, e.name, EntryNode(e))
  {
    AssembleStep(es, e);
  }

}
