/**
 * The structural model the parser produces: a directory is an ordered mapping
 * from child name to child node (a Python `dict`, in insertion order), a file
 * is the `None` leaf. Paths of names address the directories inside a tree.
 */
module Structure {
  import opened Wrappers

  datatype Node = File | Dir(children: seq<Child>)
  datatype Child = Child(name: string, node: Node)

  function Names(cs: seq<Child>): (ns: seq<string>)
    ensures |ns| == |cs| && forall i :: 0 <= i < |cs| ==> ns[i] == cs[i].name
  {
    seq(|cs|, i requires 0 <= i < |cs| => cs[i].name)
  }

  /** No name is bound twice in one directory (the keys of a `dict`). */
  predicate UniqueNames(cs: seq<Child>) {
    forall i, j :: 0 <= i < j < |cs| ==> cs[i].name != cs[j].name
  }

  /** Every directory of the tree binds each of its names once. */
  predicate WellFormed(t: Node) {
    match t
    case File => true
    case Dir(cs) => UniqueNames(cs) && forall i :: 0 <= i < |cs| ==> WellFormed(cs[i].node)
  }

  /** Position of the first child named `k`. */
  function IndexOf(cs: seq<Child>, k: string): (i: nat)
    requires k in Names(cs)
    ensures i < |cs| && cs[i].name == k
    ensures forall j :: 0 <= j < i ==> cs[j].name != k
  {
    if cs[0].name == k then 0
    else
      assert Names(cs)[1..] == Names(cs[1..]);
      1 + IndexOf(cs[1..], k)
  }

  /** `d.get(k)`: the node bound to `k`, if any. */
  function Get(cs: seq<Child>, k: string): (r: Option<Node>)
    ensures r.None? <==> k !in Names(cs)
    ensures r.Some? ==> Child(k, r.value) in cs
  {
    if k in Names(cs) then
      var i := IndexOf(cs, k);
      assert cs[i] == Child(k, cs[i].node);
      Some(cs[i].node)
    else None
  }

  /**
   * `d[k] = v`: rebinding a name keeps its position and replaces its value,
   * a new name is appended; every other binding is left as it was.
   */
  function Put(cs: seq<Child>, k: string, v: Node): (r: seq<Child>)
    ensures Names(r) == if k in Names(cs) then Names(cs) else Names(cs) + [k]
    ensures Get(r, k) == Some(v)
    ensures forall i :: 0 <= i < |cs| && cs[i].name != k ==> r[i] == cs[i]
    ensures forall c :: c in r ==> c in cs || c == Child(k, v)
    ensures UniqueNames(cs) ==> UniqueNames(r)
  {
    if k in Names(cs) then
      var i := IndexOf(cs, k);
      var r := cs[i := Child(k, v)];
      assert Names(r) == Names(cs);
      assert IndexOf(r, k) == i;
      r
    else
      var r := cs + [Child(k, v)];
      assert Names(r) == Names(cs) + [k];
      assert IndexOf(r, k) == |cs|;
      r
  }

  /** Binding a name not yet present appends it after every other binding. */
  lemma PutAppends(cs: seq<Child>, k: string, v: Node)
    requires forall i :: 0 <= i < |cs| ==> cs[i].name != k
    ensures Put(cs, k, v) == cs + [Child(k, v)]
  {
  }

  /** Rebinding the first child named `k` replaces it where it stands. */
  lemma PutReplaces(cs: seq<Child>, i: nat, k: string, v: Node)
    requires i < |cs| && cs[i].name == k
    requires forall j :: 0 <= j < i ==> cs[j].name != k
    ensures Get(cs, k) == Some(cs[i].node)
    ensures Put(cs, k, v) == cs[i := Child(k, v)]
  {
    assert Names(cs)[i] == k;
    assert IndexOf(cs, k) == i;
  }

  /** The node reached from `t` by following the names of `path`. */
  function Lookup(t: Node, path: seq<string>): Option<Node>
    decreases |path|
  {
    if path == [] then Some(t)
    else match t
      case File => None
      case Dir(cs) =>
        match Get(cs, path[0])
        case None => None
        case Some(c) => Lookup(c, path[1..])
  }

  /**
   * `parent_dict[k] = v` where `parent_dict` is the directory at `path`
   * inside `t`. When `path` does not lead to a directory, `t` is returned as it is.
   */
  function Insert(t: Node, path: seq<string>, k: string, v: Node): (r: Node)
    ensures r.Dir? <==> t.Dir?
    decreases |path|
  {
    match t
    case File => File
    case Dir(cs) =>
      if path == [] then Dir(Put(cs, k, v))
      else match Get(cs, path[0])
        case None => t
        case Some(c) => Dir(Put(cs, path[0], Insert(c, path[1..], k, v)))
  }

  /**
   * Inserting below `p` changes each directory on the way to `p` only by
   * the insertion itself: looking up a prefix `q` of `p` afterwards finds the
   * old node at `q` with the insertion applied at the rest of the path.
   */
  lemma {:induction false} InsertAlongPath(t: Node, p: seq<string>, k: string, v: Node, q: seq<string>)
    requires q <= p && Lookup(t, q).Some?
    ensures Lookup(Insert(t, p, k, v), q) == Some(Insert(Lookup(t, q).value, p[|q|..], k, v))
    decreases |q|
  {
    if q != [] {
      var cs := t.children;
      var c := Get(cs, q[0]).value;
      assert p[0] == q[0];
      var c' := Insert(c, p[1..], k, v);
      assert Insert(t, p, k, v) == Dir(Put(cs, p[0], c'));
      LookupThrough(Put(cs, p[0], c'), q, c');
      InsertAlongPath(c, p[1..], k, v, q[1..]);
      assert p[1..][|q[1..]|..] == p[|q|..];
    }
  }

  /** Looking up a non-empty path goes through the child bound to its first name. */
  lemma LookupThrough(cs: seq<Child>, q: seq<string>, c: Node)
    requires q != [] && Get(cs, q[0]) == Some(c)
    ensures Lookup(Dir(cs), q) == Lookup(c, q[1..])
  {
  }

  /** The directory at `p` gains the binding `k := v` with `d[k] = v` semantics. */
  lemma InsertUpdatesTarget(t: Node, p: seq<string>, k: string, v: Node)
    requires Lookup(t, p).Some? && Lookup(t, p).value.Dir?
    ensures Lookup(Insert(t, p, k, v), p) == Some(Dir(Put(Lookup(t, p).value.children, k, v)))
    ensures Lookup(Insert(t, p, k, v), p + [k]) == Some(v)
  {
    InsertAlongPath(t, p, k, v, p);
    assert p[|p|..] == [];
    LookupAppend(Insert(t, p, k, v), p, k);
  }

  /** Looking up `p + [k]` is looking up `k` in the directory at `p`. */
  lemma {:induction false} LookupAppend(t: Node, p: seq<string>, k: string)
    requires Lookup(t, p).Some? && Lookup(t, p).value.Dir?
    ensures Lookup(t, p + [k]) == Get(Lookup(t, p).value.children, k)
    decreases |p|
  {
    if p == [] {
      assert [k][1..] == [];
    } else {
      var c := Get(t.children, p[0]).value;
      assert (p + [k])[0] == p[0] && (p + [k])[1..] == p[1..] + [k];
      LookupAppend(c, p[1..], k);
    }
  }

  /** Every directory of the tree keeps its names unique through an insertion. */
  lemma {:induction false} InsertPreservesWellFormed(t: Node, p: seq<string>, k: string, v: Node)
    requires WellFormed(t) && WellFormed(v)
    ensures WellFormed(Insert(t, p, k, v))
    decreases |p|
  {
    match t
    case File =>
    case Dir(cs) =>
      if p == [] {
        PutPreservesWellFormed(cs, k, v);
      } else {
        match Get(cs, p[0])
        case None =>
        case Some(c) =>
          assert WellFormed(c) by {
            var i :| 0 <= i < |cs| && cs[i] == Child(p[0], c);
          }
          InsertPreservesWellFormed(c, p[1..], k, v);
          PutPreservesWellFormed(cs, p[0], Insert(c, p[1..], k, v));
      }
  }

  lemma PutPreservesWellFormed(cs: seq<Child>, k: string, v: Node)
    requires WellFormed(Dir(cs)) && WellFormed(v)
    ensures WellFormed(Dir(Put(cs, k, v)))
  {
    var r := Put(cs, k, v);
    forall i | 0 <= i < |r| ensures WellFormed(r[i].node) {
      assert r[i] in r;
      if r[i] != Child(k, v) {
        var j :| 0 <= j < |cs| && cs[j] == r[i];
      }
    }
  }
}
