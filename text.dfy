/**
 * The few Python string operations the tree parser relies on: `str.isspace`,
 * `rstrip()`, `strip()`, `rstrip("/")`, `split("#")[0]` and `endswith`.
 * Strings are sequences of Unicode scalar values.
 */
module PyText {

  /** The characters that Python's `str.isspace`, `str.strip()` and the regex class `\s` treat as whitespace. */
  const Whitespace: set<char> := {
    '\U{9}', '\U{A}', '\U{B}', '\U{C}', '\U{D}', '\U{1C}', '\U{1D}', '\U{1E}',
    '\U{1F}', '\U{20}', '\U{85}', '\U{A0}', '\U{1680}', '\U{2000}', '\U{2001}', '\U{2002}',
    '\U{2003}', '\U{2004}', '\U{2005}', '\U{2006}', '\U{2007}', '\U{2008}', '\U{2009}', '\U{200A}',
    '\U{2028}', '\U{2029}', '\U{202F}', '\U{205F}', '\U{3000}'
  }

  predicate IsSpace(c: char) {
    c in Whitespace
  }

  /** A line that is empty or holds whitespace only: `line.strip() == ''`. */
  predicate IsBlank(s: string) {
    forall i :: 0 <= i < |s| ==> IsSpace(s[i])
  }

  predicate EndsWith(s: string, c: char) {
    |s| > 0 && s[|s| - 1] == c
  }

  /** Where `s[..n].rstrip()` ends: just past the last non-whitespace character before `n`. */
  function TrimEnd(s: string, n: nat): (e: nat)
    requires n <= |s|
    ensures e <= n
    ensures e == 0 || !IsSpace(s[e - 1])
    ensures forall i :: e <= i < n ==> IsSpace(s[i])
    decreases n
  {
    if n > 0 && IsSpace(s[n - 1]) then TrimEnd(s, n - 1) else n
  }

  /** Where `s[a..e].lstrip()` starts: the first non-whitespace position from `a`, or `e`. */
  function TrimStart(s: string, a: nat, e: nat): (b: nat)
    requires a <= e <= |s|
    ensures a <= b <= e
    ensures b == e || !IsSpace(s[b])
    ensures forall i :: a <= i < b ==> IsSpace(s[i])
    decreases e - a
  {
    if a < e && IsSpace(s[a]) then TrimStart(s, a + 1, e) else a
  }

  /** `s.rstrip()`: the longest prefix of `s` that does not end in whitespace. */
  function RStrip(s: string): (r: string)
    ensures r <= s
    ensures r == [] || !IsSpace(r[|r| - 1])
    ensures forall i :: |r| <= i < |s| ==> IsSpace(s[i])
  {
    s[..TrimEnd(s, |s|)]
  }

  /** `s.strip()`: `s` without its leading and trailing whitespace. */
  function Strip(s: string): (r: string)
    ensures r == [] <==> IsBlank(s)
    ensures r != [] ==> !IsSpace(r[0]) && !IsSpace(r[|r| - 1])
  {
    var e := TrimEnd(s, |s|);
    var b := TrimStart(s, 0, e);
    assert b < e ==> !IsBlank(s);
    s[b..e]
  }

  /** What `Strip` removes is whitespace at either end, and what it keeps is one contiguous piece of `s`. */
  lemma StripTrimsOnlyWhitespace(s: string)
    ensures exists a :: 0 <= a <= |s| - |Strip(s)| && Strip(s) == s[a..a + |Strip(s)|] && IsBlank(s[..a]) && IsBlank(s[a + |Strip(s)|..])
  {
    var e := TrimEnd(s, |s|);
    var b := TrimStart(s, 0, e);
    assert Strip(s) == s[b..e];
    var head, tail := s[..b], s[e..];
    forall i | 0 <= i < |head| ensures IsSpace(head[i]) {
      assert head[i] == s[i];
    }
    forall i | 0 <= i < |tail| ensures IsSpace(tail[i]) {
      assert tail[i] == s[e + i];
    }
    assert b + |Strip(s)| == e;
  }

  /** Stripping never introduces a character: one absent from `s` is absent from `Strip(s)`. */
  lemma StripKeepsAbsentChar(s: string, c: char)
    requires c !in s
    ensures c !in Strip(s)
  {
    var e := TrimEnd(s, |s|);
    var b := TrimStart(s, 0, e);
    var r := Strip(s);
    forall k | 0 <= k < |r| ensures r[k] != c {
      assert r[k] == s[b + k];
    }
  }

  /** `s.rstrip(c)`: `s` without the run of `c` characters at its end. */
  function RStripChar(s: string, c: char): (r: string)
    ensures r <= s
    ensures !EndsWith(r, c)
    ensures forall i :: |r| <= i < |s| ==> s[i] == c
  {
    if EndsWith(s, c) then RStripChar(s[..|s| - 1], c) else s
  }

  /** `s.split("#")[0]`: the part of `s` before its first `#`, or all of `s` when it has none. */
  function BeforeHash(s: string): (r: string)
    ensures r <= s
    ensures '#' !in r
    ensures |r| < |s| ==> s[|r|] == '#'
  {
    if s == [] || s[0] == '#' then [] else [s[0]] + BeforeHash(s[1..])
  }

  /** A string with no whitespace at either end is its own `strip()`. */
  lemma StripOfTrimmed(s: string)
    requires s == [] || (!IsSpace(s[0]) && !IsSpace(s[|s| - 1]))
    ensures Strip(s) == s
  {
    assert TrimEnd(s, |s|) == |s|;
    assert TrimStart(s, 0, |s|) == 0;
  }

  /** `strip()` recovers a word from any whitespace padding around it. */
  lemma StripIgnoresPadding(pre: string, s: string, post: string)
    requires IsBlank(pre) && IsBlank(post)
    requires s != [] && !IsSpace(s[0]) && !IsSpace(s[|s| - 1])
    ensures Strip(pre + s + post) == s
  {
    var x := pre + s + post;
    var b, e := |pre|, |pre| + |s|;
    forall i | e <= i < |x| ensures IsSpace(x[i]) {
      assert x[i] == post[i - e];
    }
    TrimEndStopsAt(x, e, |x|);
    forall i | 0 <= i < b ensures IsSpace(x[i]) {
      assert x[i] == pre[i];
    }
    assert x[b] == s[0];
    TrimStartStopsAt(x, 0, b, e);
    assert x[b..e] == s;
  }

  /** `TrimEnd` stops at the first non-whitespace character met going back from `n`. */
  lemma {:induction false} TrimEndStopsAt(s: string, e: nat, n: nat)
    requires 0 < e <= n <= |s| && !IsSpace(s[e - 1])
    requires forall i :: e <= i < n ==> IsSpace(s[i])
    ensures TrimEnd(s, n) == e
    decreases n
  {
    if n > e {
      TrimEndStopsAt(s, e, n - 1);
    }
  }

  /** `TrimStart` stops at the first non-whitespace character met going forward from `a`. */
  lemma {:induction false} TrimStartStopsAt(s: string, a: nat, b: nat, e: nat)
    requires a <= b < e <= |s| && !IsSpace(s[b])
    requires forall i :: a <= i < b ==> IsSpace(s[i])
    ensures TrimStart(s, a, e) == b
    decreases b - a
  {
    if a < b {
      TrimStartStopsAt(s, a + 1, b, e);
    }
  }

  /** `split("#")[0]` of a text whose first `#` follows `s` is `s`. */
  lemma {:induction false} BeforeFirstHash(s: string, rest: string)
    requires '#' !in s
    ensures BeforeHash(s + "#" + rest) == s
    decreases |s|
  {
    if s == [] {
      assert s + "#" + rest == "#" + rest;
    } else {
      assert (s + "#" + rest)[1..] == s[1..] + "#" + rest;
      BeforeFirstHash(s[1..], rest);
    }
  }
}
