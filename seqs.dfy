/** Small facts about sequence literals and concatenation, shared by the proofs. */
module Seqs {
  /** A non-empty sequence is its front followed by its last element. */
  lemma LastSplit<T>(s: seq<T>)
    requires s != []
    ensures s[..|s| - 1] + [s[|s| - 1]] == s
  {
  }

  lemma AppendTwo<T>(s: seq<T>, a: T, b: T)
    ensures s + [a] + [b] == s + [a, b]
  {
  }

  lemma Pair<T>(x: T, y: T)
    ensures [] + [x] == [x] && [x] + [y] == [x, y]
  {
  }

  lemma Triple<T>(x: T, y: T, z: T)
    ensures [x, y] + [z] == [x, y, z]
  {
  }
}
