/** Order-preserving selection from a sequence. */
module Sequences {

  /** `r` can be obtained from `s` by deleting elements, keeping the
      relative order of the remaining ones. */
  predicate IsSubsequence<T(==)>(r: seq<T>, s: seq<T>)
    decreases |s|
  {
    r == [] || (s != [] && ((r[0] == s[0] && IsSubsequence(r[1..], s[1..])) || IsSubsequence(r, s[1..])))
  }

  /** Every sequence is a subsequence of itself. */
  lemma {:induction false} SubsequenceReflexive<T>(s: seq<T>)
    ensures IsSubsequence(s, s)
  {
    if s != [] {
      SubsequenceReflexive(s[1..]);
    }
  }
}
