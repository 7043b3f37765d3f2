/** Sequences that are left when elements are taken out of another one. */
module Subsequences {
  ghost predicate Subsequence<T(!new)>(a: seq<T>, b: seq<T>)
    decreases |b|
  {
    || a == []
    || (b != [] && ((a[0] == b[0] && Subsequence(a[1..], b[1..])) || Subsequence(a, b[1..])))
  }

  lemma SubsequenceNone<T(!new)>(b: seq<T>)
    ensures Subsequence([], b)
  {
  }

  /** Taking out elements in front, or keeping them. */
  lemma SubsequenceMore<T(!new)>(x: T, a: seq<T>, b: seq<T>)
    requires Subsequence(a, b)
    ensures Subsequence(a, [x] + b) && Subsequence([x] + a, [x] + b)
  {
    assert ([x] + b)[1..] == b && ([x] + a)[1..] == a;
  }
}
