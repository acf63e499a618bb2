/** Facts about finite sets and sequences that several components use. */
module Collections {

  lemma FewerMembers<T>(a: set<T>, b: set<T>)
    requires a <= b
    ensures |a| <= |b|
  {
    assert b == a + (b - a);
  }

  /** Splitting off the last element of a concatenation. */
  lemma SplitLast<T>(a: seq<T>, b: seq<T>)
    requires b != []
    ensures |a + b| == |a| + |b|
    ensures (a + b)[..|a + b| - 1] == a + b[..|b| - 1]
    ensures (a + b)[|a + b| - 1] == b[|b| - 1]
  {
    assert (a + b)[..|a + b| - 1] == a + b[..|b| - 1];
  }

  lemma AddNothing<T>(s: seq<T>)
    ensures s + [] == s && [] + s == s
  {
  }
}
