/** Facts about sequences and their multisets shared by the Sum model and
    the eigenvalue sort. */
module Seqs {
  /** Every element of s is below n: s lists indices into something of size n. */
  ghost predicate AllBelow(s: seq<nat>, n: nat) {
    forall k :: 0 <= k < |s| ==> s[k] < n
  }

  /** Taking one copy of x out of both sides of a multiset equation. */
  lemma MultisetCancel<T>(a: seq<T>, b: seq<T>, c: seq<T>, x: T)
    requires multiset(a + [x]) == multiset(b + [x] + c)
    ensures multiset(a) == multiset(b + c)
  {
    assert multiset(a + [x]) == multiset(a) + multiset{x};
    assert multiset(b + [x] + c) == multiset(b) + multiset{x} + multiset(c);
    assert multiset(b + c) == multiset(b) + multiset(c);
    forall z
      ensures multiset(a)[z] == multiset(b + c)[z]
    {
      assert multiset(a + [x])[z] == multiset(b + [x] + c)[z];
    }
  }

  /** A sequence is the part before position i, the element at i, and the
      part after it. */
  lemma SplitAround<T>(s: seq<T>, i: nat)
    requires i < |s|
    ensures s == s[..i] + [s[i]] + s[i + 1..]
  {
  }

  /** Concatenation is associative; stated once so callers need not
      reason about sequence equality themselves. */
  lemma ConcatAssoc<T>(a: seq<T>, b: seq<T>, c: seq<T>)
    ensures a + (b + c) == a + b + c
  {
  }
}
