/** Facts about sequences that several proofs lean on. */
module Sequences {
  /** Concatenation can be regrouped. */
  lemma Associative<T>(a: seq<T>, b: seq<T>, c: seq<T>)
    ensures (a + b) + c == a + (b + c)
  {
  }

  /** An element of a non-empty sequence is in all but its last element, or is the last. */
  lemma InSplitLast<T>(s: seq<T>, x: T)
    requires s != []
    ensures x in s <==> x in s[..|s| - 1] || x == s[|s| - 1]
  {
    assert s == s[..|s| - 1] + [s[|s| - 1]];
  }
}
