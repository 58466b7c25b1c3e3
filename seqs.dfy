/** Facts about sequences of positions and of clients shared by the modules:
    no repeated element, and every position below a bound. */
module Seqs {

  /** No element occurs twice in `s`. */
  ghost predicate Distinct<T>(s: seq<T>)
  {
    forall i, j :: 0 <= i < j < |s| ==> s[i] != s[j]
  }

  /** Every element of `s` is a position below `n`. */
  predicate InRange(s: seq<nat>, n: nat)
  {
    forall i :: 0 <= i < |s| ==> s[i] < n
  }

  /** Deleting position `i` of a sequence without repetitions leaves no
      repetitions and drops exactly the element at `i`. */
  lemma DistinctWithout<T>(s: seq<T>, i: nat)
    requires Distinct(s) && i < |s|
    ensures Distinct(s[..i] + s[i + 1..])
    ensures forall x :: x in s[..i] + s[i + 1..] ==> x in s && x != s[i]
    ensures forall x :: x in s && x != s[i] ==> x in s[..i] + s[i + 1..]
  {
  }
}
