/** Sequences of process ids or node addresses without repetition. */
module Sequences {
  ghost predicate Distinct(s: seq<int>) {
    forall i, j :: 0 <= i < j < |s| ==> s[i] != s[j]
  }

  lemma {:induction false} DistinctFits(q: seq<int>, all: set<int>)
    requires Distinct(q) && forall x :: x in q ==> x in all
    ensures |q| <= |all|
  {
    if q != [] {
      assert q[0] in q;
      assert forall x :: x in q[1..] ==> x in q && x != q[0];
      DistinctFits(q[1..], all - {q[0]});
    }
  }
}
