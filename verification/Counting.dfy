/** Counting arguments shared by the reclamation schemes. */
module Counting {
  predicate Distinct<T(==)>(q: seq<T>) {
    forall i, j :: 0 <= i < j < |q| ==> q[i] != q[j]
  }

  /** Distinct values that all occur in p are no more than p has entries. */
  lemma {:induction false} Pigeonhole<T>(q: seq<T>, p: seq<T>)
    requires Distinct(q) && forall i :: 0 <= i < |q| ==> q[i] in p
    ensures |q| <= |p|
  {
    if q != [] {
      var x := q[|q| - 1];
      assert x in p;
      var j :| 0 <= j < |p| && p[j] == x;
      var q', p' := q[..|q| - 1], p[..j] + p[j + 1..];
      forall i | 0 <= i < |q'| ensures q'[i] in p' {
        assert q'[i] == q[i] && q[i] in p && q[i] != x;
        var k :| 0 <= k < |p| && p[k] == q[i];
        assert p'[if k < j then k else k - 1] == q[i];
      }
      Pigeonhole(q', p');
    }
  }
}
