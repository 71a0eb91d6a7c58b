/** Facts about finite sequences and sets that several components need. */
module Collections {

  ghost predicate Distinct<T>(q: seq<T>) { forall i, j | 0 <= i < j < |q| :: q[i] != q[j] }

  lemma {:induction false} SubsetSize<T>(a: set<T>, b: set<T>)
    requires a <= b
    ensures |a| <= |b|
  {
    if a != {} {
      var x :| x in a;
      SubsetSize(a - {x}, b - {x});
    }
  }

  lemma {:induction false} DistinctCount<T>(q: seq<T>)
    requires Distinct(q)
    ensures |set x | x in q| == |q|
  {
    if q != [] {
      var last := |q| - 1;
      DistinctCount(q[..last]);
      assert q == q[..last] + [q[last]];
      assert (set x | x in q) == (set x | x in q[..last]) + {q[last]};
    }
  }
}
