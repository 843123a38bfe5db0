/** How large a set can be. */
module SetSizes {
  lemma {:induction false} BoundedSet(s: set<int>, lo: int, hi: int)
    requires lo <= hi && forall v :: v in s ==> lo <= v < hi
    ensures |s| <= hi - lo
    decreases hi - lo
  {
    if lo < hi {
      BoundedSet(s - {lo}, lo + 1, hi);
    } else {
      assert s == {};
    }
  }

  lemma {:induction false} SubsetSize<T>(a: set<T>, b: set<T>)
    requires a <= b
    ensures |a| <= |b|
    decreases |a|
  {
    if a != {} {
      var x :| x in a;
      SubsetSize(a - {x}, b - {x});
    }
  }
}
