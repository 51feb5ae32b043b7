/** Optional values and sequences without repetition, shared by the other modules. */
module Collections {

  datatype Option<+T> = None | Some(value: T)

  function Elems<T>(s: seq<T>): set<T> {
    set x | x in s
  }

  predicate Distinct<T(==)>(s: seq<T>) {
    forall i, j :: 0 <= i < j < |s| ==> s[i] != s[j]
  }

  lemma DistinctCardinality<T>(s: seq<T>)
    requires Distinct(s)
    ensures |Elems(s)| == |s|
  {
    if s != [] {
      var n := |s| - 1;
      DistinctCardinality(s[..n]);
      assert Elems(s) == Elems(s[..n]) + {s[n]};
      assert s[n] !in Elems(s[..n]);
    } else {
      assert Elems(s) == {};
    }
  }

  lemma DistinctJoin<T>(p: seq<T>, q: seq<T>)
    requires Distinct(p) && Distinct(q) && forall x :: x in p ==> x !in q
    ensures Distinct(p + q)
  {
    forall i, j | 0 <= i < j < |p + q| ensures (p + q)[i] != (p + q)[j] {
      if i < |p| <= j { assert p[i] in p && q[j - |p|] in q; }
    }
  }

  lemma SubsetCardinality<T>(a: set<T>, b: set<T>)
    requires a <= b
    ensures |a| <= |b|
    ensures |a| == |b| ==> a == b
  {
    assert b == a + (b - a);
    assert |b| == |a| + |b - a|;
  }
}
