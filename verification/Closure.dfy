/** The transitive closure an expression may read, folded over the Kahn order. */
module Closure {
  import opened Collections
  import opened Graph

  ghost predicate Path(g: Dag, p: seq<Id>, a: Id, b: Id) {
    |p| >= 2 && p[0] == a && p[|p|-1] == b && Walk(g, p)
  }

  /** `b` depends on `a`, directly or through other nodes. */
  ghost predicate Reaches(g: Dag, a: Id, b: Id) {
    exists p :: Path(g, p, a, b)
  }

  /** `v` reads `x` through the dependency `d`. */
  ghost predicate Via(g: Dag, x: Id, d: Id, v: Id) {
    Edge(g, d, v) && (x == d || Reaches(g, x, d))
  }

  lemma ViaReaches(g: Dag, x: Id, d: Id, v: Id)
    requires Via(g, x, d, v)
    ensures Reaches(g, x, v)
  {
    if x == d {
      assert Path(g, [d, v], x, v);
    } else {
      var p :| Path(g, p, x, d);
      var q := p + [v];
      forall i | 0 < i < |q| ensures Edge(g, q[i-1], q[i]) {
        if i < |p| { assert q[i-1] == p[i-1] && q[i] == p[i]; }
      }
      assert Path(g, q, x, v);
    }
  }

  lemma ReachesVia(g: Dag, x: Id, v: Id) returns (d: Id)
    requires Reaches(g, x, v)
    ensures Via(g, x, d, v)
  {
    var p :| Path(g, p, x, v);
    var n := |p| - 1;
    d := p[n-1];
    assert Edge(g, p[n-1], p[n]);
    if n > 1 {
      var q := p[..n];
      forall i | 0 < i < |q| ensures Edge(g, q[i-1], q[i]) { assert Edge(g, p[i-1], p[i]); }
      assert Path(g, q, x, d);
    }
  }

  /** `s` is exactly what `v` is ordered after. */
  ghost predicate IsClosure(g: Dag, v: Id, s: set<Id>) {
    forall x :: x in s <==> Reaches(g, x, v)
  }

  ghost predicate Closures(g: Dag, of: set<Id>, sets: map<Id, set<Id>>) {
    forall v {:trigger sets[v]} {:trigger v in of} :: v in of ==> v in sets && IsClosure(g, v, sets[v])
  }

  /** One node's accumulator: each dependency and everything that dependency inherited. */
  method FoldOne(g: Dag, v: Id, sets: map<Id, set<Id>>) returns (acc: set<Id>)
    requires v in g.deps && Closures(g, g.deps[v], sets)
    ensures IsClosure(g, v, acc)
  {
    acc := {};
    var todo := g.deps[v];
    while todo != {}
      invariant todo <= g.deps[v]
      invariant forall x :: x in acc ==> Reaches(g, x, v)
      invariant forall d :: d in g.deps[v] - todo ==> d in acc && sets[d] <= acc
      decreases todo
    {
      var dep :| dep in todo;
      forall x | x == dep || x in sets[dep] ensures Reaches(g, x, v) { ViaReaches(g, x, dep, v); }
      acc := acc + {dep} + sets[dep];
      todo := todo - {dep};
    }
    forall x | Reaches(g, x, v) ensures x in acc {
      var d := ReachesVia(g, x, v);
      assert d in g.deps[v] - todo;
    }
  }

  /** One pass over a topological order computes every closure, because dependencies come first. */
  method ComputeAncestors(g: Dag, order: seq<Id>) returns (sets: map<Id, set<Id>>)
    requires Topological(g, order)
    ensures Closures(g, g.deps.Keys, sets)
  {
    sets := map[];
    for i := 0 to |order|
      invariant Closures(g, Elems(order[..i]), sets)
    {
      var v := order[i];
      assert g.deps[v] <= Elems(order[..i]);
      var acc := FoldOne(g, v, sets);
      sets := sets[v := acc];
      assert order[..i+1] == order[..i] + [v];
    }
    assert order[..|order|] == order;
  }

  ghost predicate Before(t: seq<Id>, x: Id, v: Id) {
    exists i, j :: 0 <= i < j < |t| && t[i] == x && t[j] == v
  }

  lemma ReachesIsBefore(g: Dag, t: seq<Id>, x: Id, v: Id)
    requires Topological(g, t) && Reaches(g, x, v)
    ensures Before(t, x, v)
  {
    var p :| Path(g, p, x, v);
    var n := |p| - 1;
    assert Edge(g, p[n-1], p[n]) && Edge(g, p[0], p[1]);
    assert v in Elems(t) && p[1] in Elems(t);
    var j :| 0 <= j < |t| && t[j] == v;
    var m :| 0 <= m < |t| && t[m] == p[1];
    assert x in Elems(t[..m]);
    var i :| 0 <= i < |t[..m]| && t[..m][i] == x;
    WalkFollowsOrder(g, t, p, i, j);
  }

  /** The elements of `s` that are in `a`, or that are not, in the order of `s`. */
  ghost function Part(s: seq<Id>, a: set<Id>, inside: bool): seq<Id> {
    if s == [] then []
    else
      var n := |s| - 1;
      Part(s[..n], a, inside) + (if (s[n] in a) == inside then [s[n]] else [])
  }

  lemma {:induction false} PartElems(s: seq<Id>, a: set<Id>, inside: bool)
    requires Distinct(s)
    ensures forall x :: x in Part(s, a, inside) <==> x in s && (x in a) == inside
    ensures Distinct(Part(s, a, inside))
  {
    if s != [] {
      var n := |s| - 1;
      PartElems(s[..n], a, inside);
      assert s == s[..n] + [s[n]];
      var r := Part(s[..n], a, inside);
      assert s[n] !in s[..n] && s[n] !in r;
    }
  }

  /** Every dependency of `t[i]` is in `base` or earlier in `t`. */
  ghost predicate OrderedOver(g: Dag, base: set<Id>, t: seq<Id>) {
    && (forall i :: 0 <= i < |t| ==> t[i] in g.deps)
    && forall i {:trigger t[..i]} :: 0 <= i < |t| ==> g.deps[t[i]] <= base + Elems(t[..i])
  }

  lemma OrderedSnoc(g: Dag, base: set<Id>, t: seq<Id>, x: Id)
    requires OrderedOver(g, base, t) && x in g.deps && g.deps[x] <= base + Elems(t)
    ensures OrderedOver(g, base, t + [x])
  {
    var r := t + [x];
    forall i {:trigger r[..i]} | 0 <= i < |r| ensures g.deps[r[i]] <= base + Elems(r[..i]) {
      assert r[..i] == t[..i];
      assert t[..|t|] == t;
    }
  }

  /** Splitting a topological order by a dependency-closed set keeps both halves ordered. */
  lemma {:induction false} PartOrdered(g: Dag, s: seq<Id>, a: set<Id>, inside: bool)
    requires Distinct(s) && OrderedOver(g, {}, s)
    requires forall n :: n in a && n in g.deps ==> g.deps[n] <= a
    ensures OrderedOver(g, if inside then {} else a, Part(s, a, inside))
  {
    if s != [] {
      var n := |s| - 1;
      var q, base := s[..n], if inside then {} else a;
      forall i {:trigger q[..i]} | 0 <= i < |q| ensures g.deps[q[i]] <= {} + Elems(q[..i]) { assert q[..i] == s[..i]; }
      PartOrdered(g, q, a, inside);
      PartElems(q, a, inside);
      var r := Part(q, a, inside);
      if (s[n] in a) == inside {
        forall d | d in g.deps[s[n]] ensures d in base + Elems(r) { assert d in {} + Elems(s[..n]); }
        OrderedSnoc(g, base, r, s[n]);
      } else {
        assert Part(s, a, inside) == r;
      }
    }
  }

  /** Two ordered parts make an ordered whole when the first is all the second may rely on. */
  lemma OrderedJoin(g: Dag, t: seq<Id>, u: seq<Id>)
    requires OrderedOver(g, {}, t) && OrderedOver(g, Elems(t), u)
    ensures OrderedOver(g, {}, t + u)
  {
    var r := t + u;
    forall i {:trigger r[..i]} | 0 <= i < |r| ensures g.deps[r[i]] <= {} + Elems(r[..i]) {
      if i < |t| {
        assert r[..i] == t[..i];
      } else {
        assert r[..i] == t + u[..i-|t|];
        assert g.deps[u[i-|t|]] <= Elems(t) + Elems(u[..i-|t|]);
      }
    }
  }

  lemma OrderedIsTopological(g: Dag, s: seq<Id>)
    ensures Topological(g, s) <==> Distinct(s) && Elems(s) == g.deps.Keys && OrderedOver(g, {}, s)
  {
    assert forall i {:trigger s[..i]} :: 0 <= i <= |s| ==> {} + Elems(s[..i]) == Elems(s[..i]);
  }

  lemma PartsAreTopological(g: Dag, s: seq<Id>, a: set<Id>)
    requires Topological(g, s)
    requires a <= g.deps.Keys && forall n :: n in a && n in g.deps ==> g.deps[n] <= a
    ensures Topological(g, Part(s, a, true) + Part(s, a, false))
  {
    var t, u := Part(s, a, true), Part(s, a, false);
    OrderedIsTopological(g, s);
    PartElems(s, a, true);
    PartElems(s, a, false);
    PartOrdered(g, s, a, true);
    PartOrdered(g, s, a, false);
    assert Elems(t) == a by { assert Elems(s) == g.deps.Keys; }
    OrderedJoin(g, t, u);
    DistinctJoin(t, u);
    PartsCover(s, a);
    OrderedIsTopological(g, t + u);
  }

  lemma PartsCover(s: seq<Id>, a: set<Id>)
    requires Distinct(s)
    ensures Elems(Part(s, a, true) + Part(s, a, false)) == Elems(s)
  {
    PartElems(s, a, true);
    PartElems(s, a, false);
  }

  /** A node that `v` does not depend on follows `v` in some topological order. */
  lemma UnrelatedMayFollow(g: Dag, s: seq<Id>, x: Id, v: Id) returns (t: seq<Id>)
    requires Topological(g, s) && x in g.deps && v in g.deps && !Reaches(g, x, v)
    ensures Topological(g, t) && !Before(t, x, v)
  {
    if x == v {
      t := s;
    } else {
      var a := set n | n in g.deps && (n == v || Reaches(g, n, v));
      forall n, d | n in a && n in g.deps && d in g.deps[n] ensures d in a {
        assert Via(g, d, d, n);
        ViaReaches(g, d, d, n);
        if n != v { ReachesTransitive(g, d, n, v); }
        assert d in g.deps by {
          var k :| 0 <= k < |s| && s[k] == n by { assert n in Elems(s); }
          assert d in Elems(s[..k]);
        }
      }
      PartsAreTopological(g, s, a);
      PartElems(s, a, true);
      t := Part(s, a, true) + Part(s, a, false);
      assert v in Part(s, a, true) by { assert v in Elems(s); }
      var j :| 0 <= j < |Part(s, a, true)| && Part(s, a, true)[j] == v;
      assert x !in Part(s, a, true);
      forall i, k | 0 <= i < k < |t| && t[i] == x ensures t[k] != v {
        assert t[j] == v;
      }
    }
  }

  lemma {:induction false} ReachesTransitive(g: Dag, a: Id, b: Id, c: Id)
    requires Reaches(g, a, b) && Reaches(g, b, c)
    ensures Reaches(g, a, c)
  {
    var p :| Path(g, p, a, b);
    var q :| Path(g, q, b, c);
    var r := p + q[1..];
    forall i | 0 < i < |r| ensures Edge(g, r[i-1], r[i]) {
      if i < |p| { assert Edge(g, p[i-1], p[i]); }
      else { var k := i - |p| + 1; assert Edge(g, q[k-1], q[k]); }
    }
    assert Path(g, r, a, c);
  }

  /** On an acyclic graph the closure is exactly what precedes `v` in every topological order. */
  lemma ClosureIsAlwaysBefore(g: Dag, s: seq<Id>, x: Id, v: Id)
    requires Topological(g, s) && x in g.deps && v in g.deps
    ensures Reaches(g, x, v) <==> forall t :: Topological(g, t) ==> Before(t, x, v)
  {
    if Reaches(g, x, v) {
      forall t | Topological(g, t) ensures Before(t, x, v) { ReachesIsBefore(g, t, x, v); }
    } else {
      var t := UnrelatedMayFollow(g, s, x, v);
    }
  }

  /** Some unresolved agent is upstream of `n`, so its closure may be missing prompt edges. */
  ghost predicate Incomplete(g: Dag, unresolved: set<Id>, n: Id) {
    exists u :: u in unresolved && Reaches(g, u, n)
  }

  /** `n` literally reads the output of a workflow node that it is not ordered after. */
  ghost predicate Unordered(g: Dag, literals: map<Id, seq<Id>>, unresolved: set<Id>, n: Id, r: Id) {
    && n in g.deps && !Incomplete(g, unresolved, n)
    && n in literals && r in literals[n] && r in g.deps && !Reaches(g, r, n)
  }

  method UnorderedReadsOf(g: Dag, n: Id, visible: set<Id>, literals: seq<Id>) returns (bad: seq<(Id, Id)>)
    requires IsClosure(g, n, visible)
    ensures forall m, r :: (m, r) in bad <==> m == n && r in literals && r in g.deps && !Reaches(g, r, n)
  {
    bad := [];
    for i := 0 to |literals|
      invariant forall m, r :: (m, r) in bad <==> m == n && r in literals[..i] && r in g.deps && !Reaches(g, r, n)
    {
      if literals[i] in g.deps && literals[i] !in visible {
        bad := bad + [(n, literals[i])];
      }
    }
  }

  /** The refusals of step 4b: exactly the literal out-of-closure reads of nodes with a complete closure. */
  method CollectUnorderedReads(g: Dag, sets: map<Id, set<Id>>, literals: map<Id, seq<Id>>, unresolved: set<Id>)
    returns (issues: seq<(Id, Id)>)
    requires Numbered(g) && SameNodes(g) && Closures(g, g.deps.Keys, sets)
    ensures forall n, r :: (n, r) in issues <==> Unordered(g, literals, unresolved, n, r)
  {
    issues := [];
    for i := 0 to |g.nodes|
      invariant forall n, r :: (n, r) in issues <==> Unordered(g, literals, unresolved, n, r) && g.authored[n] < i
    {
      var n := g.nodes[i];
      var bad := [];
      IncompleteSeen(g, unresolved, n, sets[n]);
      if unresolved * sets[n] == {} && n in literals {
        bad := UnorderedReadsOf(g, n, sets[n], literals[n]);
      }
      forall m, r ensures (m, r) in issues + bad <==> Unordered(g, literals, unresolved, m, r) && g.authored[m] < i + 1 {
        if m in g.deps && m != n { assert g.authored[m] != i; }
      }
      issues := issues + bad;
    }
  }

  lemma IncompleteSeen(g: Dag, unresolved: set<Id>, n: Id, visible: set<Id>)
    requires IsClosure(g, n, visible)
    ensures Incomplete(g, unresolved, n) <==> unresolved * visible != {}
  {
    if unresolved * visible != {} {
      var u :| u in unresolved * visible;
    } else {
      forall u | u in unresolved ensures !Reaches(g, u, n) { assert u !in unresolved * visible; }
    }
  }

  /** What is refused is a read that some execution order puts before what it reads, of a node nothing unresolved is upstream of. */
  lemma RefusedReadIsUnordered(g: Dag, order: seq<Id>, literals: map<Id, seq<Id>>, unresolved: set<Id>, n: Id, r: Id)
    requires Topological(g, order)
    ensures Unordered(g, literals, unresolved, n, r) <==>
              && n in g.deps && n in literals && r in literals[n] && r in g.deps
              && (forall u :: u in unresolved && u in g.deps ==> exists t :: Topological(g, t) && !Before(t, u, n))
              && (exists t :: Topological(g, t) && !Before(t, r, n))
  {
    if n in g.deps {
      forall u | u in g.deps ensures Reaches(g, u, n) <==> forall t :: Topological(g, t) ==> Before(t, u, n) {
        ClosureIsAlwaysBefore(g, order, u, n);
      }
      forall u | Reaches(g, u, n) ensures u in g.deps {
        ReachesIsBefore(g, order, u, n);
        var i, j :| 0 <= i < j < |order| && order[i] == u && order[j] == n;
      }
    }
  }

  /** An accepted plan orders every literal read it could check, in every execution order of the graph. */
  lemma AcceptedReadIsOrdered(g: Dag, order: seq<Id>, literals: map<Id, seq<Id>>, unresolved: set<Id>, n: Id, r: Id)
    requires Topological(g, order)
    requires forall m, q :: !Unordered(g, literals, unresolved, m, q)
    requires n in g.deps && n in literals && r in literals[n] && r in g.deps && !Incomplete(g, unresolved, n)
    ensures forall t :: Topological(g, t) ==> Before(t, r, n)
  {
    assert !Unordered(g, literals, unresolved, n, r);
    ClosureIsAlwaysBefore(g, order, r, n);
  }
}
