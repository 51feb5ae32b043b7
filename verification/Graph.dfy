/** The dependency graph the plan builder wires over authored node ids. */
module Graph {
  import opened Collections

  datatype Id = Id(text: string)

  /** `nodes` in authored order, each node's authored position, its in-edges and its out-edges. */
  datatype Dag = Dag(nodes: seq<Id>, authored: map<Id, nat>, deps: map<Id, set<Id>>, outs: map<Id, set<Id>>)

  /** `authored` gives each node its position, so the ids are distinct. */
  ghost predicate Numbered(g: Dag) {
    && (forall i :: 0 <= i < |g.nodes| ==> g.nodes[i] in g.authored && g.authored[g.nodes[i]] == i)
    && (forall n :: n in g.authored ==> g.authored[n] < |g.nodes| && g.nodes[g.authored[n]] == n)
  }

  ghost predicate SameNodes(g: Dag) {
    && (forall n :: n in g.authored <==> n in g.deps)
    && (forall n :: n in g.outs <==> n in g.deps)
  }

  /** The two edge maps describe the same edges, all of them between nodes. */
  ghost predicate Symmetric(g: Dag) {
    && (forall p, c {:trigger p in g.deps[c]} :: c in g.deps && p in g.deps[c] ==> p in g.outs && c in g.outs[p])
    && (forall p, c {:trigger c in g.outs[p]} :: p in g.outs && c in g.outs[p] ==> c in g.deps && p in g.deps[c])
  }

  ghost predicate Wired(g: Dag) {
    Numbered(g) && SameNodes(g) && Symmetric(g)
  }

  ghost predicate Edge(g: Dag, p: Id, c: Id) {
    c in g.deps && p in g.deps[c]
  }

  /** Every node is placed once, after all of its dependencies. */
  ghost predicate Topological(g: Dag, s: seq<Id>) {
    && Distinct(s)
    && Elems(s) == g.deps.Keys
    && (forall i :: 0 <= i < |s| ==> s[i] in g.deps)
    && forall i {:trigger s[..i]} :: 0 <= i < |s| ==> g.deps[s[i]] <= Elems(s[..i])
  }

  /** Consecutive elements are joined by edges. */
  ghost predicate Walk(g: Dag, p: seq<Id>) {
    forall i :: 0 < i < |p| ==> Edge(g, p[i-1], p[i])
  }

  ghost predicate ClosedWalk(g: Dag, p: seq<Id>) {
    |p| >= 2 && p[0] == p[|p|-1] && Walk(g, p)
  }

  ghost predicate Acyclic(g: Dag) {
    forall p :: !ClosedWalk(g, p)
  }

  /** The subsequence of `nodes` lying in `s`; on distinct authored nodes this is `s` sorted by position. */
  function AuthoredSort(nodes: seq<Id>, s: set<Id>): (r: seq<Id>)
    ensures Elems(r) == Elems(nodes) * s
    ensures |r| <= |nodes|
  {
    if nodes == [] then []
    else
      var rest := AuthoredSort(nodes[1..], s);
      assert Elems(nodes) == {nodes[0]} + Elems(nodes[1..]);
      assert Elems([nodes[0]] + rest) == {nodes[0]} + Elems(rest);
      if nodes[0] in s then [nodes[0]] + rest else rest
  }

  lemma {:induction false} AuthoredSortIsSorted(nodes: seq<Id>, authored: map<Id, nat>, s: set<Id>)
    requires forall i :: 0 <= i < |nodes| ==> nodes[i] in authored
    requires forall i, j :: 0 <= i < j < |nodes| ==> authored[nodes[i]] < authored[nodes[j]]
    ensures forall x :: x in AuthoredSort(nodes, s) ==> x in authored
    ensures forall i, j {:trigger AuthoredSort(nodes, s)[i], AuthoredSort(nodes, s)[j]} ::
              0 <= i < j < |AuthoredSort(nodes, s)| ==>
                authored[AuthoredSort(nodes, s)[i]] < authored[AuthoredSort(nodes, s)[j]]
  {
    if nodes != [] {
      AuthoredSortIsSorted(nodes[1..], authored, s);
      var r, rest := AuthoredSort(nodes, s), AuthoredSort(nodes[1..], s);
      forall x | x in r ensures x in authored { assert x in Elems(r); }
      if nodes[0] in s {
        assert r == [nodes[0]] + rest;
        forall j | 0 <= j < |rest| ensures authored[nodes[0]] < authored[rest[j]] {
          assert rest[j] in Elems(rest);
          var k :| 0 <= k < |nodes[1..]| && nodes[1..][k] == rest[j];
          assert nodes[k+1] == rest[j];
        }
      }
    }
  }

  lemma NodeCount(g: Dag)
    requires Numbered(g) && SameNodes(g)
    ensures |g.deps| == |g.nodes|
    ensures Distinct(g.nodes) && Elems(g.nodes) == g.deps.Keys
  {
    assert Distinct(g.nodes);
    DistinctCardinality(g.nodes);
    assert Elems(g.nodes) == g.deps.Keys;
  }

  /** Along a walk, positions in a topological order strictly increase. */
  lemma {:induction false} WalkFollowsOrder(g: Dag, s: seq<Id>, p: seq<Id>, i: nat, j: nat)
    requires Topological(g, s) && Walk(g, p) && |p| >= 2
    requires i < |s| && j < |s| && s[i] == p[0] && s[j] == p[|p|-1]
    ensures i < j
    decreases |p|
  {
    var last := |p| - 1;
    assert Edge(g, p[last-1], p[last]);
    assert p[last-1] in Elems(s[..j]);
    var k :| 0 <= k < j && s[..j][k] == p[last-1];
    if last > 1 {
      var q := p[..last];
      assert Walk(g, q) by {
        forall m | 0 < m < |q| ensures Edge(g, q[m-1], q[m]) { assert Edge(g, p[m-1], p[m]); }
      }
      WalkFollowsOrder(g, s, q, i, k);
    }
  }

  lemma TopologicalImpliesAcyclic(g: Dag, s: seq<Id>)
    requires Topological(g, s)
    ensures Acyclic(g)
  {
    forall p ensures !ClosedWalk(g, p) {
      if ClosedWalk(g, p) {
        assert Edge(g, p[|p|-2], p[|p|-1]);
        assert p[0] in Elems(s);
        var i :| 0 <= i < |s| && s[i] == p[0];
        WalkFollowsOrder(g, s, p, i, i);
      }
    }
  }

  lemma EdgeAdded(g: Dag, h: Dag, p: Id, c: Id)
    requires SameNodes(g) && Symmetric(g) && p in g.outs && c in g.deps
    requires h.authored == g.authored
    requires h.outs == g.outs[p := g.outs[p] + {c}] && h.deps == g.deps[c := g.deps[c] + {p}]
    ensures SameNodes(h) && Symmetric(h)
    ensures forall x, y :: Edge(h, x, y) <==> Edge(g, x, y) || (x == p && y == c)
  {
  }

  /** The mutable graph under construction: `addEdge` and its two maps. */
  class GraphBuilder {
    const nodes: seq<Id>
    const authored: map<Id, nat>
    var deps: map<Id, set<Id>>
    var outs: map<Id, set<Id>>

    ghost function Value(): Dag
      reads this
    {
      Dag(nodes, authored, deps, outs)
    }

    constructor (ids: seq<Id>)
      requires Distinct(ids)
      ensures Wired(Value())
      ensures nodes == ids
      ensures forall p, c :: !Edge(Value(), p, c)
    {
      nodes := ids;
      authored := map id | id in ids :: Position(ids, id);
      deps := map id | id in ids :: {};
      outs := map id | id in ids :: {};
      new;
      forall i | 0 <= i < |nodes| ensures authored[nodes[i]] == i { }
    }

    /** An edge with a missing endpoint is dropped; any other edge is the only one added. */
    method AddEdge(producer: Id, consumer: Id)
      requires Wired(Value())
      modifies this
      ensures Wired(Value())
      ensures forall p, c :: Edge(Value(), p, c) <==>
                old(Edge(Value(), p, c)) || (p == producer && c == consumer && p in nodes && c in nodes)
    {
      if producer !in outs || consumer !in deps {
        return;
      }
      ghost var before := Value();
      outs := outs[producer := outs[producer] + {consumer}];
      deps := deps[consumer := deps[consumer] + {producer}];
      EdgeAdded(before, Value(), producer, consumer);
    }
  }

  function Position(ids: seq<Id>, id: Id): (k: nat)
    requires id in ids
    ensures k < |ids| && ids[k] == id
  {
    if ids[0] == id then 0 else 1 + Position(ids[1..], id)
  }
}
