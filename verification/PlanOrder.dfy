/** What the emitted order is: the lexicographically least topological order, complete exactly on acyclic graphs. */
module PlanOrder {
  import opened Collections
  import opened Graph
  import opened Kahn

  lemma GreedyPlaces(g: Dag, order: seq<Id>)
    requires Greedy(g, order)
    ensures Distinct(order)
    ensures forall i :: 0 <= i < |order| ==> order[i] in g.deps
    ensures forall i {:trigger order[..i]} :: 0 <= i < |order| ==> g.deps[order[i]] <= Elems(order[..i])
  {
    forall i | 0 <= i < |order| ensures order[i] in g.deps { assert Ready(g, Elems(order[..i]), order[i]); }
    forall i, j | 0 <= i < j < |order| ensures order[i] != order[j] {
      assert Ready(g, Elems(order[..j]), order[j]);
      assert order[..j][i] in Elems(order[..j]);
    }
  }

  lemma GreedyCount(g: Dag, order: seq<Id>)
    requires Numbered(g) && SameNodes(g) && Greedy(g, order)
    ensures |order| <= |g.nodes|
    ensures |order| == |g.nodes| <==> Elems(order) == g.deps.Keys
  {
    GreedyPlaces(g, order);
    NodeCount(g);
    DistinctCardinality(order);
    assert Elems(order) <= g.deps.Keys;
    SubsetCardinality(Elems(order), g.deps.Keys);
  }

  lemma CompleteIsTopological(g: Dag, order: seq<Id>)
    requires Numbered(g) && SameNodes(g) && Greedy(g, order) && |order| == |g.nodes|
    ensures Topological(g, order)
  {
    GreedyPlaces(g, order);
    GreedyCount(g, order);
  }

  lemma FirstDifference(s: seq<Id>, t: seq<Id>, n: nat) returns (k: nat)
    requires n <= |s| && n <= |t| && s[..n] != t[..n]
    ensures k < n && s[..k] == t[..k] && s[k] != t[k]
  {
    k := 0;
    while k < n && s[k] == t[k]
      invariant k <= n && s[..k] == t[..k]
    {
      k := k + 1;
    }
  }

  /** The orders agree before `k`, where `s` has the earlier authored node. */
  ghost predicate LessAt(g: Dag, s: seq<Id>, t: seq<Id>, k: nat) {
    && k < |s| && k < |t| && s[..k] == t[..k]
    && s[k] in g.authored && t[k] in g.authored && g.authored[s[k]] < g.authored[t[k]]
  }

  /** `s` comes no later than `t` when orders are compared position by position by authored index. */
  ghost predicate LexNoLater(g: Dag, s: seq<Id>, t: seq<Id>) {
    s == t || exists k :: LessAt(g, s, t, k)
  }

  /** The Kahn order precedes every other topological order. */
  lemma KahnOrderIsLeast(g: Dag, order: seq<Id>, t: seq<Id>)
    requires Numbered(g) && SameNodes(g) && Greedy(g, order) && Topological(g, t)
    requires |order| == |g.nodes|
    ensures Topological(g, order) && LexNoLater(g, order, t)
  {
    CompleteIsTopological(g, order);
    assert |order| == |t| by {
      DistinctCardinality(order);
      DistinctCardinality(t);
    }
    if order != t {
      assert order[..|order|] == order && t[..|t|] == t;
      var k := FirstDifference(order, t, |t|);
      GreedyWins(g, order, t, k);
    }
  }

  lemma GreedyWins(g: Dag, order: seq<Id>, t: seq<Id>, k: nat)
    requires Numbered(g) && SameNodes(g) && Greedy(g, order) && Topological(g, t)
    requires k < |order| && k < |t| && order[..k] == t[..k] && order[k] != t[k]
    ensures LessAt(g, order, t, k)
  {
  }

  /** Every node outside `placed` still depends on one outside `placed`. */
  ghost predicate Stuck(g: Dag, placed: set<Id>) {
    forall n {:trigger g.deps[n]} :: n in g.deps && n !in placed ==> g.deps[n] - placed != {}
  }

  lemma GreedyLeavesStuck(g: Dag, order: seq<Id>)
    requires Greedy(g, order)
    ensures Stuck(g, Elems(order))
  {
    forall n | n in g.deps && n !in Elems(order) ensures g.deps[n] - Elems(order) != {} {
      assert !Ready(g, Elems(order), n);
      var d :| d in g.deps[n] && d !in Elems(order);
      assert d in g.deps[n] - Elems(order);
    }
  }

  /** The authored-least unplaced dependency of an unplaced node. */
  function LeastStuck(g: Dag, placed: set<Id>, n: Id): (d: Id)
    requires Numbered(g) && SameNodes(g) && Symmetric(g)
    requires n in g.deps && g.deps[n] - placed != {}
    ensures Edge(g, d, n) && d !in placed && d in g.deps
  {
    var preds := AuthoredSort(g.nodes, g.deps[n] - placed);
    assert preds != [] by {
      var d :| d in g.deps[n] - placed;
      assert d in g.outs && d in g.authored && g.nodes[g.authored[d]] == d;
      assert d in Elems(preds);
    }
    assert preds[0] in Elems(preds);
    preds[0]
  }

  function Reversed(s: seq<Id>): (r: seq<Id>)
    ensures |r| == |s| && forall i :: 0 <= i < |r| ==> r[i] == s[|s|-1-i]
  {
    seq(|s|, i requires 0 <= i < |s| => s[|s|-1-i])
  }

  /** `next` sends each of its nodes to that node's authored-least unplaced dependency. */
  ghost predicate Follows(g: Dag, placed: set<Id>, next: map<Id, Id>)
    requires Numbered(g) && SameNodes(g) && Symmetric(g)
  {
    && Maps(next)
    && (forall n {:trigger Follow(g, placed, n, next[n])} :: n in next ==> Follow(g, placed, n, next[n]))
  }

  ghost predicate Maps(next: map<Id, Id>) {
    forall n {:trigger next[n]} :: n in next ==> next[n] in next
  }

  ghost predicate Follow(g: Dag, placed: set<Id>, n: Id, d: Id)
    requires Numbered(g) && SameNodes(g) && Symmetric(g)
  {
    n in g.deps && n !in placed && g.deps[n] - placed != {} && d == LeastStuck(g, placed, n)
  }

  lemma StuckMap(g: Dag, placed: set<Id>, start: Id) returns (next: map<Id, Id>)
    requires Numbered(g) && SameNodes(g) && Symmetric(g) && Stuck(g, placed)
    requires start in g.deps && start !in placed
    ensures Follows(g, placed, next) && start in next
  {
    next := map n | n in g.deps && n !in placed :: LeastStuck(g, placed, n);
    forall n {:trigger next[n]} | n in next ensures next[n] in next { assert Follow(g, placed, n, next[n]); }
  }

  /** `path` follows `next` up to `cur` and has not met itself yet. */
  ghost predicate Chain(next: map<Id, Id>, path: seq<Id>, cur: Id) {
    && Distinct(path) && cur in next
    && (forall i :: 0 <= i < |path| ==> path[i] in next)
    && (forall i :: 0 < i < |path| ==> path[i] == next[path[i-1]])
    && (path != [] ==> cur == next[path[|path|-1]])
  }

  lemma ChainFits(next: map<Id, Id>, path: seq<Id>, cur: Id)
    requires Chain(next, path, cur)
    ensures |path| <= |next|
    ensures cur !in path ==> |path| < |next|
  {
    DistinctCardinality(path);
    assert Elems(path) <= next.Keys;
    SubsetCardinality(Elems(path), next.Keys);
  }

  lemma ChainExtends(next: map<Id, Id>, path: seq<Id>, cur: Id)
    requires Maps(next) && Chain(next, path, cur) && cur !in path
    ensures Chain(next, path + [cur], next[cur])
  {
  }

  /** Where the walk closes: the loop in execution order with its head repeated at the end. */
  ghost function Ring(path: seq<Id>, from: nat): (r: seq<Id>)
    requires from < |path|
  {
    var loop := Reversed(path[from..]);
    loop + [loop[0]]
  }

  ghost function CycleFrom(next: map<Id, Id>, path: seq<Id>, cur: Id): (r: seq<Id>)
    requires Chain(next, path, cur) && Maps(next)
    decreases |next| - |path|
  {
    if cur in path then Ring(path, Position(path, cur))
    else
      ChainFits(next, path, cur);
      CycleFrom(next, path + [cur], next[cur])
  }

  /** A ring over `next` that repeats only its head, each element entered from its `next`. */
  ghost predicate IsRing(next: map<Id, Id>, c: seq<Id>) {
    && |c| >= 2 && c[0] == c[|c|-1] && Distinct(c[1..]) && |c| <= |next| + 1
    && (forall i :: 0 <= i < |c| ==> c[i] in next)
    && (forall i :: 0 < i < |c| ==> c[i-1] == next[c[i]])
  }

  lemma RingIsRing(next: map<Id, Id>, path: seq<Id>, cur: Id, from: nat)
    requires Chain(next, path, cur) && from < |path| && path[from] == cur
    ensures IsRing(next, Ring(path, from))
  {
    var c, n, m := Ring(path, from), |path| - from, |path| - 1;
    assert |c| == n + 1 && c[n] == path[m];
    assert forall i :: 0 <= i < n ==> c[i] == path[m-i];
    forall i | 0 < i < |c| ensures c[i-1] == next[c[i]] {
      if i < n {
        assert path[m-i+1] == next[path[m-i]];
      }
    }
    RingIsSimple(path, from);
    ChainFits(next, path, cur);
  }

  lemma RingIsSimple(path: seq<Id>, from: nat)
    requires Distinct(path) && from < |path|
    ensures Distinct(Ring(path, from)[1..])
  {
    var d, n, m := Ring(path, from)[1..], |path| - from, |path| - 1;
    assert |d| == n && d[n-1] == path[m];
    assert forall i :: 0 <= i < n - 1 ==> d[i] == path[m-i-1];
  }

  lemma {:induction false} CycleFromIsRing(next: map<Id, Id>, path: seq<Id>, cur: Id)
    requires Chain(next, path, cur) && Maps(next)
    ensures IsRing(next, CycleFrom(next, path, cur))
    decreases |next| - |path|
  {
    if cur in path {
      RingIsRing(next, path, cur, Position(path, cur));
    } else {
      ChainFits(next, path, cur);
      CycleFromIsRing(next, path + [cur], next[cur]);
    }
  }

  /**
   * A closed walk over unplaced nodes, in execution order, no longer than the node count plus its repeated
   * head, repeating nothing else, each node entered from its authored-least unplaced dependency.
   */
  ghost predicate SimpleCycle(g: Dag, placed: set<Id>, c: seq<Id>) {
    && ClosedWalk(g, c) && Distinct(c[1..]) && |c| <= |g.nodes| + 1
    && (forall i :: 0 <= i < |c| ==> c[i] in g.deps && c[i] !in placed)
    && (forall i, d :: 0 < i < |c| && Edge(g, d, c[i]) && d !in placed && c[i-1] in g.authored && d in g.authored
          ==> g.authored[c[i-1]] <= g.authored[d])
  }

  lemma LeastStuckIsLeast(g: Dag, placed: set<Id>, n: Id, d: Id)
    requires Wired(g) && Edge(g, d, n) && d !in placed
    ensures g.deps[n] - placed != {} && d in g.authored && LeastStuck(g, placed, n) in g.authored
    ensures g.authored[LeastStuck(g, placed, n)] <= g.authored[d]
  {
    var s := g.deps[n] - placed;
    assert d in s && d in g.outs && g.nodes[g.authored[d]] == d;
    var preds := AuthoredSort(g.nodes, s);
    AuthoredSortIsSorted(g.nodes, g.authored, s);
    assert d in Elems(preds);
    var k :| 0 <= k < |preds| && preds[k] == d;
    assert preds[0] == LeastStuck(g, placed, n);
    if k > 0 { assert g.authored[preds[0]] < g.authored[preds[k]]; }
  }

  lemma FollowsFits(g: Dag, placed: set<Id>, next: map<Id, Id>)
    requires Wired(g) && Follows(g, placed, next)
    ensures |next| <= |g.nodes|
  {
    assert next.Keys <= g.deps.Keys by {
      forall n | n in next.Keys ensures n in g.deps.Keys { assert Follow(g, placed, n, next[n]); }
    }
    assert |next.Keys| <= |g.deps.Keys| by { SubsetCardinality(next.Keys, g.deps.Keys); }
    NodeCount(g);
  }

  lemma RingIsCycle(g: Dag, placed: set<Id>, next: map<Id, Id>, c: seq<Id>)
    requires Wired(g) && Follows(g, placed, next) && IsRing(next, c)
    ensures SimpleCycle(g, placed, c)
  {
    FollowsFits(g, placed, next);
    forall i | 0 < i < |c| ensures Edge(g, c[i-1], c[i]) {
      assert Follow(g, placed, c[i], next[c[i]]);
    }
    forall i | 0 <= i < |c| ensures c[i] in g.deps && c[i] !in placed {
      assert Follow(g, placed, c[i], next[c[i]]);
    }
    forall i, d | 0 < i < |c| && Edge(g, d, c[i]) && d !in placed && c[i-1] in g.authored && d in g.authored
      ensures g.authored[c[i-1]] <= g.authored[d]
    {
      LeastStuckIsLeast(g, placed, c[i], d);
      assert Follow(g, placed, c[i], next[c[i]]);
    }
  }

  method FirstStuck(g: Dag, placed: set<Id>) returns (i: nat)
    ensures i <= |g.nodes| && (i < |g.nodes| ==> g.nodes[i] !in placed)
    ensures forall k :: 0 <= k < i ==> g.nodes[k] in placed
  {
    i := 0;
    while i < |g.nodes| && g.nodes[i] in placed
      invariant i <= |g.nodes|
      invariant forall k :: 0 <= k < i ==> g.nodes[k] in placed
    {
      i := i + 1;
    }
  }

  method NextStuck(g: Dag, placed: set<Id>, cur: Id, ghost next: map<Id, Id>) returns (d: Id)
    requires Numbered(g) && SameNodes(g) && Symmetric(g) && Follows(g, placed, next) && cur in next
    ensures d == next[cur]
  {
    assert Follow(g, placed, cur, next[cur]);
    d := LeastStuck(g, placed, cur);
  }

  /** The predecessor walk from a stuck node, closed where it first meets itself. */
  method WalkBack(g: Dag, placed: set<Id>, start: Id, ghost next: map<Id, Id>) returns (cycle: seq<Id>)
    requires Numbered(g) && SameNodes(g) && Symmetric(g) && Follows(g, placed, next) && start in next
    ensures IsRing(next, cycle) && WalkedFrom(next, start, cycle)
  {
    var cur := start;
    var path: seq<Id>, seenAt: map<Id, nat> := [], map[];
    while cur !in seenAt
      invariant Chain(next, path, cur)
      invariant forall x :: x in seenAt ==> seenAt[x] < |path| && path[seenAt[x]] == x
      invariant forall i :: 0 <= i < |path| ==> path[i] in seenAt
      invariant if path == [] then cur == start else path[0] == start
      decreases |next| - |path|
    {
      ChainFits(next, path, cur);
      ChainExtends(next, path, cur);
      seenAt := seenAt[cur := |path|];
      path := path + [cur];
      cur := NextStuck(g, placed, cur, next);
    }
    var loop := Reversed(path[seenAt[cur]..]);
    cycle := loop + [loop[0]];
    RingIsRing(next, path, cur, seenAt[cur]);
    assert WalkedTo(next, start, path, seenAt[cur], cycle);
  }

  /** The cycle closes the walk `path` from `start` where it meets its own element `from`. */
  ghost predicate WalkedTo(next: map<Id, Id>, start: Id, path: seq<Id>, from: nat, cycle: seq<Id>) {
    from < |path| && path[0] == start && Chain(next, path, path[from]) && cycle == Ring(path, from)
  }

  ghost predicate WalkedFrom(next: map<Id, Id>, start: Id, cycle: seq<Id>) {
    exists path, from :: WalkedTo(next, start, path, from, cycle)
  }

  /** `d` is the authored-least dependency of `n` that could not be placed. */
  ghost predicate BlockedBy(g: Dag, placed: set<Id>, n: Id, d: Id) {
    && Edge(g, d, n) && d !in placed && d in g.authored
    && forall e :: Edge(g, e, n) && e !in placed ==> e in g.authored && g.authored[d] <= g.authored[e]
  }

  /** The first authored node that could not be placed. */
  ghost predicate FirstUnplaced(g: Dag, placed: set<Id>, n: Id) {
    exists i :: 0 <= i < |g.nodes| && g.nodes[i] == n && n !in placed && forall k :: 0 <= k < i ==> g.nodes[k] in placed
  }

  /** The walk from the first unplaced node, each time to what blocks it, read backwards from where it closes. */
  ghost predicate BlockedWalk(g: Dag, placed: set<Id>, path: seq<Id>, from: nat, cycle: seq<Id>) {
    && from < |path| && Distinct(path) && FirstUnplaced(g, placed, path[0])
    && (forall i :: 0 < i < |path| ==> BlockedBy(g, placed, path[i-1], path[i]))
    && BlockedBy(g, placed, path[|path|-1], path[from])
    && |cycle| == |path| - from + 1 && cycle[0] == cycle[|cycle|-1]
    && forall i :: 0 <= i < |cycle| - 1 ==> cycle[i] == path[|path| - 1 - i]
  }

  lemma FollowIsBlocked(g: Dag, placed: set<Id>, next: map<Id, Id>, n: Id)
    requires Wired(g) && Follows(g, placed, next) && n in next
    ensures BlockedBy(g, placed, n, next[n])
  {
    assert Follow(g, placed, n, next[n]);
    forall e | Edge(g, e, n) && e !in placed ensures e in g.authored && g.authored[next[n]] <= g.authored[e] {
      LeastStuckIsLeast(g, placed, n, e);
    }
    LeastStuckIsLeast(g, placed, n, next[n]);
  }

  lemma WalkIsBlocked(g: Dag, placed: set<Id>, next: map<Id, Id>, path: seq<Id>, from: nat, cycle: seq<Id>)
    requires Wired(g) && Follows(g, placed, next) && from < |path| && WalkedTo(next, path[0], path, from, cycle)
    requires FirstUnplaced(g, placed, path[0])
    ensures BlockedWalk(g, placed, path, from, cycle)
  {
    forall i | 0 < i < |path| ensures BlockedBy(g, placed, path[i-1], path[i]) { FollowIsBlocked(g, placed, next, path[i-1]); }
    FollowIsBlocked(g, placed, next, path[|path|-1]);
    assert |Ring(path, from)| == |path| - from + 1;
  }

  /** The cycle named in the error report: empty only when the order is complete. */
  method ExtractCycle(g: Dag, order: seq<Id>) returns (cycle: seq<Id>)
    requires Wired(g) && Greedy(g, order)
    ensures |order| == |g.nodes| ==> cycle == []
    ensures |order| < |g.nodes| ==> SimpleCycle(g, Elems(order), cycle)
    ensures |order| < |g.nodes| ==> exists path, from :: BlockedWalk(g, Elems(order), path, from, cycle)
  {
    var placed := Elems(order);
    GreedyLeavesStuck(g, order);
    GreedyCount(g, order);
    var i := FirstStuck(g, placed);
    if i == |g.nodes| {
      AllPlaced(g, placed);
      GreedyPlaces(g, order);
      assert placed == g.deps.Keys;
      return [];
    }
    ghost var next := StuckMap(g, placed, g.nodes[i]);
    cycle := WalkBack(g, placed, g.nodes[i], next);
    RingIsCycle(g, placed, next, cycle);
    ghost var path, from :| WalkedTo(next, g.nodes[i], path, from, cycle);
    WalkIsBlocked(g, placed, next, path, from, cycle);
  }

  lemma AllPlaced(g: Dag, placed: set<Id>)
    requires Numbered(g) && SameNodes(g) && forall k :: 0 <= k < |g.nodes| ==> g.nodes[k] in placed
    ensures g.deps.Keys <= placed
  {
  }

  /** The order covers the graph exactly when the graph has no cycle. */
  lemma CompleteIffAcyclic(g: Dag, order: seq<Id>)
    requires Wired(g) && Greedy(g, order)
    ensures |order| == |g.nodes| <==> Acyclic(g)
  {
    GreedyCount(g, order);
    if |order| == |g.nodes| {
      CompleteIsTopological(g, order);
      TopologicalImpliesAcyclic(g, order);
    } else {
      GreedyPlaces(g, order);
      GreedyLeavesStuck(g, order);
      var start :| start in g.deps.Keys && start !in Elems(order);
      var next := StuckMap(g, Elems(order), start);
      CycleFromIsRing(next, [], start);
      RingIsCycle(g, Elems(order), next, CycleFrom(next, [], start));
    }
  }
}
