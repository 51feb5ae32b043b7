/** Compiling a workflow into a run plan: the ceilings, the wiring, the order, the closure and the branch orders. */
module Plan {
  import opened Collections
  import opened Graph
  import opened Workflow
  import Ceilings
  import Closure
  import Kahn
  import MergeOrder
  import PlanOrder
  import Validation

  datatype Outcome =
    | Accepted(order: seq<Id>, ancestors: map<Id, set<Id>>, branches: map<Id, seq<Id>>)
    | Refused(ceilings: seq<Ceilings.Issue>, faults: seq<Validation.Fault>, cycle: seq<Id>, unordered: seq<(Id, Id)>)

  /** Agent nodes whose agent was not supplied. */
  function Unresolved(nodes: seq<Node>, agents: Agents): (r: set<Id>)
    ensures forall x :: x in r <==>
              exists i :: 0 <= i < |nodes| && nodes[i].id == x && nodes[i].kind.Agent? && nodes[i].kind.agentRef !in agents
  {
    set n | n in nodes && n.kind.Agent? && n.kind.agentRef !in agents :: n.id
  }

  /** The members of the parallels, in authored order. */
  function Parallels(nodes: seq<Node>): (r: seq<seq<Id>>)
    ensures (forall n :: n in nodes && n.kind.Parallel? ==> Distinct(n.kind.members)) ==>
              forall i :: 0 <= i < |r| ==> Distinct(r[i])
  {
    if nodes == [] then []
    else
      var n := |nodes| - 1;
      Parallels(nodes[..n]) + if nodes[n].kind.Parallel? then [nodes[n].kind.members] else []
  }

  /** The positions of the parallels among the first `n` nodes. */
  ghost function ParallelPlaces(nodes: seq<Node>, n: nat): set<int>
    requires n <= |nodes|
  {
    set i | 0 <= i < n && nodes[i].kind.Parallel?
  }

  lemma PlacesNext(nodes: seq<Node>, n: nat)
    requires n < |nodes|
    ensures |ParallelPlaces(nodes, n + 1)| == |ParallelPlaces(nodes, n)| + if nodes[n].kind.Parallel? then 1 else 0
  {
    assert ParallelPlaces(nodes, n + 1) == ParallelPlaces(nodes, n) + if nodes[n].kind.Parallel? then {n} else {};
  }

  lemma PlacesPrefix(nodes: seq<Node>, k: nat, n: nat)
    requires k <= n <= |nodes|
    ensures ParallelPlaces(nodes[..n], k) == ParallelPlaces(nodes, k)
  {
  }

  lemma {:induction false} ParallelsCount(nodes: seq<Node>)
    ensures |Parallels(nodes)| == |ParallelPlaces(nodes, |nodes|)|
  {
    if nodes == [] {
      assert ParallelPlaces(nodes, 0) == {};
    } else {
      var n := |nodes| - 1;
      ParallelsCount(nodes[..n]);
      PlacesNext(nodes, n);
      PlacesPrefix(nodes, n, n);
    }
  }

  /** The parallel at node `k` is listed after exactly the parallels authored before it. */
  lemma {:induction false} ParallelsInOrder(nodes: seq<Node>, k: nat)
    requires k < |nodes| && nodes[k].kind.Parallel?
    ensures ListedAt(nodes, k)
  {
    var n := |nodes| - 1;
    if k < n {
      ParallelsInOrder(nodes[..n], k);
      ListedLater(nodes, k);
    } else {
      ParallelsCount(nodes[..n]);
      PlacesPrefix(nodes, n, n);
    }
  }

  lemma ListedLater(nodes: seq<Node>, k: nat)
    requires k < |nodes| - 1 && nodes[k].kind.Parallel? && ListedAt(nodes[..|nodes|-1], k)
    ensures ListedAt(nodes, k)
  {
    PlacesPrefix(nodes, k, |nodes| - 1);
  }

  ghost predicate ListedAt(nodes: seq<Node>, k: nat)
    requires k < |nodes| && nodes[k].kind.Parallel?
  {
    |ParallelPlaces(nodes, k)| < |Parallels(nodes)| && Parallels(nodes)[|ParallelPlaces(nodes, k)|] == nodes[k].kind.members
  }

  /** The graph is the one the document describes. */
  ghost predicate Describes(spec: Spec, agents: Agents, g: Dag)
    requires Distinct(Ids(spec.nodes))
  {
    Wired(g) && g.nodes == Ids(spec.nodes) && Ceilings.Holds(g, Elems(Ids(spec.nodes)), Ceilings.AllWired(spec, agents))
  }

  /** Least among all execution orders of the graph. */
  ghost predicate IsPlanOrder(g: Dag, order: seq<Id>) {
    Topological(g, order) && forall t :: Topological(g, t) ==> PlanOrder.LexNoLater(g, order, t)
  }

  /** At most 500 vertices, 2000 edges and, outside conditions, fifty out-edges each. */
  ghost predicate Bounded(spec: Spec, g: Dag) {
    && |g.nodes| <= 500 && |Ceilings.EdgeSet(g)| <= 2000
    && forall v :: v in g.outs && (forall i :: 0 <= i < |spec.nodes| && spec.nodes[i].id == v ==> !spec.nodes[i].kind.Condition?) ==>
         |g.outs[v]| <= 50
  }

  lemma AcceptedPlanIsBounded(spec: Spec, agents: Agents, g: Dag)
    requires Wired(g) && g.nodes == Ids(spec.nodes) && Validation.AsAuthored(spec, agents, g) && Ceilings.WithinLimits(spec, agents)
    requires |Ceilings.EdgeSet(g)| <= |spec.links| + Ceilings.CountMaterialised(spec.nodes, agents, Elems(Ids(spec.nodes)))
    ensures Bounded(spec, g)
  {
    forall v | v in g.outs && (forall i :: 0 <= i < |spec.nodes| && spec.nodes[i].id == v ==> !spec.nodes[i].kind.Condition?)
      ensures |g.outs[v]| <= 50
    {
      Validation.OutDegreeIsBounded(spec, agents, g, v);
    }
  }

  /** Every literal read the check can decide is of something that runs first in every order. */
  ghost predicate ReadsOrdered(g: Dag, literals: map<Id, seq<Id>>, unresolved: set<Id>) {
    forall n, r :: n in g.deps && n in literals && r in literals[n] && r in g.deps && !Closure.Incomplete(g, unresolved, n) ==>
      forall t :: Topological(g, t) ==> Closure.Before(t, r, n)
  }

  ghost predicate BranchesPinned(spec: Spec, g: Dag, branches: map<Id, seq<Id>>)
    requires Distinct(Ids(spec.nodes))
  {
    PinnedUpTo(spec.nodes, Ceilings.Kinds(spec.nodes), Parallels(spec.nodes), g, branches, |spec.nodes|)
  }

  ghost predicate NoUnordered(g: Dag, literals: map<Id, seq<Id>>, unresolved: set<Id>) {
    forall n, r :: !Closure.Unordered(g, literals, unresolved, n, r)
  }

  /** A simple cycle among the nodes the greedy order leaves unplaced, where the walk from the first of them closes. */
  ghost predicate NamesCycle(g: Dag, cycle: seq<Id>) {
    exists order, path, from :: Kahn.Greedy(g, order) && PlanOrder.SimpleCycle(g, Elems(order), cycle)
                                && PlanOrder.BlockedWalk(g, Elems(order), path, from, cycle)
  }

  lemma AllOrdersLater(g: Dag, order: seq<Id>)
    requires Wired(g) && Kahn.Greedy(g, order) && |order| == |g.nodes|
    ensures IsPlanOrder(g, order) && Acyclic(g)
  {
    PlanOrder.CompleteIsTopological(g, order);
    PlanOrder.CompleteIffAcyclic(g, order);
    forall t | Topological(g, t) ensures PlanOrder.LexNoLater(g, order, t) {
      PlanOrder.KahnOrderIsLeast(g, order, t);
    }
  }

  lemma AcceptedReadsOrdered(g: Dag, order: seq<Id>, literals: map<Id, seq<Id>>, unresolved: set<Id>)
    requires Topological(g, order) && NoUnordered(g, literals, unresolved)
    ensures ReadsOrdered(g, literals, unresolved)
  {
    forall n, r | n in g.deps && n in literals && r in literals[n] && r in g.deps && !Closure.Incomplete(g, unresolved, n)
      ensures forall t :: Topological(g, t) ==> Closure.Before(t, r, n)
    {
      Closure.AcceptedReadIsOrdered(g, order, literals, unresolved, n, r);
    }
  }

  lemma DepsAreNodes(g: Dag, m: Id)
    requires Wired(g) && m in g.deps && Acyclic(g)
    ensures g.deps[m] <= Elems(g.nodes) && m !in g.deps[m]
  {
    forall d | d in g.deps[m] ensures d in Elems(g.nodes) {
      assert d in g.outs && g.nodes[g.authored[d]] == d;
    }
    if m in g.deps[m] {
      assert ClosedWalk(g, [m, m]);
    }
  }

  /** The merges among the first `n` nodes have their branches pinned. */
  ghost predicate PinnedUpTo(nodes: seq<Node>, kinds: map<Id, Kind>, parallels: seq<seq<Id>>, g: Dag, branches: map<Id, seq<Id>>, n: nat)
    requires n <= |nodes|
  {
    forall i {:trigger nodes[i]} :: 0 <= i < n && nodes[i].kind.Merge? ==> Pinned(kinds, parallels, g, branches, nodes[i].id)
  }

  /** A merge's entry holds its dependencies with a value once each, in the order the parallel it joins declares. */
  ghost predicate Pinned(kinds: map<Id, Kind>, parallels: seq<seq<Id>>, g: Dag, branches: map<Id, seq<Id>>, m: Id) {
    m in g.deps && m in branches && MergeOrder.Pinned(g.nodes, kinds, m, g.deps[m], parallels, branches[m])
  }

  method PinBranches(spec: Spec, g: Dag) returns (branches: map<Id, seq<Id>>)
    requires Distinct(Ids(spec.nodes)) && Wired(g) && g.nodes == Ids(spec.nodes) && Acyclic(g)
    requires forall n :: n in spec.nodes && n.kind.Parallel? ==> Distinct(n.kind.members)
    ensures BranchesPinned(spec, g, branches)
  {
    branches := PinAll(spec.nodes, Ceilings.Kinds(spec.nodes), Parallels(spec.nodes), g);
  }

  method PinAll(nodes: seq<Node>, kinds: map<Id, Kind>, parallels: seq<seq<Id>>, g: Dag) returns (branches: map<Id, seq<Id>>)
    requires Wired(g) && g.nodes == Ids(nodes) && Acyclic(g)
    requires forall k :: 0 <= k < |parallels| ==> Distinct(parallels[k])
    ensures PinnedUpTo(nodes, kinds, parallels, g, branches, |nodes|)
  {
    branches := map[];
    for i := 0 to |nodes|
      invariant PinnedUpTo(nodes, kinds, parallels, g, branches, i)
    {
      if nodes[i].kind.Merge? {
        branches := PinOne(nodes, kinds, parallels, g, branches, i);
      }
    }
  }

  method PinOne(nodes: seq<Node>, kinds: map<Id, Kind>, parallels: seq<seq<Id>>, g: Dag, branches: map<Id, seq<Id>>, i: nat)
    returns (more: map<Id, seq<Id>>)
    requires i < |nodes| && Wired(g) && g.nodes == Ids(nodes) && Acyclic(g)
    requires PinnedUpTo(nodes, kinds, parallels, g, branches, i)
    requires forall k :: 0 <= k < |parallels| ==> Distinct(parallels[k])
    ensures PinnedUpTo(nodes, kinds, parallels, g, more, i + 1)
  {
    var m := nodes[i].id;
    assert g.nodes[i] == m && m in g.deps;
    DepsAreNodes(g, m);
    NodeCount(g);
    var order, paired := MergeOrder.BranchOrder(g.nodes, kinds, m, g.deps[m], parallels);
    more := branches[m := order];
    forall j {:trigger nodes[j]} | 0 <= j < i + 1 && nodes[j].kind.Merge? ensures Pinned(kinds, parallels, g, more, nodes[j].id) {
      if j < i { assert Pinned(kinds, parallels, g, branches, nodes[j].id); }
    }
  }

  /**
   * Accepts a document exactly when it is within the ceilings, its references are in order, it is acyclic and free
   * of unordered literal reads, and no check outside this model objects (`otherFaults`). An accepted plan honours
   * every authored edge and carries the least execution order, the exact closures and the pinned branch orders; a
   * refusal names a cycle exactly when there is one.
   */
  method BuildRunPlan(spec: Spec, agents: Agents, registry: bool, literals: map<Id, seq<Id>>, otherFaults: bool)
    returns (r: Outcome, g: Dag)
    requires Distinct(Ids(spec.nodes))
    requires forall n :: n in spec.nodes && n.kind.Parallel? ==> Distinct(n.kind.members)
    ensures Describes(spec, agents, g) && Validation.AsAuthored(spec, agents, g)
    ensures r.Accepted? <==>
              && Ceilings.WithinLimits(spec, agents) && Validation.InOrder(spec, Ceilings.Kinds(spec.nodes), agents, registry)
              && Acyclic(g) && NoUnordered(g, literals, Unresolved(spec.nodes, agents)) && !otherFaults
    ensures r.Accepted? ==> IsPlanOrder(g, r.order) && Closure.Closures(g, g.deps.Keys, r.ancestors)
    ensures r.Accepted? ==> Bounded(spec, g) && ReadsOrdered(g, literals, Unresolved(spec.nodes, agents))
    ensures r.Accepted? ==> BranchesPinned(spec, g, r.branches) && Validation.Honoured(spec, g)
    ensures r.Refused? ==> (r.ceilings == [] <==> Ceilings.WithinLimits(spec, agents))
    ensures r.Refused? ==> forall f :: f in r.faults <==> Validation.Faulty(spec, Ceilings.Kinds(spec.nodes), agents, registry, f)
    ensures r.Refused? ==> (r.cycle == [] <==> Acyclic(g)) && (r.cycle != [] ==> NamesCycle(g, r.cycle))
    ensures r.Refused? && r.ceilings == [] && r.cycle == [] ==>
              forall n, q :: (n, q) in r.unordered <==> Closure.Unordered(g, literals, Unresolved(spec.nodes, agents), n, q)
  {
    var unresolved := Unresolved(spec.nodes, agents);
    var ceilings, out := Ceilings.CollectCeilingIssues(spec, agents);
    var faults := Validation.CollectFaults(spec, Ceilings.Kinds(spec.nodes), agents, registry);
    Validation.EmptyMeansNoFaults(spec, Ceilings.Kinds(spec.nodes), agents, registry, faults);
    Validation.NoFaultsIffInOrder(spec, Ceilings.Kinds(spec.nodes), agents, registry);
    var b := Ceilings.Wire(spec, agents);
    g := Dag(b.nodes, b.authored, b.deps, b.outs);
    forall p, c ensures Edge(g, p, c) <==> Validation.Depends(spec, agents, p, c) {
      Validation.EdgesAreDependencies(spec, agents, g, p, c);
    }
    var order := Kahn.Order(g);
    PlanOrder.CompleteIffAcyclic(g, order);
    PlanOrder.GreedyCount(g, order);
    if |order| < |g.nodes| {
      var cycle := PlanOrder.ExtractCycle(g, order);
      return Refused(ceilings, faults, cycle, []), g;
    }
    AllOrdersLater(g, order);
    if ceilings != [] {
      return Refused(ceilings, faults, [], []), g;
    }
    var ancestors := Closure.ComputeAncestors(g, order);
    var unordered := Closure.CollectUnorderedReads(g, ancestors, literals, unresolved);
    NothingUnordered(g, literals, unresolved, unordered);
    if otherFaults || faults != [] || unordered != [] {
      return Refused([], faults, [], unordered), g;
    }
    AcceptedReadsOrdered(g, order, literals, unresolved);
    Ceilings.EdgesBounded(spec, agents, g);
    AcceptedPlanIsBounded(spec, agents, g);
    Validation.FaultlessIsHonoured(spec, agents, registry, g);
    var branches := PinBranches(spec, g);
    r := Accepted(order, ancestors, branches);
  }

  lemma NothingUnordered(g: Dag, literals: map<Id, seq<Id>>, unresolved: set<Id>, issues: seq<(Id, Id)>)
    requires forall n, r :: (n, r) in issues <==> Closure.Unordered(g, literals, unresolved, n, r)
    ensures issues == [] <==> NoUnordered(g, literals, unresolved)
  {
    if issues == [] {
      forall n, r ensures !Closure.Unordered(g, literals, unresolved, n, r) {
        assert (n, r) !in issues;
      }
    } else {
      assert (issues[0].0, issues[0].1) in issues;
    }
  }
}
