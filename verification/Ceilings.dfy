/** Admission ceilings counted on the authored file, against the graph the builder wires from it. */
module Ceilings {
  import opened Collections
  import opened Graph
  import opened Workflow

  const MAX_NODES := 500
  const MAX_EDGES := 2000
  const MAX_FAN_OUT := 50
  const MAX_RETRY := 10
  const MAX_PARALLEL := 64

  type Pair = (Id, Id)

  function From(p: Id, targets: seq<Id>): (r: seq<Pair>)
    ensures |r| == |targets| && forall i :: 0 <= i < |r| ==> r[i] == (p, targets[i])
  {
    seq(|targets|, i requires 0 <= i < |targets| => (p, targets[i]))
  }

  function Into(producers: seq<Id>, c: Id): (r: seq<Pair>)
    ensures |r| == |producers| && forall i :: 0 <= i < |r| ==> r[i] == (producers[i], c)
  {
    seq(|producers|, i requires 0 <= i < |producers| => (producers[i], c))
  }

  /** The references that name a node of this workflow. */
  function Existing(refs: seq<Id>, ids: set<Id>): (r: seq<Id>)
    ensures |r| <= |refs| && forall x :: x in r <==> x in refs && x in ids
  {
    if refs == [] then []
    else
      var n := |refs| - 1;
      assert refs == refs[..n] + [refs[n]];
      Existing(refs[..n], ids) + if refs[n] in ids then [refs[n]] else []
  }

  function PromptRefs(node: Node, agents: Agents, ids: set<Id>): seq<Id> {
    if node.kind.Agent? && node.kind.agentRef in agents then Existing(agents[node.kind.agentRef], ids) else []
  }

  function RoutingTargets(kind: Kind): seq<Id> {
    match kind
    case Parallel(members) => members
    case Condition(branches, fallback) => Workflow.Targets(branches) + (if fallback.Some? then [fallback.value] else [])
    case _ => []
  }

  /** What the wiring pass attempts for one node: routing edges, prompt data edges, own data edges. */
  function NodeWires(node: Node, agents: Agents, ids: set<Id>): seq<Pair> {
    From(node.id, RoutingTargets(node.kind))
    + Into(PromptRefs(node, agents, ids), node.id)
    + Into(node.refs, node.id)
  }

  /** The text before the first `:`, which is where the wiring pass cuts an edge's source. */
  function Base(from: string): string {
    if from == [] || from[0] == ':' then [] else [from[0]] + Base(from[1..])
  }

  /** `split(':')`, which is how the ceiling pass cuts it. */
  function SplitColon(s: string): (parts: seq<string>)
    ensures parts != []
  {
    if s == [] then [[]]
    else
      var rest := SplitColon(s[1..]);
      if s[0] == ':' then [[]] + rest else [[s[0]] + rest[0]] + rest[1..]
  }

  lemma {:induction false} SplitAgreesWithBase(s: string)
    ensures SplitColon(s)[0] == Base(s)
  {
    if s != [] && s[0] != ':' {
      SplitAgreesWithBase(s[1..]);
    }
  }

  /** A handled edge is only validated; a plain edge out of a condition to a real node is refused. */
  function LinkWires(link: Link, kinds: map<Id, Kind>): seq<Pair> {
    var base := Id(Base(link.from));
    if ':' in link.from then []
    else if base in kinds && kinds[base].Condition? && link.to in kinds then []
    else [(base, link.to)]
  }

  /** Connects the builder's graph to a list of attempted edges: an attempt counts when both ends are nodes. */
  ghost predicate Holds(g: Dag, ids: set<Id>, wires: set<Pair>) {
    forall p, c :: Edge(g, p, c) <==> (p, c) in wires && p in ids && c in ids
  }

  method AddAll(b: GraphBuilder, wires: seq<Pair>, ghost before: set<Pair>)
    requires Wired(b.Value()) && Holds(b.Value(), Elems(b.nodes), before)
    modifies b
    ensures Wired(b.Value()) && Holds(b.Value(), Elems(b.nodes), before + Elems(wires))
  {
    ghost var done := before;
    for i := 0 to |wires|
      invariant done == before + Elems(wires[..i])
      invariant Wired(b.Value()) && Holds(b.Value(), Elems(b.nodes), done)
    {
      b.AddEdge(wires[i].0, wires[i].1);
      assert Elems(wires[..i+1]) == Elems(wires[..i]) + {wires[i]};
      done := done + {wires[i]};
    }
    assert wires[..|wires|] == wires;
  }

  /** What the first `n` structural edges attempt. */
  ghost function LinksWired(links: seq<Link>, kinds: map<Id, Kind>, n: nat): set<Pair>
    requires n <= |links|
  {
    set k, w | 0 <= k < n && w in LinkWires(links[k], kinds) :: w
  }

  /** What the first `n` nodes attempt. */
  ghost function NodesWired(nodes: seq<Node>, agents: Agents, ids: set<Id>, n: nat): set<Pair>
    requires n <= |nodes|
  {
    set k, w | 0 <= k < n && w in NodeWires(nodes[k], agents, ids) :: w
  }

  lemma LinksWiredNext(links: seq<Link>, kinds: map<Id, Kind>, n: nat)
    requires n < |links|
    ensures LinksWired(links, kinds, n + 1) == LinksWired(links, kinds, n) + Elems(LinkWires(links[n], kinds))
  {
  }

  lemma NodesWiredNext(nodes: seq<Node>, agents: Agents, ids: set<Id>, n: nat)
    requires n < |nodes|
    ensures NodesWired(nodes, agents, ids, n + 1) == NodesWired(nodes, agents, ids, n) + Elems(NodeWires(nodes[n], agents, ids))
  {
  }

  function Kinds(nodes: seq<Node>): (m: map<Id, Kind>)
    requires Distinct(Ids(nodes))
    ensures m.Keys == Elems(Ids(nodes))
    ensures forall i :: 0 <= i < |nodes| ==> m[Ids(nodes)[i]] == nodes[i].kind
  {
    map id | id in Ids(nodes) :: nodes[Position(Ids(nodes), id)].kind
  }

  ghost function AllWired(spec: Spec, agents: Agents): set<Pair>
    requires Distinct(Ids(spec.nodes))
  {
    LinksWired(spec.links, Kinds(spec.nodes), |spec.links|)
    + NodesWired(spec.nodes, agents, Elems(Ids(spec.nodes)), |spec.nodes|)
  }

  method WireLinks(b: GraphBuilder, links: seq<Link>, kinds: map<Id, Kind>)
    requires Wired(b.Value()) && Holds(b.Value(), Elems(b.nodes), {})
    modifies b
    ensures Wired(b.Value()) && Holds(b.Value(), Elems(b.nodes), LinksWired(links, kinds, |links|))
  {
    ghost var done: set<Pair> := {};
    for i := 0 to |links|
      invariant done == LinksWired(links, kinds, i)
      invariant Wired(b.Value()) && Holds(b.Value(), Elems(b.nodes), done)
    {
      var wires := LinkWires(links[i], kinds);
      AddAll(b, wires, done);
      LinksWiredNext(links, kinds, i);
      done := done + Elems(wires);
    }
  }

  method WireNodes(b: GraphBuilder, nodes: seq<Node>, agents: Agents, ids: set<Id>, ghost before: set<Pair>)
    requires Wired(b.Value()) && Holds(b.Value(), Elems(b.nodes), before)
    modifies b
    ensures Wired(b.Value()) && Holds(b.Value(), Elems(b.nodes), before + NodesWired(nodes, agents, ids, |nodes|))
  {
    for i := 0 to |nodes|
      invariant Wired(b.Value()) && Holds(b.Value(), Elems(b.nodes), before + NodesWired(nodes, agents, ids, i))
    {
      ghost var done := NodesWired(nodes, agents, ids, i);
      AddAll(b, NodeWires(nodes[i], agents, ids), before + done);
      NodesWiredNext(nodes, agents, ids, i);
      assert before + done + Elems(NodeWires(nodes[i], agents, ids)) == before + NodesWired(nodes, agents, ids, i + 1);
    }
  }

  /** The wiring pass: structural edges first, then each node's routing and data edges. */
  method Wire(spec: Spec, agents: Agents) returns (b: GraphBuilder)
    requires Distinct(Ids(spec.nodes))
    ensures fresh(b) && Wired(b.Value()) && b.nodes == Ids(spec.nodes)
    ensures Holds(b.Value(), Elems(Ids(spec.nodes)), AllWired(spec, agents))
  {
    b := new GraphBuilder(Ids(spec.nodes));
    var kinds, ids := Kinds(spec.nodes), Elems(Ids(spec.nodes));
    WireLinks(b, spec.links, kinds);
    WireNodes(b, spec.nodes, agents, ids, LinksWired(spec.links, kinds, |spec.links|));
  }

  // The ceiling pass, which never sees the graph.

  /** One node's share of the edge total. */
  function NodeCount(node: Node, agents: Agents, ids: set<Id>): nat {
    var data := |Existing(node.refs, ids)| + |PromptRefs(node, agents, ids)|;
    match node.kind
    case Parallel(members) => |members| + data
    case Condition(branches, fallback) => |branches| + (if fallback.None? then 0 else 1) + data
    case _ => data
  }

  function CountMaterialised(nodes: seq<Node>, agents: Agents, ids: set<Id>): nat {
    if nodes == [] then 0
    else CountMaterialised(nodes[..|nodes|-1], agents, ids) + NodeCount(nodes[|nodes|-1], agents, ids)
  }

  /** The targets one node or one edge contributes to fan-out widths; a condition's branches do not count. */
  function NodeTargets(node: Node, agents: Agents, ids: set<Id>): seq<Pair> {
    (if node.kind.Parallel? then From(node.id, node.kind.members) else [])
    + Into(Existing(node.refs, ids), node.id)
    + Into(PromptRefs(node, agents, ids), node.id)
  }

  function LinkTarget(link: Link): Pair {
    (Id(SplitColon(link.from)[0]), link.to)
  }

  ghost predicate Targets(spec: Spec, agents: Agents, ids: set<Id>, p: Id, t: Id) {
    || (exists k :: 0 <= k < |spec.nodes| && (p, t) in NodeTargets(spec.nodes[k], agents, ids))
    || (exists k :: 0 <= k < |spec.links| && (p, t) == LinkTarget(spec.links[k]))
  }

  ghost predicate Recorded(out: map<Id, set<Id>>, w: Pair) {
    w.0 in out && w.1 in out[w.0]
  }

  /** The fan-out map with one more target. */
  function WithTarget(out: map<Id, set<Id>>, w: Pair): map<Id, set<Id>> {
    out[w.0 := (if w.0 in out then out[w.0] else {}) + {w.1}]
  }

  lemma TargetRecorded(out: map<Id, set<Id>>, w: Pair, x: Pair)
    ensures Recorded(WithTarget(out, w), x) <==> Recorded(out, x) || x == w
  {
  }

  method AddTargets(out: map<Id, set<Id>>, wires: seq<Pair>) returns (r: map<Id, set<Id>>)
    ensures forall w :: Recorded(r, w) <==> Recorded(out, w) || w in wires
  {
    r := out;
    for i := 0 to |wires|
      invariant forall w :: Recorded(r, w) <==> Recorded(out, w) || w in wires[..i]
    {
      ghost var before := r;
      r := WithTarget(r, wires[i]);
      forall w ensures Recorded(r, w) <==> Recorded(out, w) || w in wires[..i+1] {
        TargetRecorded(before, wires[i], w);
        assert wires[..i+1] == wires[..i] + [wires[i]];
      }
    }
    assert wires[..|wires|] == wires;
  }

  method BuildOutTargets(spec: Spec, agents: Agents, ids: set<Id>) returns (out: map<Id, set<Id>>)
    ensures Records(spec, agents, ids, out)
  {
    out := map[];
    for i := 0 to |spec.nodes|
      invariant forall w :: Recorded(out, w) <==>
        exists k :: 0 <= k < i && w in NodeTargets(spec.nodes[k], agents, ids)
    {
      out := AddTargets(out, NodeTargets(spec.nodes[i], agents, ids));
    }
    for i := 0 to |spec.links|
      invariant forall w :: Recorded(out, w) <==>
        || (exists k :: 0 <= k < |spec.nodes| && w in NodeTargets(spec.nodes[k], agents, ids))
        || (exists k :: 0 <= k < i && w == LinkTarget(spec.links[k]))
    {
      out := AddTargets(out, [LinkTarget(spec.links[i])]);
    }
  }

  datatype Issue =
    | TooManyNodes(n: nat) | TooManyEdges(n: nat) | TooWide(node: Id, width: nat)
    | TooManyRetries(node: Id, retry: nat) | TooParallel(n: nat)

  /** Within every ceiling, as counted on the authored file. */
  ghost predicate WithinCeilings(spec: Spec, agents: Agents, ids: set<Id>, out: map<Id, set<Id>>) {
    && |spec.nodes| <= MAX_NODES
    && |spec.links| + CountMaterialised(spec.nodes, agents, ids) <= MAX_EDGES
    && (forall p :: p in out ==> |out[p]| <= MAX_FAN_OUT)
    && (forall n :: n in spec.nodes && n.retry.Some? ==> n.retry.value <= MAX_RETRY)
    && (spec.maxParallel.Some? ==> spec.maxParallel.value <= MAX_PARALLEL)
  }

  ghost predicate Records(spec: Spec, agents: Agents, ids: set<Id>, out: map<Id, set<Id>>) {
    forall p, t :: Recorded(out, (p, t)) <==> Targets(spec, agents, ids, p, t)
  }

  /** The document is within every ceiling. */
  ghost predicate Admitted(spec: Spec, agents: Agents) {
    exists out :: Records(spec, agents, Elems(Ids(spec.nodes)), out) && WithinCeilings(spec, agents, Elems(Ids(spec.nodes)), out)
  }

  /** The fan-out map is determined by what it records, up to vertices that feed nothing. */
  lemma WidthsAgree(spec: Spec, agents: Agents, ids: set<Id>, out: map<Id, set<Id>>, other: map<Id, set<Id>>)
    requires Records(spec, agents, ids, out) && Records(spec, agents, ids, other)
    requires WithinCeilings(spec, agents, ids, other)
    ensures WithinCeilings(spec, agents, ids, out)
  {
    forall p | p in out ensures |out[p]| <= MAX_FAN_OUT {
      if out[p] != {} {
        var c :| c in out[p];
        assert Recorded(out, (p, c)) && Targets(spec, agents, ids, p, c);
        assert Recorded(other, (p, c));
        forall t | t in out[p] ensures t in other[p] {
          assert Recorded(out, (p, t)) && Targets(spec, agents, ids, p, t);
          assert Recorded(other, (p, t));
        }
        SubsetCardinality(out[p], other[p]);
      }
    }
  }

  /** What each reported issue says of the document. */
  ghost predicate Exceeds(spec: Spec, agents: Agents, ids: set<Id>, out: map<Id, set<Id>>, issue: Issue) {
    match issue
    case TooManyNodes(n) => n == |spec.nodes| > MAX_NODES
    case TooManyEdges(n) => n == |spec.links| + CountMaterialised(spec.nodes, agents, ids) > MAX_EDGES
    case TooWide(p, width) => Wide(out, p, width)
    case TooManyRetries(id, retry) => retry > MAX_RETRY && Retries(spec.nodes, id, retry)
    case TooParallel(n) => spec.maxParallel == Some(n) && n > MAX_PARALLEL
  }

  ghost predicate Retries(nodes: seq<Node>, id: Id, retry: nat) {
    exists i :: 0 <= i < |nodes| && nodes[i].id == id && nodes[i].retry == Some(retry)
  }

  ghost predicate Wide(out: map<Id, set<Id>>, p: Id, width: nat) {
    p in out && width == |out[p]| > MAX_FAN_OUT
  }

  lemma NoIssueMeansWithin(spec: Spec, agents: Agents, ids: set<Id>, out: map<Id, set<Id>>, issues: seq<Issue>)
    requires forall i :: i in issues <==> Exceeds(spec, agents, ids, out, i)
    ensures issues == [] <==> WithinCeilings(spec, agents, ids, out)
  {
    if issues == [] {
      assert !Exceeds(spec, agents, ids, out, TooManyNodes(|spec.nodes|));
      assert !Exceeds(spec, agents, ids, out, TooManyEdges(|spec.links| + CountMaterialised(spec.nodes, agents, ids)));
      forall p | p in out ensures |out[p]| <= MAX_FAN_OUT {
        assert !Exceeds(spec, agents, ids, out, TooWide(p, |out[p]|));
      }
      forall n | n in spec.nodes && n.retry.Some? ensures n.retry.value <= MAX_RETRY {
        assert !Exceeds(spec, agents, ids, out, TooManyRetries(n.id, n.retry.value));
      }
      if spec.maxParallel.Some? { assert !Exceeds(spec, agents, ids, out, TooParallel(spec.maxParallel.value)); }
    } else {
      assert issues[0] in issues;
    }
  }

  method WidthIssues(out: map<Id, set<Id>>) returns (issues: seq<Issue>)
    ensures forall i :: i in issues <==> i.TooWide? && Wide(out, i.node, i.width)
  {
    issues := [];
    var todo := out.Keys;
    while todo != {}
      invariant todo <= out.Keys
      invariant forall i :: i in issues <==> i.TooWide? && i.node !in todo && Wide(out, i.node, i.width)
      decreases todo
    {
      var p :| p in todo;
      todo := todo - {p};
      if |out[p]| > MAX_FAN_OUT {
        issues := issues + [TooWide(p, |out[p]|)];
      }
    }
  }

  method RetryIssues(nodes: seq<Node>) returns (issues: seq<Issue>)
    ensures forall i :: i in issues <==> i.TooManyRetries? && i.retry > MAX_RETRY && Retries(nodes, i.node, i.retry)
  {
    issues := [];
    for k := 0 to |nodes|
      invariant forall i :: i in issues <==> i.TooManyRetries? && i.retry > MAX_RETRY && Retries(nodes[..k], i.node, i.retry)
    {
      var node := nodes[k];
      RetriesSnoc(nodes, k);
      if node.retry.Some? && node.retry.value > MAX_RETRY {
        issues := issues + [TooManyRetries(node.id, node.retry.value)];
      }
    }
    assert nodes[..|nodes|] == nodes;
  }

  lemma RetriesSnoc(nodes: seq<Node>, k: nat)
    requires k < |nodes|
    ensures forall id, retry: nat :: Retries(nodes[..k+1], id, retry) <==>
              Retries(nodes[..k], id, retry) || (nodes[k].id == id && nodes[k].retry == Some(retry))
  {
    forall id, retry: nat | Retries(nodes[..k], id, retry) ensures Retries(nodes[..k+1], id, retry) {
      var i :| 0 <= i < k && nodes[..k][i].id == id && nodes[..k][i].retry == Some(retry);
      assert nodes[..k+1][i] == nodes[..k][i];
    }
    assert nodes[..k+1][k] == nodes[k];
  }

  method CollectCeilingIssues(spec: Spec, agents: Agents) returns (issues: seq<Issue>, out: map<Id, set<Id>>)
    ensures Records(spec, agents, Elems(Ids(spec.nodes)), out)
    ensures forall i :: i in issues <==> Exceeds(spec, agents, Elems(Ids(spec.nodes)), out, i)
    ensures issues == [] <==> WithinCeilings(spec, agents, Elems(Ids(spec.nodes)), out)
    ensures issues == [] <==> Admitted(spec, agents)
    ensures issues == [] <==> WithinLimits(spec, agents)
  {
    var ids := Elems(Ids(spec.nodes));
    issues := [];
    if |spec.nodes| > MAX_NODES {
      issues := issues + [TooManyNodes(|spec.nodes|)];
    }
    var total := |spec.links| + CountMaterialised(spec.nodes, agents, ids);
    if total > MAX_EDGES {
      issues := issues + [TooManyEdges(total)];
    }
    out := BuildOutTargets(spec, agents, ids);
    var wide := WidthIssues(out);
    var retries := RetryIssues(spec.nodes);
    issues := issues + wide + retries;
    if spec.maxParallel.Some? && spec.maxParallel.value > MAX_PARALLEL {
      issues := issues + [TooParallel(spec.maxParallel.value)];
    }
    NoIssueMeansWithin(spec, agents, ids, out, issues);
    RecordedIsWithin(spec, agents, out);
    if other :| Records(spec, agents, ids, other) && WithinCeilings(spec, agents, ids, other) {
      WidthsAgree(spec, agents, ids, out, other);
    }
  }

  // The counters over-approximate the graph.

  ghost function EdgeSet(g: Dag): set<Pair> {
    set c, p | c in g.deps && p in g.deps[c] :: (p, c)
  }

  ghost predicate Between(ids: set<Id>, w: Pair) {
    w.0 in ids && w.1 in ids
  }

  lemma ElemsCardinality<T>(s: seq<T>)
    ensures |Elems(s)| <= |s|
  {
    if s != [] {
      var n := |s| - 1;
      ElemsCardinality(s[..n]);
      assert Elems(s) == Elems(s[..n]) + {s[n]};
    } else {
      assert Elems(s) == {};
    }
  }

  lemma UnionCardinality<T>(a: set<T>, b: set<T>)
    ensures |a + b| <= |a| + |b|
  {
  }

  /** The edges one node materialises, with dangling own references dropped. */
  function NodeEdges(node: Node, agents: Agents, ids: set<Id>): seq<Pair> {
    From(node.id, RoutingTargets(node.kind))
    + Into(PromptRefs(node, agents, ids), node.id)
    + Into(Existing(node.refs, ids), node.id)
  }

  lemma NodeEdgesCover(node: Node, agents: Agents, ids: set<Id>, w: Pair)
    requires w in NodeWires(node, agents, ids) && Between(ids, w)
    ensures w in NodeEdges(node, agents, ids)
  {
  }

  lemma NodeEdgesCount(node: Node, agents: Agents, ids: set<Id>)
    ensures |NodeEdges(node, agents, ids)| == NodeCount(node, agents, ids)
  {
  }

  lemma NodeEdgesSize(node: Node, agents: Agents, ids: set<Id>)
    ensures |Elems(NodeEdges(node, agents, ids))| <= NodeCount(node, agents, ids)
  {
    ElemsCardinality(NodeEdges(node, agents, ids));
    NodeEdgesCount(node, agents, ids);
  }

  /** `cover` holds what the first `n` nodes wire between nodes. */
  ghost predicate Covers(nodes: seq<Node>, agents: Agents, ids: set<Id>, n: nat, cover: set<Pair>)
    requires n <= |nodes|
  {
    forall w :: w in NodesWired(nodes, agents, ids, n) && Between(ids, w) ==> w in cover
  }

  lemma CoversNext(nodes: seq<Node>, agents: Agents, ids: set<Id>, n: nat, rest: set<Pair>)
    requires n < |nodes| && Covers(nodes, agents, ids, n, rest)
    ensures Covers(nodes, agents, ids, n + 1, rest + Elems(NodeEdges(nodes[n], agents, ids)))
  {
    NodesWiredNext(nodes, agents, ids, n);
    forall w | w in NodesWired(nodes, agents, ids, n + 1) && Between(ids, w) && w !in NodesWired(nodes, agents, ids, n)
      ensures w in Elems(NodeEdges(nodes[n], agents, ids))
    {
      NodeEdgesCover(nodes[n], agents, ids, w);
    }
  }

  lemma CountNext(nodes: seq<Node>, agents: Agents, ids: set<Id>, n: nat)
    requires n < |nodes|
    ensures CountMaterialised(nodes[..n+1], agents, ids) == CountMaterialised(nodes[..n], agents, ids) + NodeCount(nodes[n], agents, ids)
  {
    assert nodes[..n+1] == nodes[..n] + [nodes[n]];
    CountAdds(nodes[..n], nodes[n], agents, ids);
  }

  lemma {:induction false} NodesBound(nodes: seq<Node>, agents: Agents, ids: set<Id>, n: nat) returns (cover: set<Pair>)
    requires n <= |nodes|
    ensures Covers(nodes, agents, ids, n, cover) && |cover| <= CountMaterialised(nodes[..n], agents, ids)
  {
    if n == 0 {
      cover := {};
    } else {
      var rest := NodesBound(nodes, agents, ids, n - 1);
      var mine := Elems(NodeEdges(nodes[n-1], agents, ids));
      CoversNext(nodes, agents, ids, n - 1, rest);
      NodeEdgesSize(nodes[n-1], agents, ids);
      UnionCardinality(rest, mine);
      CountNext(nodes, agents, ids, n - 1);
      cover := rest + mine;
    }
  }

  lemma OneLinkWire(link: Link, kinds: map<Id, Kind>)
    ensures |Elems(LinkWires(link, kinds))| <= 1
  {
    ElemsCardinality(LinkWires(link, kinds));
  }

  lemma {:induction false} LinksBound(links: seq<Link>, kinds: map<Id, Kind>, n: nat)
    requires n <= |links|
    ensures |LinksWired(links, kinds, n)| <= n
  {
    if n == 0 {
      assert LinksWired(links, kinds, 0) == {};
    } else {
      var rest, mine := LinksWired(links, kinds, n - 1), Elems(LinkWires(links[n-1], kinds));
      LinksBound(links, kinds, n - 1);
      OneLinkWire(links[n-1], kinds);
      UnionCardinality(rest, mine);
      LinksWiredNext(links, kinds, n - 1);
    }
  }

  lemma EdgesBounded(spec: Spec, agents: Agents, g: Dag)
    requires Distinct(Ids(spec.nodes)) && Holds(g, Elems(Ids(spec.nodes)), AllWired(spec, agents))
    ensures |EdgeSet(g)| <= |spec.links| + CountMaterialised(spec.nodes, agents, Elems(Ids(spec.nodes)))
  {
    var ids, kinds := Elems(Ids(spec.nodes)), Kinds(spec.nodes);
    var cover := NodesBound(spec.nodes, agents, ids, |spec.nodes|);
    LinksBound(spec.links, kinds, |spec.links|);
    var wired := LinksWired(spec.links, kinds, |spec.links|);
    UnionCardinality(wired, cover);
    assert spec.nodes[..|spec.nodes|] == spec.nodes;
    assert EdgeSet(g) <= wired + cover by {
      forall w | w in EdgeSet(g) ensures w in wired + cover { assert Edge(g, w.0, w.1); }
    }
    SubsetCardinality(EdgeSet(g), wired + cover);
  }

  // The ceilings in the document's own terms.

  /** The edge source names this node: its text is the id, alone or before the first `:`. */
  ghost predicate Names(from: string, id: Id) {
    ':' !in id.text && (from == id.text || (|from| > |id.text| && from[..|id.text|] == id.text && from[|id.text|] == ':'))
  }

  lemma NamesHead(from: string, id: Id)
    requires Names(from, id) && id.text != []
    ensures from != [] && from[0] != ':'
  {
    assert from[..|id.text|][0] == id.text[0];
  }

  lemma {:induction false} BaseNames(from: string, id: Id)
    ensures Base(from) == id.text <==> Names(from, id)
  {
    if from == [] || from[0] == ':' {
      if id.text != [] && Names(from, id) { NamesHead(from, id); }
    } else if id.text != [] {
      var rest, tail := from[1..], Id(id.text[1..]);
      BaseNames(rest, tail);
      assert from == [from[0]] + rest && id.text == [id.text[0]] + tail.text;
      if |from| >= |id.text| { assert from[..|id.text|] == [from[0]] + rest[..|tail.text|]; }
    }
  }

  /** `t` runs when `p` finishes: it is a member of the parallel `p`, reads its output, or an edge leads there. */
  ghost predicate Widens(spec: Spec, agents: Agents, p: Id, t: Id) {
    || (exists i :: 0 <= i < |spec.nodes| && spec.nodes[i].id == p && spec.nodes[i].kind.Parallel? && t in spec.nodes[i].kind.members)
    || (p in Elems(Ids(spec.nodes)) && exists i :: 0 <= i < |spec.nodes| && spec.nodes[i].id == t && Reads(spec.nodes[i], agents, p))
    || (exists k :: 0 <= k < |spec.links| && Names(spec.links[k].from, p) && spec.links[k].to == t)
  }

  /** The node's own fields, or its resolved agent's system prompt, read this output. */
  ghost predicate Reads(node: Node, agents: Agents, p: Id) {
    p in node.refs || (node.kind.Agent? && node.kind.agentRef in agents && p in agents[node.kind.agentRef])
  }

  lemma FromHolds(from: Id, targets: seq<Id>, p: Id, c: Id)
    ensures (p, c) in From(from, targets) <==> p == from && c in targets
  {
    if p == from && c in targets {
      var i :| 0 <= i < |targets| && targets[i] == c;
      assert From(from, targets)[i] == (p, c);
    }
  }

  lemma IntoHolds(producers: seq<Id>, to: Id, p: Id, c: Id)
    ensures (p, c) in Into(producers, to) <==> c == to && p in producers
  {
    if c == to && p in producers {
      var i :| 0 <= i < |producers| && producers[i] == p;
      assert Into(producers, to)[i] == (p, c);
    }
  }

  lemma NodeWidens(node: Node, agents: Agents, ids: set<Id>, p: Id, t: Id)
    ensures (p, t) in NodeTargets(node, agents, ids) <==>
              (node.id == p && node.kind.Parallel? && t in node.kind.members) || (p in ids && node.id == t && Reads(node, agents, p))
  {
    if node.kind.Parallel? { FromHolds(node.id, node.kind.members, p, t); }
    IntoHolds(Existing(node.refs, ids), node.id, p, t);
    IntoHolds(PromptRefs(node, agents, ids), node.id, p, t);
  }

  lemma LinkWidens(link: Link, p: Id, t: Id)
    ensures (p, t) == LinkTarget(link) <==> Names(link.from, p) && link.to == t
  {
    SplitAgreesWithBase(link.from);
    BaseNames(link.from, p);
  }

  /** The fan-out map holds exactly what widens each node. */
  lemma TargetsWiden(spec: Spec, agents: Agents, p: Id, t: Id)
    ensures Targets(spec, agents, Elems(Ids(spec.nodes)), p, t) <==> Widens(spec, agents, p, t)
  {
    var ids := Elems(Ids(spec.nodes));
    forall k | 0 <= k < |spec.nodes|
      ensures (p, t) in NodeTargets(spec.nodes[k], agents, ids) <==>
                || (spec.nodes[k].id == p && spec.nodes[k].kind.Parallel? && t in spec.nodes[k].kind.members)
                || (p in ids && spec.nodes[k].id == t && Reads(spec.nodes[k], agents, p))
    {
      NodeWidens(spec.nodes[k], agents, ids, p, t);
    }
    forall k | 0 <= k < |spec.links|
      ensures (p, t) == LinkTarget(spec.links[k]) <==> Names(spec.links[k].from, p) && spec.links[k].to == t
    {
      LinkWidens(spec.links[k], p, t);
    }
  }

  /** The positions at which `refs` names a node of the workflow. */
  ghost function Places(refs: seq<Id>, ids: set<Id>): set<int> {
    set i | 0 <= i < |refs| && refs[i] in ids
  }

  lemma PlacesNext(refs: seq<Id>, ids: set<Id>)
    requires refs != []
    ensures var n := |refs| - 1;
            |Places(refs, ids)| == |Places(refs[..n], ids)| + if refs[n] in ids then 1 else 0
  {
    var n := |refs| - 1;
    assert Places(refs, ids) == Places(refs[..n], ids) + if refs[n] in ids then {n} else {};
  }

  lemma {:induction false} ExistingCount(refs: seq<Id>, ids: set<Id>)
    ensures |Existing(refs, ids)| == |Places(refs, ids)|
  {
    if refs == [] {
      assert Places(refs, ids) == {};
    } else {
      var n := |refs| - 1;
      ExistingCount(refs[..n], ids);
      PlacesNext(refs, ids);
    }
  }

  /** One node's share of the edge total: each routing entry, and each reference to a node as often as it is written. */
  lemma NodeCountIs(node: Node, agents: Agents, ids: set<Id>)
    ensures NodeCount(node, agents, ids) ==
              (match node.kind
               case Parallel(members) => |members|
               case Condition(branches, fallback) => |branches| + if fallback.Some? then 1 else 0
               case _ => 0)
              + |Places(node.refs, ids)|
              + if node.kind.Agent? && node.kind.agentRef in agents then |Places(agents[node.kind.agentRef], ids)| else 0
  {
    ExistingCount(node.refs, ids);
    if node.kind.Agent? && node.kind.agentRef in agents { ExistingCount(agents[node.kind.agentRef], ids); }
  }

  /** The total adds up the shares. */
  lemma CountAdds(nodes: seq<Node>, node: Node, agents: Agents, ids: set<Id>)
    ensures CountMaterialised([], agents, ids) == 0
    ensures CountMaterialised(nodes + [node], agents, ids) == CountMaterialised(nodes, agents, ids) + NodeCount(node, agents, ids)
  {
    assert (nodes + [node])[..|nodes|] == nodes;
  }

  /** No more than fifty targets run when `p` finishes. */
  ghost predicate Narrow(spec: Spec, agents: Agents, p: Id) {
    forall s: set<Id> :: AllWiden(spec, agents, p, s) ==> |s| <= 50
  }

  ghost predicate AllWiden(spec: Spec, agents: Agents, p: Id, s: set<Id>) {
    forall t :: t in s ==> Widens(spec, agents, p, t)
  }

  lemma RecordedIsNarrow(spec: Spec, agents: Agents, out: map<Id, set<Id>>, p: Id)
    requires Records(spec, agents, Elems(Ids(spec.nodes)), out)
    ensures Narrow(spec, agents, p) <==> p in out ==> |out[p]| <= MAX_FAN_OUT
  {
    forall t ensures Recorded(out, (p, t)) <==> Widens(spec, agents, p, t) { TargetsWiden(spec, agents, p, t); }
    if p in out {
      forall t | t in out[p] ensures Widens(spec, agents, p, t) { assert Recorded(out, (p, t)); }
      assert AllWiden(spec, agents, p, out[p]);
    }
    forall s | AllWiden(spec, agents, p, s) ensures p in out ==> |s| <= |out[p]|
      ensures p !in out ==> s == {}
    {
      forall t | t in s ensures Recorded(out, (p, t)) { assert Widens(spec, agents, p, t); }
      if p in out { SubsetCardinality(s, out[p]); }
    }
  }

  /** What admission means, with every ceiling as its number. */
  ghost predicate WithinLimits(spec: Spec, agents: Agents) {
    && |spec.nodes| <= 500
    && |spec.links| + CountMaterialised(spec.nodes, agents, Elems(Ids(spec.nodes))) <= 2000
    && (forall p :: Narrow(spec, agents, p))
    && (forall i :: 0 <= i < |spec.nodes| && spec.nodes[i].retry.Some? ==> spec.nodes[i].retry.value <= 10)
    && (spec.maxParallel.Some? ==> spec.maxParallel.value <= 64)
  }

  lemma RecordedIsWithin(spec: Spec, agents: Agents, out: map<Id, set<Id>>)
    requires Records(spec, agents, Elems(Ids(spec.nodes)), out)
    ensures WithinCeilings(spec, agents, Elems(Ids(spec.nodes)), out) <==> WithinLimits(spec, agents)
  {
    forall p ensures Narrow(spec, agents, p) <==> p in out ==> |out[p]| <= MAX_FAN_OUT { RecordedIsNarrow(spec, agents, out, p); }
  }
}
