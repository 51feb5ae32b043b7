/** The authored references the wiring pass checks: edge ends, branch handles, routing targets and agents. */
module Validation {
  import opened Collections
  import opened Graph
  import opened Workflow
  import Ceilings

  /** A refused reference, by the position of its edge or node in the document. */
  datatype Fault =
    | UnknownSource(edge: nat) | UnknownTarget(edge: nat) | InvalidHandle(edge: nat) | MismatchedTarget(edge: nat)
    | UnknownMember(node: nat, at: nat) | UnknownDefault(node: nat) | DanglingAgent(node: nat)

  /** What follows the first `:`. */
  function Handle(from: string): string {
    if from == [] then [] else if from[0] == ':' then from[1..] else Handle(from[1..])
  }

  /** A handle names a branch by its text, or by any text for the same number when that was authored as one. */
  predicate Names(b: Branch, handle: string, numbers: map<string, real>) {
    b.when == handle || (b.numeric && b.when in numbers && handle in numbers && numbers[b.when] == numbers[handle])
  }

  /** The first branch a handle names, or the number of branches when it names none. */
  function FindBranch(branches: seq<Branch>, handle: string, numbers: map<string, real>): (k: nat)
    ensures k <= |branches| && (k < |branches| ==> Names(branches[k], handle, numbers))
    ensures forall j :: 0 <= j < k ==> !Names(branches[j], handle, numbers)
  {
    if branches == [] then 0
    else if Names(branches[0], handle, numbers) then 0
    else 1 + FindBranch(branches[1..], handle, numbers)
  }

  /** The members a node routes to, its default aside. */
  function Members(kind: Kind): seq<Id> {
    match kind
    case Parallel(members) => members
    case Condition(branches, _) => Workflow.Targets(branches)
    case _ => []
  }

  ghost predicate LinkFault(kinds: map<Id, Kind>, numbers: map<string, real>, link: Link, f: Fault) {
    var base, handled := Id(Ceilings.Base(link.from)), ':' in link.from;
    match f
    case UnknownSource(_) => base !in kinds
    case UnknownTarget(_) => link.to !in kinds
    case InvalidHandle(_) =>
      && base in kinds
      && if !handled then kinds[base].Condition? && link.to in kinds
         else !(kinds[base].Condition? && exists b :: b in kinds[base].branches && Names(b, Handle(link.from), numbers))
    case MismatchedTarget(_) =>
      && handled && base in kinds && kinds[base].Condition?
      && var k := FindBranch(kinds[base].branches, Handle(link.from), numbers);
         k < |kinds[base].branches| && kinds[base].branches[k].target != link.to
    case _ => false
  }

  ghost predicate NodeFault(kinds: map<Id, Kind>, agents: Agents, registry: bool, node: Node, f: Fault) {
    match f
    case UnknownMember(_, at) => at < |Members(node.kind)| && Members(node.kind)[at] !in kinds
    case UnknownDefault(_) => node.kind.Condition? && node.kind.fallback.Some? && node.kind.fallback.value !in kinds
    case DanglingAgent(_) => registry && node.kind.Agent? && node.kind.agentRef !in agents
    case _ => false
  }

  predicate OfLink(f: Fault) {
    f.UnknownSource? || f.UnknownTarget? || f.InvalidHandle? || f.MismatchedTarget?
  }

  /** The document has this fault. */
  ghost predicate Faulty(spec: Spec, kinds: map<Id, Kind>, agents: Agents, registry: bool, f: Fault) {
    if OfLink(f) then f.edge < |spec.links| && LinkFault(kinds, spec.numbers, spec.links[f.edge], f)
    else f.node < |spec.nodes| && NodeFault(kinds, agents, registry, spec.nodes[f.node], f)
  }

  method LinkFaults(kinds: map<Id, Kind>, numbers: map<string, real>, link: Link, k: nat) returns (fs: seq<Fault>)
    ensures forall f :: f in fs <==> OfLink(f) && f.edge == k && LinkFault(kinds, numbers, link, f)
  {
    fs := [];
    var base := Id(Ceilings.Base(link.from));
    if base !in kinds {
      fs := fs + [UnknownSource(k)];
    }
    if link.to !in kinds {
      fs := fs + [UnknownTarget(k)];
    }
    if ':' in link.from {
      if base in kinds {
        var more := HandleFaults(kinds[base], Handle(link.from), numbers, link.to, k);
        fs := fs + more;
      }
    } else if base in kinds && kinds[base].Condition? && link.to in kinds {
      fs := fs + [InvalidHandle(k)];
    }
  }

  method HandleFaults(kind: Kind, handle: string, numbers: map<string, real>, to: Id, k: nat) returns (fs: seq<Fault>)
    ensures forall f :: f in fs <==>
              || (f == InvalidHandle(k) && !(kind.Condition? && exists b :: b in kind.branches && Names(b, handle, numbers)))
              || (f == MismatchedTarget(k) && kind.Condition?
                  && var j := FindBranch(kind.branches, handle, numbers); j < |kind.branches| && kind.branches[j].target != to)
  {
    if !kind.Condition? {
      return [InvalidHandle(k)];
    }
    var j := FindBranch(kind.branches, handle, numbers);
    if j == |kind.branches| {
      return [InvalidHandle(k)];
    }
    assert kind.branches[j] in kind.branches;
    fs := if kind.branches[j].target != to then [MismatchedTarget(k)] else [];
  }

  method MemberFaults(kinds: map<Id, Kind>, members: seq<Id>, i: nat) returns (fs: seq<Fault>)
    ensures forall f :: f in fs <==> f.UnknownMember? && f.node == i && f.at < |members| && members[f.at] !in kinds
  {
    fs := [];
    for j := 0 to |members|
      invariant forall f :: f in fs <==> f.UnknownMember? && f.node == i && f.at < j && members[f.at] !in kinds
    {
      if members[j] !in kinds {
        fs := fs + [UnknownMember(i, j)];
      }
    }
  }

  method NodeFaults(kinds: map<Id, Kind>, agents: Agents, registry: bool, node: Node, i: nat) returns (fs: seq<Fault>)
    ensures forall f :: f in fs <==> !OfLink(f) && f.node == i && NodeFault(kinds, agents, registry, node, f)
  {
    fs := MemberFaults(kinds, Members(node.kind), i);
    if node.kind.Condition? && node.kind.fallback.Some? && node.kind.fallback.value !in kinds {
      fs := fs + [UnknownDefault(i)];
    }
    if registry && node.kind.Agent? && node.kind.agentRef !in agents {
      fs := fs + [DanglingAgent(i)];
    }
  }

  /** Reports exactly the faults of the document's references. */
  method CollectFaults(spec: Spec, kinds: map<Id, Kind>, agents: Agents, registry: bool) returns (fs: seq<Fault>)
    ensures forall f :: f in fs <==> Faulty(spec, kinds, agents, registry, f)
  {
    fs := [];
    for k := 0 to |spec.links|
      invariant forall f :: f in fs <==> OfLink(f) && f.edge < k && Faulty(spec, kinds, agents, registry, f)
    {
      var more := LinkFaults(kinds, spec.numbers, spec.links[k], k);
      fs := fs + more;
    }
    for i := 0 to |spec.nodes|
      invariant forall f :: f in fs <==> (OfLink(f) || f.node < i) && Faulty(spec, kinds, agents, registry, f)
    {
      var more := NodeFaults(kinds, agents, registry, spec.nodes[i], i);
      fs := fs + more;
    }
  }

  ghost predicate NoFaults(spec: Spec, kinds: map<Id, Kind>, agents: Agents, registry: bool) {
    forall f :: !Faulty(spec, kinds, agents, registry, f)
  }

  lemma EmptyMeansNoFaults(spec: Spec, kinds: map<Id, Kind>, agents: Agents, registry: bool, fs: seq<Fault>)
    requires forall f :: f in fs <==> Faulty(spec, kinds, agents, registry, f)
    ensures fs == [] <==> NoFaults(spec, kinds, agents, registry)
  {
    if fs != [] { assert fs[0] in fs; }
  }

  // What it means for a document to have no faults, in its own terms.

  /** The handle answers to the branch's text, or reads as the number the branch was authored as. */
  ghost predicate Answers(b: Branch, handle: string, numbers: map<string, real>) {
    handle == b.when || (b.numeric && handle in numbers && b.when in numbers && numbers[handle] == numbers[b.when])
  }

  /** The first branch the handle answers to leads to `to`. */
  ghost predicate LeadsTo(branches: seq<Branch>, handle: string, numbers: map<string, real>, to: Id) {
    exists j :: 0 <= j < |branches| && Answers(branches[j], handle, numbers) && branches[j].target == to
                && forall i :: 0 <= i < j ==> !Answers(branches[i], handle, numbers)
  }

  /** Both ends are nodes; a plain edge leaves no condition, and a handled one follows its condition's branch. */
  ghost predicate LinkInOrder(kinds: map<Id, Kind>, numbers: map<string, real>, link: Link) {
    && link.to in kinds
    && (':' !in link.from ==> Id(link.from) in kinds && !kinds[Id(link.from)].Condition?)
    && forall base: string, handle: string :: link.from == base + ":" + handle && ':' !in base ==>
         Id(base) in kinds && kinds[Id(base)].Condition? && LeadsTo(kinds[Id(base)].branches, handle, numbers, link.to)
  }

  lemma {:induction false} HandleIsRest(from: string)
    requires ':' in from
    ensures from == Ceilings.Base(from) + ":" + Handle(from) && ':' !in Ceilings.Base(from)
  {
    if from[0] != ':' {
      HandleIsRest(from[1..]);
      assert from == [from[0]] + from[1..];
    }
  }

  lemma HeadOf(x: string, y: string)
    requires x != []
    ensures (x + ":" + y)[0] == x[0]
  {
  }

  lemma {:induction false} SplitIsUnique(a: string, b: string, x: string, y: string)
    requires ':' !in a && ':' !in x && a + ":" + b == x + ":" + y
    ensures a == x && b == y
  {
    var s, t := a + ":" + b, x + ":" + y;
    if a == [] {
      assert s[0] == ':' && t[0] == ':';
      if x != [] { HeadOf(x, y); }
      assert s[1..] == b && t[1..] == y;
    } else {
      assert s[0] == a[0] && x != [] && t[0] == x[0];
      assert s[1..] == a[1..] + ":" + b && t[1..] == x[1..] + ":" + y;
      SplitIsUnique(a[1..], b, x[1..], y);
    }
  }

  lemma FindBranchLeads(branches: seq<Branch>, handle: string, numbers: map<string, real>, to: Id)
    ensures var k := FindBranch(branches, handle, numbers);
            LeadsTo(branches, handle, numbers, to) <==> k < |branches| && branches[k].target == to
  {
    forall b ensures Names(b, handle, numbers) <==> Answers(b, handle, numbers) { }
    var k := FindBranch(branches, handle, numbers);
    if j :| 0 <= j < |branches| && Answers(branches[j], handle, numbers) && branches[j].target == to
            && forall i :: 0 <= i < j ==> !Answers(branches[i], handle, numbers) {
      assert Names(branches[j], handle, numbers) && k <= j;
    }
  }

  lemma HandledInOrder(kinds: map<Id, Kind>, numbers: map<string, real>, link: Link)
    requires ':' in link.from
    ensures LinkInOrder(kinds, numbers, link) <==>
              var base := Id(Ceilings.Base(link.from));
              link.to in kinds && base in kinds && kinds[base].Condition? && LeadsTo(kinds[base].branches, Handle(link.from), numbers, link.to)
  {
    HandleIsRest(link.from);
    var base, handle := Ceilings.Base(link.from), Handle(link.from);
    forall b: string, h: string | link.from == b + ":" + h && ':' !in b ensures b == base && h == handle {
      SplitIsUnique(b, h, base, handle);
    }
  }

  lemma NamedBranchExists(branches: seq<Branch>, handle: string, numbers: map<string, real>)
    ensures (exists b :: b in branches && Names(b, handle, numbers)) <==> FindBranch(branches, handle, numbers) < |branches|
  {
    var k := FindBranch(branches, handle, numbers);
    if k < |branches| { assert branches[k] in branches; }
    if b :| b in branches && Names(b, handle, numbers) {
      var i :| 0 <= i < |branches| && branches[i] == b;
    }
  }

  lemma LinkFaultsMean(kinds: map<Id, Kind>, numbers: map<string, real>, link: Link)
    ensures LinkInOrder(kinds, numbers, link) <==>
              && !LinkFault(kinds, numbers, link, UnknownSource(0)) && !LinkFault(kinds, numbers, link, UnknownTarget(0))
              && !LinkFault(kinds, numbers, link, InvalidHandle(0)) && !LinkFault(kinds, numbers, link, MismatchedTarget(0))
  {
    var base := Id(Ceilings.Base(link.from));
    if ':' in link.from {
      HandledInOrder(kinds, numbers, link);
      if base in kinds && kinds[base].Condition? {
        FindBranchLeads(kinds[base].branches, Handle(link.from), numbers, link.to);
        NamedBranchExists(kinds[base].branches, Handle(link.from), numbers);
      }
    } else {
      BaseOfPlain(link.from);
    }
  }

  /** Every edge is in order, every routing target is a node, and with a registry every agent resolves. */
  ghost predicate InOrder(spec: Spec, kinds: map<Id, Kind>, agents: Agents, registry: bool) {
    && (forall k :: 0 <= k < |spec.links| ==> LinkInOrder(kinds, spec.numbers, spec.links[k]))
    && (forall i, to :: 0 <= i < |spec.nodes| && RoutesTo(spec.nodes[i].kind, to) ==> to in kinds)
    && (registry ==> forall i :: 0 <= i < |spec.nodes| && spec.nodes[i].kind.Agent? ==> spec.nodes[i].kind.agentRef in agents)
  }

  lemma LinksInOrder(spec: Spec, kinds: map<Id, Kind>, agents: Agents, registry: bool, k: nat)
    requires k < |spec.links|
    ensures LinkInOrder(kinds, spec.numbers, spec.links[k]) <==>
              forall f :: OfLink(f) && f.edge == k ==> !Faulty(spec, kinds, agents, registry, f)
  {
    var link := spec.links[k];
    LinkFaultsMean(kinds, spec.numbers, link);
    assert Faulty(spec, kinds, agents, registry, UnknownSource(k)) <==> LinkFault(kinds, spec.numbers, link, UnknownSource(0));
    assert Faulty(spec, kinds, agents, registry, UnknownTarget(k)) <==> LinkFault(kinds, spec.numbers, link, UnknownTarget(0));
    assert Faulty(spec, kinds, agents, registry, InvalidHandle(k)) <==> LinkFault(kinds, spec.numbers, link, InvalidHandle(0));
    assert Faulty(spec, kinds, agents, registry, MismatchedTarget(k)) <==> LinkFault(kinds, spec.numbers, link, MismatchedTarget(0));
  }

  lemma NodesInOrder(spec: Spec, kinds: map<Id, Kind>, agents: Agents, registry: bool, i: nat)
    requires i < |spec.nodes|
    ensures (forall to :: RoutesTo(spec.nodes[i].kind, to) ==> to in kinds)
            && (registry && spec.nodes[i].kind.Agent? ==> spec.nodes[i].kind.agentRef in agents)
            <==> forall f :: !OfLink(f) && f.node == i ==> !Faulty(spec, kinds, agents, registry, f)
  {
    var kind := spec.nodes[i].kind;
    assert Faulty(spec, kinds, agents, registry, DanglingAgent(i)) <==> registry && kind.Agent? && kind.agentRef !in agents;
    assert Faulty(spec, kinds, agents, registry, UnknownDefault(i)) <==>
             kind.Condition? && kind.fallback.Some? && kind.fallback.value !in kinds;
    forall to | RoutesTo(kind, to) && to !in kinds ensures exists f :: !OfLink(f) && f.node == i && Faulty(spec, kinds, agents, registry, f) {
      MissingTargetIsFault(spec, kinds, agents, registry, i, to);
    }
    forall j: nat | j < |Members(kind)| ensures RoutesTo(kind, Members(kind)[j]) {
      RoutesToTargets(kind, Members(kind)[j]);
    }
  }

  lemma MissingTargetIsFault(spec: Spec, kinds: map<Id, Kind>, agents: Agents, registry: bool, i: nat, to: Id)
    requires i < |spec.nodes| && RoutesTo(spec.nodes[i].kind, to) && to !in kinds
    ensures exists f :: !OfLink(f) && f.node == i && Faulty(spec, kinds, agents, registry, f)
  {
    var kind := spec.nodes[i].kind;
    RoutesToTargets(kind, to);
    if to in Members(kind) {
      var j :| 0 <= j < |Members(kind)| && Members(kind)[j] == to;
      assert Faulty(spec, kinds, agents, registry, UnknownMember(i, j));
    } else {
      assert Faulty(spec, kinds, agents, registry, UnknownDefault(i));
    }
  }

  /** A document has no faults exactly when it is in order. */
  lemma NoFaultsIffInOrder(spec: Spec, kinds: map<Id, Kind>, agents: Agents, registry: bool)
    ensures NoFaults(spec, kinds, agents, registry) <==> InOrder(spec, kinds, agents, registry)
  {
    forall k: nat | k < |spec.links| ensures LinkInOrder(kinds, spec.numbers, spec.links[k]) <==>
              forall f :: OfLink(f) && f.edge == k ==> !Faulty(spec, kinds, agents, registry, f)
    {
      LinksInOrder(spec, kinds, agents, registry, k);
    }
    forall i: nat | i < |spec.nodes|
      ensures (forall to :: RoutesTo(spec.nodes[i].kind, to) ==> to in kinds)
            && (registry && spec.nodes[i].kind.Agent? ==> spec.nodes[i].kind.agentRef in agents)
            <==> forall f :: !OfLink(f) && f.node == i ==> !Faulty(spec, kinds, agents, registry, f)
    {
      NodesInOrder(spec, kinds, agents, registry, i);
    }
  }

  // Which edges the graph has, in the document's own terms.

  /** A node sends execution to these when it finishes. */
  ghost predicate RoutesTo(kind: Kind, to: Id) {
    match kind
    case Parallel(members) => to in members
    case Condition(branches, fallback) => (exists b :: b in branches && b.target == to) || fallback == Some(to)
    case _ => false
  }

  /** A plain edge that is not refused: a condition has none. */
  ghost predicate PlainLink(spec: Spec, p: Id, c: Id) {
    && (exists k :: 0 <= k < |spec.links| && ':' !in spec.links[k].from && Id(spec.links[k].from) == p && spec.links[k].to == c)
    && !exists i :: 0 <= i < |spec.nodes| && spec.nodes[i].id == p && spec.nodes[i].kind.Condition?
  }

  ghost predicate Routing(spec: Spec, p: Id, c: Id) {
    exists i {:trigger spec.nodes[i]} :: 0 <= i < |spec.nodes| && spec.nodes[i].id == p && RoutesTo(spec.nodes[i].kind, c)
  }

  /** The consumer's own template fields read the producer's output. */
  ghost predicate OwnRead(spec: Spec, p: Id, c: Id) {
    exists i :: 0 <= i < |spec.nodes| && spec.nodes[i].id == c && p in spec.nodes[i].refs
  }

  /** The system prompt of the consumer's resolved agent reads it. */
  ghost predicate PromptRead(spec: Spec, agents: Agents, p: Id, c: Id) {
    exists i :: 0 <= i < |spec.nodes| && spec.nodes[i].id == c && spec.nodes[i].kind.Agent?
                && spec.nodes[i].kind.agentRef in agents && p in agents[spec.nodes[i].kind.agentRef]
  }

  /** The document makes `c` wait for `p`. */
  ghost predicate Depends(spec: Spec, agents: Agents, p: Id, c: Id) {
    && (exists i :: 0 <= i < |spec.nodes| && spec.nodes[i].id == p) && (exists i :: 0 <= i < |spec.nodes| && spec.nodes[i].id == c)
    && (PlainLink(spec, p, c) || Routing(spec, p, c) || OwnRead(spec, p, c) || PromptRead(spec, agents, p, c))
  }

  lemma RoutesToTargets(kind: Kind, to: Id)
    ensures RoutesTo(kind, to) <==> to in Ceilings.RoutingTargets(kind)
  {
    if kind.Condition? {
      if b :| b in kind.branches && b.target == to {
        var j :| 0 <= j < |kind.branches| && kind.branches[j] == b;
        assert Workflow.Targets(kind.branches)[j] == to;
      }
      if to in Workflow.Targets(kind.branches) {
        var j :| 0 <= j < |kind.branches| && Workflow.Targets(kind.branches)[j] == to;
        assert kind.branches[j] in kind.branches;
      }
    }
  }

  lemma NodeAttempts(node: Node, agents: Agents, ids: set<Id>, p: Id, c: Id)
    requires p in ids
    ensures (p, c) in Ceilings.NodeWires(node, agents, ids) <==>
              || (node.id == p && RoutesTo(node.kind, c))
              || (node.id == c && (p in node.refs || (node.kind.Agent? && node.kind.agentRef in agents && p in agents[node.kind.agentRef])))
  {
    RoutesToTargets(node.kind, c);
    Ceilings.FromHolds(node.id, Ceilings.RoutingTargets(node.kind), p, c);
    Ceilings.IntoHolds(Ceilings.PromptRefs(node, agents, ids), node.id, p, c);
    Ceilings.IntoHolds(node.refs, node.id, p, c);
  }

  lemma BaseOfPlain(from: string)
    ensures ':' !in from ==> Ceilings.Base(from) == from
  {
  }

  lemma LinkAttempts(spec: Spec, p: Id, c: Id)
    requires Distinct(Ids(spec.nodes)) && c in Elems(Ids(spec.nodes))
    ensures (p, c) in Ceilings.LinksWired(spec.links, Ceilings.Kinds(spec.nodes), |spec.links|) <==> PlainLink(spec, p, c)
  {
    var kinds := Ceilings.Kinds(spec.nodes);
    assert (exists i :: 0 <= i < |spec.nodes| && spec.nodes[i].id == p && spec.nodes[i].kind.Condition?) <==> p in kinds && kinds[p].Condition? by {
      if p in kinds && kinds[p].Condition? {
        var i := Position(Ids(spec.nodes), p);
        assert spec.nodes[i].id == p && spec.nodes[i].kind == kinds[p];
      }
      if i :| 0 <= i < |spec.nodes| && spec.nodes[i].id == p && spec.nodes[i].kind.Condition? {
        assert kinds[Ids(spec.nodes)[i]] == spec.nodes[i].kind;
      }
    }
    forall k | 0 <= k < |spec.links|
      ensures (p, c) in Ceilings.LinkWires(spec.links[k], kinds) <==>
                && ':' !in spec.links[k].from && Id(spec.links[k].from) == p && spec.links[k].to == c && !(p in kinds && kinds[p].Condition?)
    {
      BaseOfPlain(spec.links[k].from);
    }
  }

  lemma NodesAttempt(spec: Spec, agents: Agents, p: Id, c: Id)
    requires p in Elems(Ids(spec.nodes))
    ensures (p, c) in Ceilings.NodesWired(spec.nodes, agents, Elems(Ids(spec.nodes)), |spec.nodes|) <==>
              Routing(spec, p, c) || OwnRead(spec, p, c) || PromptRead(spec, agents, p, c)
  {
    forall i | 0 <= i < |spec.nodes|
      ensures (p, c) in Ceilings.NodeWires(spec.nodes[i], agents, Elems(Ids(spec.nodes))) <==>
                || (spec.nodes[i].id == p && RoutesTo(spec.nodes[i].kind, c))
                || (spec.nodes[i].id == c && (p in spec.nodes[i].refs || (spec.nodes[i].kind.Agent?
                      && spec.nodes[i].kind.agentRef in agents && p in agents[spec.nodes[i].kind.agentRef])))
    {
      NodeAttempts(spec.nodes[i], agents, Elems(Ids(spec.nodes)), p, c);
    }
  }

  lemma IdsAreNodes(nodes: seq<Node>, x: Id)
    ensures x in Elems(Ids(nodes)) <==> exists i :: 0 <= i < |nodes| && nodes[i].id == x
  {
    if i :| 0 <= i < |nodes| && nodes[i].id == x { assert Ids(nodes)[i] == x; }
  }

  /** The graph has exactly the edges the document's links, routing, own reads and prompt reads make. */
  lemma EdgesAreDependencies(spec: Spec, agents: Agents, g: Dag, p: Id, c: Id)
    requires Distinct(Ids(spec.nodes)) && Ceilings.Holds(g, Elems(Ids(spec.nodes)), Ceilings.AllWired(spec, agents))
    ensures Edge(g, p, c) <==> Depends(spec, agents, p, c)
  {
    IdsAreNodes(spec.nodes, p);
    IdsAreNodes(spec.nodes, c);
    if p in Elems(Ids(spec.nodes)) && c in Elems(Ids(spec.nodes)) {
      LinkAttempts(spec, p, c);
      NodesAttempt(spec, agents, p, c);
    }
  }

  // What a document without faults is wired into.

  /** The graph waits for exactly what the document says. */
  ghost predicate AsAuthored(spec: Spec, agents: Agents, g: Dag) {
    forall p, c :: Edge(g, p, c) <==> Depends(spec, agents, p, c)
  }

  lemma RoutingIsWired(spec: Spec, agents: Agents, g: Dag, i: nat, to: Id)
    requires AsAuthored(spec, agents, g) && i < |spec.nodes| && RoutesTo(spec.nodes[i].kind, to) && to in Elems(Ids(spec.nodes))
    ensures Edge(g, spec.nodes[i].id, to)
  {
    IdsAreNodes(spec.nodes, to);
    assert Routing(spec, spec.nodes[i].id, to);
  }

  lemma KindIsAuthored(spec: Spec, id: Id)
    requires Distinct(Ids(spec.nodes)) && id in Ceilings.Kinds(spec.nodes)
    ensures exists i :: 0 <= i < |spec.nodes| && spec.nodes[i].id == id && spec.nodes[i].kind == Ceilings.Kinds(spec.nodes)[id]
    ensures forall i :: 0 <= i < |spec.nodes| && spec.nodes[i].id == id ==> spec.nodes[i].kind == Ceilings.Kinds(spec.nodes)[id]
  {
    var i := Position(Ids(spec.nodes), id);
    assert spec.nodes[i].id == id && Ceilings.Kinds(spec.nodes)[Ids(spec.nodes)[i]] == spec.nodes[i].kind;
    forall k | 0 <= k < |spec.nodes| && spec.nodes[k].id == id ensures spec.nodes[k].kind == Ceilings.Kinds(spec.nodes)[id] {
      assert Ids(spec.nodes)[k] == id;
    }
  }

  lemma PlainLinkIsEdge(spec: Spec, agents: Agents, g: Dag, k: nat)
    requires Distinct(Ids(spec.nodes)) && AsAuthored(spec, agents, g)
    requires k < |spec.links| && ':' !in spec.links[k].from && LinkInOrder(Ceilings.Kinds(spec.nodes), spec.numbers, spec.links[k])
    ensures Edge(g, Id(Ceilings.Base(spec.links[k].from)), spec.links[k].to)
  {
    var link := spec.links[k];
    BaseOfPlain(link.from);
    IdsAreNodes(spec.nodes, Id(link.from));
    IdsAreNodes(spec.nodes, link.to);
    KindIsAuthored(spec, Id(link.from));
    assert PlainLink(spec, Id(link.from), link.to);
  }

  lemma HandledLinkIsEdge(spec: Spec, agents: Agents, g: Dag, k: nat)
    requires Distinct(Ids(spec.nodes)) && AsAuthored(spec, agents, g)
    requires k < |spec.links| && ':' in spec.links[k].from && LinkInOrder(Ceilings.Kinds(spec.nodes), spec.numbers, spec.links[k])
    ensures Edge(g, Id(Ceilings.Base(spec.links[k].from)), spec.links[k].to)
  {
    var link, kinds := spec.links[k], Ceilings.Kinds(spec.nodes);
    var base := Id(Ceilings.Base(link.from));
    HandledInOrder(kinds, spec.numbers, link);
    KindIsAuthored(spec, base);
    var i :| 0 <= i < |spec.nodes| && spec.nodes[i].id == base && spec.nodes[i].kind == kinds[base];
    RoutingIsWired(spec, agents, g, i, link.to);
  }

  /** Every authored edge, plain or handled, is a dependency of the graph; so is every routing target. */
  ghost predicate Honoured(spec: Spec, g: Dag) {
    && (forall k :: 0 <= k < |spec.links| ==> Edge(g, Id(Ceilings.Base(spec.links[k].from)), spec.links[k].to))
    && (forall i, to :: 0 <= i < |spec.nodes| && RoutesTo(spec.nodes[i].kind, to) ==> Edge(g, spec.nodes[i].id, to))
  }

  /** A document without faults loses no authored dependency on the way into the graph. */
  lemma FaultlessIsHonoured(spec: Spec, agents: Agents, registry: bool, g: Dag)
    requires Distinct(Ids(spec.nodes)) && AsAuthored(spec, agents, g)
    requires InOrder(spec, Ceilings.Kinds(spec.nodes), agents, registry)
    ensures Honoured(spec, g)
  {
    var kinds := Ceilings.Kinds(spec.nodes);
    forall k | 0 <= k < |spec.links| ensures Edge(g, Id(Ceilings.Base(spec.links[k].from)), spec.links[k].to) {
      if ':' in spec.links[k].from { HandledLinkIsEdge(spec, agents, g, k); } else { PlainLinkIsEdge(spec, agents, g, k); }
    }
    forall i, to | 0 <= i < |spec.nodes| && RoutesTo(spec.nodes[i].kind, to) ensures Edge(g, spec.nodes[i].id, to) {
      RoutingIsWired(spec, agents, g, i, to);
    }
  }

  /** Every out-edge of a vertex that is not a condition was counted in its width. */
  lemma OutEdgeWidens(spec: Spec, agents: Agents, g: Dag, v: Id, c: Id)
    requires AsAuthored(spec, agents, g) && Edge(g, v, c)
    requires forall i :: 0 <= i < |spec.nodes| && spec.nodes[i].id == v ==> !spec.nodes[i].kind.Condition?
    ensures Ceilings.Widens(spec, agents, v, c)
  {
    IdsAreNodes(spec.nodes, v);
    assert Depends(spec, agents, v, c);
    if PlainLink(spec, v, c) {
      var k :| 0 <= k < |spec.links| && ':' !in spec.links[k].from && Id(spec.links[k].from) == v && spec.links[k].to == c;
      assert Ceilings.Names(spec.links[k].from, v);
    } else if Routing(spec, v, c) {
      var i :| 0 <= i < |spec.nodes| && spec.nodes[i].id == v && RoutesTo(spec.nodes[i].kind, c);
      assert spec.nodes[i].kind.Parallel? && c in spec.nodes[i].kind.members;
    } else if OwnRead(spec, v, c) {
      var i :| 0 <= i < |spec.nodes| && spec.nodes[i].id == c && v in spec.nodes[i].refs;
      assert Ceilings.Reads(spec.nodes[i], agents, v);
    } else {
      var i :| 0 <= i < |spec.nodes| && spec.nodes[i].id == c && spec.nodes[i].kind.Agent?
               && spec.nodes[i].kind.agentRef in agents && v in agents[spec.nodes[i].kind.agentRef];
      assert Ceilings.Reads(spec.nodes[i], agents, v);
    }
  }

  /** At most fifty vertices wait for this one. */
  lemma OutDegreeIsBounded(spec: Spec, agents: Agents, g: Dag, v: Id)
    requires Wired(g) && AsAuthored(spec, agents, g) && Ceilings.WithinLimits(spec, agents)
    requires v in g.outs && forall i :: 0 <= i < |spec.nodes| && spec.nodes[i].id == v ==> !spec.nodes[i].kind.Condition?
    ensures |g.outs[v]| <= 50
  {
    forall c | c in g.outs[v] ensures Ceilings.Widens(spec, agents, v, c) {
      assert Edge(g, v, c);
      OutEdgeWidens(spec, agents, g, v, c);
    }
    assert Ceilings.AllWiden(spec, agents, v, g.outs[v]) && Ceilings.Narrow(spec, agents, v);
  }
}
