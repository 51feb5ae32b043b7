/** The authored document, as far as the plan builder's graph work reads it. */
module Workflow {
  import opened Collections
  import opened Graph

  /** A condition's branch: the value it is taken for, whether that was authored as a number, and where it leads. */
  datatype Branch = Branch(when: string, numeric: bool, target: Id)

  /** An agent names a resolvable reference; a parallel its members; a condition its branches and default. */
  datatype Kind =
    | Input | Output | Transform | HumanGate | Merge
    | Agent(agentRef: Id)
    | Parallel(members: seq<Id>)
    | Condition(branches: seq<Branch>, fallback: Option<Id>)

  /** `refs` are the node-output references in the node's own template fields, with repetitions; `retry` its attempt budget. */
  datatype Node = Node(id: Id, kind: Kind, refs: seq<Id>, retry: Option<nat>)

  /** `from` is a node id, optionally followed by `:` and a branch handle. */
  datatype Link = Link(from: string, to: Id)

  /** `numbers` gives the texts of the document that read as numbers. */
  datatype Spec = Spec(nodes: seq<Node>, links: seq<Link>, maxParallel: Option<nat>, numbers: map<string, real>)

  /** Resolved agents with the node-output references of their system prompts, with repetitions. */
  type Agents = map<Id, seq<Id>>

  function Ids(nodes: seq<Node>): (ids: seq<Id>)
    ensures |ids| == |nodes| && forall i :: 0 <= i < |ids| ==> ids[i] == nodes[i].id
  {
    seq(|nodes|, i requires 0 <= i < |nodes| => nodes[i].id)
  }

  function Targets(branches: seq<Branch>): (r: seq<Id>)
    ensures |r| == |branches| && forall i :: 0 <= i < |r| ==> r[i] == branches[i].target
  {
    seq(|branches|, i requires 0 <= i < |branches| => branches[i].target)
  }

  /** A condition only routes and a parallel only splits; every other vertex carries a value. */
  predicate ProducesValue(kind: Kind) {
    !kind.Condition? && !kind.Parallel?
  }
}
