/** The money of record: cost rows, run total and carried snapshots agree in every order of events. */
module RunMoney {
  import opened Collections
  import opened RunHistory

  ghost predicate NoOverwrite(log: seq<Row>) {
    forall i :: 0 <= i < |log| ==> !log[i].event.RunCompleted?
  }

  lemma SumSnoc(costs: seq<Cost>, c: Cost)
    ensures Sum(costs + [c]) == Sum(costs) + c.amount
    ensures forall n :: NodeSum(costs + [c], n) == NodeSum(costs, n) + if c.node == n then c.amount else 0
  {
  }

  /** One derived write moves the rows and the total by the same amount, unless it overwrites the total. */
  lemma DeriveKeepsGap(r: Run, e: Event)
    ensures var d := Derive(r, e);
            && Sum(d.costs) == Sum(r.costs) + Delta(r, e)
            && (!e.RunCompleted? ==> d.total == Max(r.total, Carried(e)))
            && (e.RunCompleted? ==> d.total == e.total && Delta(r, e) == 0)
  {
  }

  /** With `at` the position of the overwriting `run:completed`, or the log's end when there is none. */
  ghost predicate Agrees(r: Run, at: nat) {
    && at <= |r.log| && NoOverwrite(r.log[..at])
    && if at == |r.log| then Sum(r.costs) == r.total == Largest(r.log)
       else r.log[at].event.RunCompleted?
            && Sum(r.costs) + r.log[at].event.total == r.total + Largest(r.log[..at])
  }

  lemma {:induction false} AgreesAlways(ops: seq<Op>, n: nat) returns (at: nat)
    requires n <= |ops|
    ensures Agrees(At(EMPTY, ops, n), at)
  {
    if n == 0 {
      at := 0;
    } else {
      at := AgreesAlways(ops, n - 1);
      var r, s, op := At(EMPTY, ops, n - 1), At(EMPTY, ops, n), ops[n-1];
      if op.Persist? && Judge(r, op.row, op.guard).Appended? {
        LogIsSound(ops, n);
        at := AgreesStep(r, s, op.row, at);
      } else {
        assert s.log == r.log && s.total == r.total && s.costs == r.costs;
      }
    }
  }

  lemma AgreesStep(r: Run, s: Run, row: Row, at: nat) returns (at': nat)
    requires Agrees(r, at) && s == Derive(r, row.event).(log := r.log + [row]) && OneTerminal(s.log)
    ensures Agrees(s, at')
  {
    var e := row.event;
    DeriveKeepsGap(r, e);
    assert s.log[..|r.log|] == r.log;
    at' := if at == |r.log| && !e.RunCompleted? then at + 1 else at;
    if at == |r.log| {
      assert s.log[..at] == r.log && r.log[..at] == r.log;
      assert s.log[..at+1] == s.log;
      if e.RunCompleted? { assert s.log[at] == row; }
    } else {
      assert s.log[..at] == r.log[..at] && s.log[at] == r.log[at];
      assert Terminal(s.log[at].event) && s.log[|r.log|] == row;
    }
  }

  /** Over any run of transactions that logs no `run:completed`, rows, total and largest snapshot are one number. */
  lemma {:induction false} MoneyIsConserved(ops: seq<Op>)
    requires NoOverwrite(After(EMPTY, ops).log)
    ensures var r := After(EMPTY, ops); Sum(r.costs) == r.total == Largest(r.log)
  {
    var at := AgreesAlways(ops, |ops|);
  }

  /** A logged `run:completed` keeps rows and total equal, then and ever after, exactly when it states the largest snapshot. */
  lemma CompletionAgreesIffLargest(ops: seq<Op>, k: nat)
    requires k < |After(EMPTY, ops).log| && After(EMPTY, ops).log[k].event.RunCompleted?
    ensures var r := After(EMPTY, ops);
            Sum(r.costs) == r.total <==> r.log[k].event.total == Largest(r.log[..k])
  {
    var at := AgreesAlways(ops, |ops|);
    LogIsSound(ops, |ops|);
    var log := After(EMPTY, ops).log;
    assert forall i :: 0 <= i < at ==> log[..at][i] == log[i];
    assert at < |log| ==> Terminal(log[at].event);
  }

  lemma {:induction false} LargestIsMaximum(log: seq<Row>)
    ensures forall i :: 0 <= i < |log| ==> Carried(log[i].event) <= Largest(log)
    ensures Largest(log) == 0 || exists i :: 0 <= i < |log| && Carried(log[i].event) == Largest(log)
  {
    if log != [] {
      LargestIsMaximum(log[..|log|-1]);
    }
  }

  function Events(log: seq<Row>): (es: seq<Event>)
    ensures |es| == |log| && forall i :: 0 <= i < |es| ==> es[i] == log[i].event
  {
    seq(|log|, i requires 0 <= i < |log| => log[i].event)
  }

  lemma LargestIgnoresOrder(a: seq<Row>, b: seq<Row>)
    requires multiset(Events(a)) == multiset(Events(b))
    ensures Largest(a) <= Largest(b)
  {
    LargestIsMaximum(a);
    LargestIsMaximum(b);
    if Largest(a) > 0 {
      var i :| 0 <= i < |a| && Carried(a[i].event) == Largest(a);
      assert Events(a)[i] in multiset(Events(b));
      var j :| 0 <= j < |b| && Events(b)[j] == Events(a)[i];
      assert Carried(b[j].event) <= Largest(b);
    }
  }

  /** Two runs that logged the same events, in whatever order and with whatever staleness, hold the same money. */
  lemma OrderDoesNotMatter(ops: seq<Op>, other: seq<Op>)
    requires NoOverwrite(After(EMPTY, ops).log) && NoOverwrite(After(EMPTY, other).log)
    requires multiset(Events(After(EMPTY, ops).log)) == multiset(Events(After(EMPTY, other).log))
    ensures After(EMPTY, ops).total == After(EMPTY, other).total
    ensures Sum(After(EMPTY, ops).costs) == Sum(After(EMPTY, other).costs)
  {
    MoneyIsConserved(ops);
    MoneyIsConserved(other);
    LargestIgnoresOrder(After(EMPTY, ops).log, After(EMPTY, other).log);
    LargestIgnoresOrder(After(EMPTY, other).log, After(EMPTY, ops).log);
  }

  /** The settled costs of the given nodes, added up. */
  ghost function OverNodes(costs: seq<Cost>, nodes: seq<NodeId>): nat {
    if nodes == [] then 0 else OverNodes(costs, nodes[1..]) + NodeSum(costs, nodes[0])
  }

  lemma {:induction false} OverNodesSnoc(costs: seq<Cost>, c: Cost, nodes: seq<NodeId>)
    requires Distinct(nodes)
    ensures OverNodes(costs + [c], nodes) == OverNodes(costs, nodes) + if c.node in nodes then c.amount else 0
  {
    SumSnoc(costs, c);
    if nodes != [] {
      OverNodesSnoc(costs, c, nodes[1..]);
    }
  }

  /** Per-node settled cost attributes every micro-cent to exactly one node. */
  lemma {:induction false} NodeCostsPartitionTotal(costs: seq<Cost>, nodes: seq<NodeId>)
    requires Distinct(nodes) && forall i :: 0 <= i < |costs| ==> costs[i].node in nodes
    ensures OverNodes(costs, nodes) == Sum(costs)
  {
    if costs == [] {
      OverNodesEmpty(nodes);
    } else {
      var n := |costs| - 1;
      NodeCostsPartitionTotal(costs[..n], nodes);
      OverNodesSnoc(costs[..n], costs[n], nodes);
      assert costs[..n] + [costs[n]] == costs;
    }
  }

  lemma OverNodesEmpty(nodes: seq<NodeId>)
    ensures OverNodes([], nodes) == 0
  {
  }

  /** The operation logs a terminal of this attempt of the node. */
  ghost predicate JustEnded(r: Run, op: Op, node: NodeId, attempt: nat) {
    && op.Persist? && Judge(r, op.row, op.guard).Appended?
    && (op.row.event.NodeCompleted? || op.row.event.NodeFailed?)
    && op.row.event.node == node && AttemptOf(op.row.event.attempt) == attempt
  }

  /** No step row shows more than its node's money rows hold. */
  ghost predicate StepsWithin(steps: seq<Step>, costs: seq<Cost>) {
    forall i :: 0 <= i < |steps| ==> StepWithin(steps[i], costs)
  }

  ghost predicate StepWithin(s: Step, costs: seq<Cost>) {
    s.cost <= NodeSum(costs, s.node)
  }

  lemma NewRowKeepsSteps(steps: seq<Step>, costs: seq<Cost>, c: Cost)
    requires StepsWithin(steps, costs)
    ensures StepsWithin(steps, costs + [c])
  {
    SumSnoc(costs, c);
    forall i | 0 <= i < |steps| ensures StepWithin(steps[i], costs + [c]) { assert StepWithin(steps[i], costs); }
  }

  lemma StepsAfterWithin(steps: seq<Step>, e: Event, costs: seq<Cost>)
    requires StepsWithin(steps, costs)
    ensures StepsWithin(StepsAfter(steps, e, costs), costs)
  {
    var r := StepsAfter(steps, e, costs);
    forall i | 0 <= i < |r| ensures StepWithin(r[i], costs) {
      if i < |steps| { assert StepWithin(steps[i], costs); }
    }
  }

  lemma DeriveKeepsSteps(r: Run, e: Event)
    requires StepsWithin(r.steps, r.costs)
    ensures StepsWithin(Derive(r, e).steps, Derive(r, e).costs)
  {
    NewRowKeepsSteps(r.steps, r.costs, Cost(Charged(e), Delta(r, e)));
    StepsAfterWithin(r.steps, e, Derive(r, e).costs);
  }

  lemma {:induction false} StepCostIsSettledCost(ops: seq<Op>, n: nat)
    requires n <= |ops|
    ensures StepsWithin(At(EMPTY, ops, n).steps, At(EMPTY, ops, n).costs)
  {
    if n > 0 {
      StepCostIsSettledCost(ops, n - 1);
      if ops[n-1].Persist? {
        DeriveKeepsSteps(At(EMPTY, ops, n - 1), ops[n-1].row.event);
      }
    }
  }

  /**
   * When an attempt has just ended, its step rows show exactly what the node's rows hold, earlier attempts' money
   * included, and every other step row is left as it was.
   */
  lemma EndedStepIsExact(r: Run, op: Op, node: NodeId, attempt: nat)
    requires JustEnded(r, op, node, attempt)
    ensures var s := Apply(r, op);
            && |s.steps| == |r.steps| && NodeSum(s.costs, node) == NodeSum(r.costs, node) + Delta(r, op.row.event)
            && forall i :: 0 <= i < |s.steps| ==>
                 s.steps[i] == if Matches(r.steps[i], node, attempt) then r.steps[i].(cost := NodeSum(s.costs, node)) else r.steps[i]
  {
    SumSnoc(r.costs, Cost(node, Delta(r, op.row.event)));
  }
}
