/** One run's durable rows: its lease, its event log and its money. Every operation is one transaction. */
module RunHistory {
  import opened Collections

  type Owner = nat
  type NodeId = nat

  /** The money a row attributes to the run itself rather than to one of its nodes. */
  const RUN_LEVEL: NodeId := 0

  datatype Lease = Lease(owner: Owner, generation: nat, expiresAt: int)

  datatype Fence = Fence(owner: Owner, generation: nat)

  /** The durable events that touch money or end the run; `cumulative` is the run-wide snapshot they carry. */
  datatype Event =
    | NodeStarted(node: NodeId, attempt: Option<nat>)
    | NodeCompleted(node: NodeId, attempt: Option<nat>, cumulative: Option<nat>)
    | NodeFailed(node: NodeId, attempt: Option<nat>, cumulative: Option<nat>)
    | AttemptSettled(node: NodeId, settled: nat)
    | RunCompleted(total: nat)
    | RunFailed(cumulative: Option<nat>)
    | RunCancelled(cumulative: Option<nat>)
    | Unpriced

  datatype Row = Row(number: nat, event: Event)

  datatype Cost = Cost(node: NodeId, amount: nat)

  /** One dispatched attempt of a node and the cost shown for it. */
  datatype Step = Step(node: NodeId, attempt: nat, cost: nat)

  datatype Guard = Guard(expectedLast: Option<int>, fence: Option<Fence>)

  datatype Run = Run(lease: Option<Lease>, log: seq<Row>, total: nat, costs: seq<Cost>, steps: seq<Step>)

  datatype Verdict = Appended | AppendConflict | LeaseFenced | AlreadyTerminal | DuplicateNumber

  predicate Terminal(e: Event) {
    e.RunCompleted? || e.RunFailed? || e.RunCancelled?
  }

  /** `max(seq)`, or -1 over no rows. */
  function LastNumber(log: seq<Row>): (m: int)
    ensures m >= -1 && forall i :: 0 <= i < |log| ==> log[i].number <= m
    ensures log != [] ==> exists i :: 0 <= i < |log| && log[i].number == m
  {
    if log == [] then -1
    else
      var rest, last := LastNumber(log[..|log|-1]), log[|log|-1].number;
      if last > rest then last else rest
  }

  predicate HasTerminal(log: seq<Row>) {
    exists i :: 0 <= i < |log| && Terminal(log[i].event)
  }

  predicate Accepts(lease: Option<Lease>, fence: Fence) {
    lease.Some? && lease.value.owner == fence.owner && lease.value.generation == fence.generation
  }

  function Max(a: nat, b: nat): nat {
    if a < b then b else a
  }

  function Sum(costs: seq<Cost>): nat {
    if costs == [] then 0 else Sum(costs[..|costs|-1]) + costs[|costs|-1].amount
  }

  function NodeSum(costs: seq<Cost>, node: NodeId): nat {
    if costs == [] then 0
    else NodeSum(costs[..|costs|-1], node) + (if costs[|costs|-1].node == node then costs[|costs|-1].amount else 0)
  }

  /** The run-wide cumulative an event carries, 0 when it carries none. */
  function Carried(e: Event): nat {
    match e
    case NodeStarted(_, _) => 0
    case NodeCompleted(_, _, c) => if c.Some? then c.value else 0
    case NodeFailed(_, _, c) => if c.Some? then c.value else 0
    case AttemptSettled(_, c) => c
    case RunFailed(c) => if c.Some? then c.value else 0
    case RunCancelled(c) => if c.Some? then c.value else 0
    case RunCompleted(_) => 0
    case Unpriced => 0
  }

  /** The largest cumulative a log has carried. */
  function Largest(log: seq<Row>): nat {
    if log == [] then 0 else Max(Largest(log[..|log|-1]), Carried(log[|log|-1].event))
  }

  // What the transactions decide and write, as functions of the rows.

  function Judge(r: Run, row: Row, g: Guard): Verdict {
    if g.expectedLast.Some? && LastNumber(r.log) != g.expectedLast.value then AppendConflict
    else if g.expectedLast.Some? && row.number <= LastNumber(r.log) then AppendConflict
    else if g.fence.Some? && !Accepts(r.lease, g.fence.value) then LeaseFenced
    else if Terminal(row.event) && HasTerminal(r.log) then AlreadyTerminal
    else if exists i :: 0 <= i < |r.log| && r.log[i].number == row.number then DuplicateNumber
    else Appended
  }

  /** The node an event's money row names. */
  function Charged(e: Event): NodeId {
    match e
    case NodeCompleted(n, _, _) => n
    case NodeFailed(n, _, _) => n
    case AttemptSettled(n, _) => n
    case _ => RUN_LEVEL
  }

  /** A node terminal and a settled attempt always write a row; the other folds write one only for new money. */
  predicate WritesRow(e: Event, delta: nat) {
    e.NodeCompleted? || e.AttemptSettled? || (delta > 0 && (e.NodeFailed? || e.RunFailed? || e.RunCancelled?))
  }

  function Delta(r: Run, e: Event): nat {
    if Carried(e) > r.total then Carried(e) - r.total else 0
  }

  /** An event without an attempt number speaks of the first attempt. */
  function AttemptOf(attempt: Option<nat>): nat {
    if attempt.Some? then attempt.value else 1
  }

  predicate Matches(s: Step, node: NodeId, attempt: nat) {
    s.node == node && s.attempt == attempt
  }

  /** The step rows with this cost on every row of one attempt of a node. */
  function Costed(steps: seq<Step>, node: NodeId, attempt: nat, cost: nat): (r: seq<Step>)
    ensures |r| == |steps|
    ensures forall i :: 0 <= i < |r| ==> r[i] == if Matches(steps[i], node, attempt) then steps[i].(cost := cost) else steps[i]
  {
    seq(|steps|, i requires 0 <= i < |steps| => if Matches(steps[i], node, attempt) then steps[i].(cost := cost) else steps[i])
  }

  function StepsAfter(steps: seq<Step>, e: Event, costs: seq<Cost>): seq<Step> {
    match e
    case NodeStarted(n, a) => steps + [Step(n, AttemptOf(a), 0)]
    case NodeCompleted(n, a, _) => Costed(steps, n, AttemptOf(a), NodeSum(costs, n))
    case NodeFailed(n, a, _) => Costed(steps, n, AttemptOf(a), NodeSum(costs, n))
    case _ => steps
  }

  /** The derived writes: the money row and the run total move together; `run:completed` overwrites the total. */
  function Derive(r: Run, e: Event): Run {
    var delta := Delta(r, e);
    var costs := if WritesRow(e, delta) then r.costs + [Cost(Charged(e), delta)] else r.costs;
    r.(total := if e.RunCompleted? then e.total else r.total + delta,
       costs := costs,
       steps := StepsAfter(r.steps, e, costs))
  }

  function Persisted(r: Run, row: Row, g: Guard): Run {
    if Judge(r, row, g).Appended? then Derive(r, row.event).(log := r.log + [row]) else r
  }

  function Acquired(r: Run, owner: Owner, ttl: nat, now: int): Run {
    if r.lease.Some? && r.lease.value.owner != owner && r.lease.value.expiresAt > now then r
    else r.(lease := Some(Lease(owner, (if r.lease.Some? then r.lease.value.generation else 0) + 1, now + ttl)))
  }

  function HeartBeaten(r: Run, fence: Fence, ttl: nat, now: int): Run {
    if Accepts(r.lease, fence) then r.(lease := Some(r.lease.value.(expiresAt := now + ttl))) else r
  }

  function Released(r: Run, fence: Fence): Run {
    if Accepts(r.lease, fence) then r.(lease := None) else r
  }

  /** Exactly from `t` on, another owner's acquire takes the run. */
  ghost predicate LastsUntil(r: Run, t: int) {
    && r.lease.Some?
    && forall other, ttl, now :: other != r.lease.value.owner ==>
         if now < t then Acquired(r, other, ttl, now) == r
         else Acquired(r, other, ttl, now).lease == Some(Lease(other, r.lease.value.generation + 1, now + ttl))
  }

  // The same decisions and writes in the caller's terms.

  /** The log ends at `n`: nothing is logged beyond it, and it is logged, or is -1 over an empty log. */
  ghost predicate EndsAt(log: seq<Row>, n: int) {
    (forall i :: 0 <= i < |log| ==> log[i].number <= n) && if log == [] then n == -1 else exists i :: 0 <= i < |log| && log[i].number == n
  }

  lemma LastNumberIsEnd(log: seq<Row>, n: int)
    ensures EndsAt(log, n) <==> n == LastNumber(log)
  {
  }

  /** The writer knew where the log ends and appends beyond it. */
  ghost predicate UpToDate(log: seq<Row>, row: Row, g: Guard) {
    g.expectedLast.Some? ==> EndsAt(log, g.expectedLast.value) && row.number > g.expectedLast.value
  }

  ghost predicate HoldsLease(lease: Option<Lease>, g: Guard) {
    g.fence.Some? ==>
      lease.Some? && lease.value.owner == g.fence.value.owner && lease.value.generation == g.fence.value.generation
  }

  ghost predicate EndsRun(e: Event) {
    match e
    case RunCompleted(_) => true
    case RunFailed(_) => true
    case RunCancelled(_) => true
    case _ => false
  }

  ghost predicate Ended(log: seq<Row>) {
    exists i :: 0 <= i < |log| && EndsRun(log[i].event)
  }

  ghost predicate Numbered(log: seq<Row>, number: nat) {
    exists i :: 0 <= i < |log| && log[i].number == number
  }

  /** Each verdict, exactly: the first of the four checks that fails, or none. */
  ghost predicate Decides(r: Run, row: Row, g: Guard, v: Verdict) {
    match v
    case AppendConflict => !UpToDate(r.log, row, g)
    case LeaseFenced => UpToDate(r.log, row, g) && !HoldsLease(r.lease, g)
    case AlreadyTerminal => UpToDate(r.log, row, g) && HoldsLease(r.lease, g) && EndsRun(row.event) && Ended(r.log)
    case DuplicateNumber =>
      UpToDate(r.log, row, g) && HoldsLease(r.lease, g) && !(EndsRun(row.event) && Ended(r.log)) && Numbered(r.log, row.number)
    case Appended =>
      UpToDate(r.log, row, g) && HoldsLease(r.lease, g) && !(EndsRun(row.event) && Ended(r.log)) && !Numbered(r.log, row.number)
  }

  lemma TerminalEnds(log: seq<Row>, e: Event)
    ensures Terminal(e) <==> EndsRun(e)
    ensures HasTerminal(log) <==> Ended(log)
  {
    forall i | 0 <= i < |log| ensures Terminal(log[i].event) <==> EndsRun(log[i].event) { }
  }

  lemma JudgeDecides(r: Run, row: Row, g: Guard)
    ensures forall v :: v == Judge(r, row, g) <==> Decides(r, row, g, v)
  {
    TerminalEnds(r.log, row.event);
    if g.expectedLast.Some? { LastNumberIsEnd(r.log, g.expectedLast.value); }
  }

  /** The total rises to the snapshot, if there is one and it is larger, and one row for `node` holds the rise. */
  ghost predicate Charges(r: Run, s: Run, node: NodeId, snapshot: Option<nat>) {
    && s.total == (if snapshot.Some? && snapshot.value > r.total then snapshot.value else r.total)
    && s.costs == r.costs + [Cost(node, s.total - r.total)]
  }

  /** The same, with no row for no rise. */
  ghost predicate Folds(r: Run, s: Run, node: NodeId, snapshot: Option<nat>) {
    && s.total == (if snapshot.Some? && snapshot.value > r.total then snapshot.value else r.total)
    && s.costs == r.costs + if s.total > r.total then [Cost(node, s.total - r.total)] else []
  }

  /** The rows of this attempt show what the node's money rows hold; the others are as they were. */
  ghost predicate ShowsCost(r: Run, s: Run, node: NodeId, attempt: Option<nat>) {
    && |s.steps| == |r.steps|
    && forall i :: 0 <= i < |s.steps| ==>
         var mine := r.steps[i].node == node && r.steps[i].attempt == if attempt.Some? then attempt.value else 1;
         s.steps[i] == if mine then r.steps[i].(cost := NodeSum(s.costs, node)) else r.steps[i]
  }

  /** What each event writes beside its log row. */
  ghost predicate Writes(r: Run, s: Run, e: Event) {
    match e
    case NodeStarted(n, a) =>
      s == r.(steps := r.steps + [Step(n, if a.Some? then a.value else 1, 0)])
    case NodeCompleted(n, a, c) => Charges(r, s, n, c) && ShowsCost(r, s, n, a)
    case NodeFailed(n, a, c) => Folds(r, s, n, c) && ShowsCost(r, s, n, a)
    case AttemptSettled(n, c) => Charges(r, s, n, Some(c)) && s.steps == r.steps
    case RunCompleted(t) => s == r.(total := t)
    case RunFailed(c) => Folds(r, s, 0, c) && s.steps == r.steps
    case RunCancelled(c) => Folds(r, s, 0, c) && s.steps == r.steps
    case Unpriced => s == r
  }

  lemma DeriveWrites(r: Run, e: Event)
    ensures Writes(r, Derive(r, e), e)
    ensures Derive(r, e).log == r.log && Derive(r, e).lease == r.lease
  {
  }

  /** The store over one run, transaction by transaction. */
  class RunHistoryStore {
    var lease: Option<Lease>
    var log: seq<Row>
    var total: nat
    var costs: seq<Cost>
    var steps: seq<Step>

    ghost function Value(): Run
      reads this
    {
      Run(lease, log, total, costs, steps)
    }

    /** `run:started` has inserted the run with a zero total. */
    constructor ()
      ensures Value() == Run(None, [], 0, [], [])
    {
      lease, log, total, costs, steps := None, [], 0, [], [];
    }

    method FoldCumulative(cumulative: Option<nat>, node: NodeId)
      modifies this`total, this`costs
      ensures total == if cumulative.Some? then Max(old(total), cumulative.value) else old(total)
      ensures costs == if total == old(total) then old(costs) else old(costs) + [Cost(node, total - old(total))]
    {
      if cumulative.None? {
        return;
      }
      var prev := total;
      var delta := if cumulative.value > prev then cumulative.value - prev else 0;
      if delta == 0 {
        return;
      }
      costs := costs + [Cost(node, delta)];
      total := prev + delta;
    }

    /** The always-written money row of a completed node or a settled attempt. */
    method ChargeRow(cumulative: nat, node: NodeId)
      modifies this`total, this`costs
      ensures total == Max(old(total), cumulative)
      ensures costs == old(costs) + [Cost(node, total - old(total))]
    {
      var prev := total;
      var delta := if cumulative > prev then cumulative - prev else 0;
      costs := costs + [Cost(node, delta)];
      total := prev + delta;
    }

    /** The step rows of one attempt show what the node's money rows add up to. */
    method ShowCost(node: NodeId, attempt: Option<nat>)
      modifies this`steps
      ensures steps == Costed(old(steps), node, AttemptOf(attempt), NodeSum(costs, node))
    {
      steps := Costed(steps, node, AttemptOf(attempt), NodeSum(costs, node));
    }

    method CompleteNode(node: NodeId, attempt: Option<nat>, cumulative: Option<nat>)
      modifies this`total, this`costs, this`steps
      ensures Value() == Derive(old(Value()), NodeCompleted(node, attempt, cumulative))
    {
      ChargeRow(if cumulative.Some? then cumulative.value else total, node);
      ShowCost(node, attempt);
    }

    method FailNode(node: NodeId, attempt: Option<nat>, cumulative: Option<nat>)
      modifies this`total, this`costs, this`steps
      ensures Value() == Derive(old(Value()), NodeFailed(node, attempt, cumulative))
    {
      FoldCumulative(cumulative, node);
      ShowCost(node, attempt);
    }

    method EndRun(e: Event)
      requires Terminal(e)
      modifies this`total, this`costs
      ensures Value() == Derive(old(Value()), e)
    {
      match e
      case RunCompleted(t) => total := t;
      case RunFailed(cumulative) => FoldCumulative(cumulative, RUN_LEVEL);
      case RunCancelled(cumulative) => FoldCumulative(cumulative, RUN_LEVEL);
    }

    method ApplyDerived(e: Event)
      modifies this`total, this`costs, this`steps
      ensures Writes(old(Value()), Value(), e)
      ensures Value() == Derive(old(Value()), e)
    {
      DeriveWrites(Value(), e);
      if e.NodeStarted? {
        steps := steps + [Step(e.node, AttemptOf(e.attempt), 0)];
      } else if e.NodeCompleted? {
        CompleteNode(e.node, e.attempt, e.cumulative);
      } else if e.NodeFailed? {
        FailNode(e.node, e.attempt, e.cumulative);
      } else if e.AttemptSettled? {
        ChargeRow(e.settled, e.node);
      } else if Terminal(e) {
        EndRun(e);
      }
    }

    /** The fold: the append guard, the fence, the one-terminal check, then the writes. */
    method Persist(row: Row, g: Guard) returns (v: Verdict)
      modifies this`total, this`costs, this`steps, this`log
      ensures Decides(old(Value()), row, g, v)
      ensures v == Appended ==> log == old(log) + [row] && Writes(old(Value()), Value().(log := old(log)), row.event)
      ensures v != Appended ==> Value() == old(Value())
      ensures v == Judge(old(Value()), row, g)
      ensures Value() == Persisted(old(Value()), row, g)
    {
      JudgeDecides(Value(), row, g);
      if g.expectedLast.Some? {
        var actual := LastNumber(log);
        if actual != g.expectedLast.value {
          return AppendConflict;
        }
        if row.number <= actual {
          return AppendConflict;
        }
      }
      if g.fence.Some? {
        if lease.None? || lease.value.owner != g.fence.value.owner || lease.value.generation != g.fence.value.generation {
          return LeaseFenced;
        }
      }
      if Terminal(row.event) {
        if HasTerminal(log) {
          return AlreadyTerminal;
        }
      }
      // The unique index on (run, sequence number) aborts the transaction, derived writes included.
      if exists i :: 0 <= i < |log| && log[i].number == row.number {
        return DuplicateNumber;
      }
      ApplyDerived(row.event);
      log := log + [row];
      v := Appended;
    }

    method Acquire(owner: Owner, ttl: nat, now: int) returns (granted: Option<Lease>)
      modifies this`lease
      ensures Value() == Acquired(old(Value()), owner, ttl, now)
      ensures granted.Some? <==> !(old(lease).Some? && old(lease).value.owner != owner && old(lease).value.expiresAt > now)
      ensures granted.Some? ==> lease == granted
      ensures granted.Some? ==> granted.value.owner == owner && granted.value.generation == 1 + if old(lease).Some? then old(lease).value.generation else 0
      ensures granted.Some? ==> LastsUntil(Value(), now + ttl)
      ensures granted.None? ==> lease == old(lease)
    {
      if lease.Some? && lease.value.owner != owner && lease.value.expiresAt > now {
        return None;
      }
      var generation := (if lease.Some? then lease.value.generation else 0) + 1;
      lease := Some(Lease(owner, generation, now + ttl));
      granted := lease;
    }

    method Heartbeat(fence: Fence, ttl: nat, now: int) returns (kept: bool)
      modifies this`lease
      ensures Value() == HeartBeaten(old(Value()), fence, ttl, now)
      ensures kept <==> Accepts(old(lease), fence)
      ensures kept ==> Accepts(lease, fence) && LastsUntil(Value(), now + ttl)
      ensures !kept ==> Value() == old(Value())
    {
      kept := Accepts(lease, fence);
      if kept {
        lease := Some(lease.value.(expiresAt := now + ttl));
      }
    }

    /** Gives the run up; a process that has already been fenced out cannot take the new owner's lease with it. */
    method Release(fence: Fence)
      modifies this`lease
      ensures Value() == Released(old(Value()), fence)
      ensures !Accepts(lease, fence) && (lease == old(lease) || lease.None?)
      ensures lease != old(lease) <==> Accepts(old(lease), fence)
    {
      if Accepts(lease, fence) {
        lease := None;
      }
    }
  }

  // Runs of the store: any interleaving of transactions by any owners.

  datatype Op =
    | Acquire(owner: Owner, ttl: nat, now: int)
    | Heartbeat(fence: Fence, ttl: nat, now: int)
    | Release(fence: Fence)
    | Persist(row: Row, guard: Guard)

  function Apply(r: Run, op: Op): Run {
    match op
    case Acquire(owner, ttl, now) => Acquired(r, owner, ttl, now)
    case Heartbeat(fence, ttl, now) => HeartBeaten(r, fence, ttl, now)
    case Release(fence) => Released(r, fence)
    case Persist(row, guard) => Persisted(r, row, guard)
  }

  /** The run after the first `n` operations. */
  function At(r: Run, ops: seq<Op>, n: nat): Run
    requires n <= |ops|
  {
    if n == 0 then r else Apply(At(r, ops, n - 1), ops[n-1])
  }

  function After(r: Run, ops: seq<Op>): Run {
    At(r, ops, |ops|)
  }

  const EMPTY: Run := Run(None, [], 0, [], [])

  // The log.

  ghost predicate OneTerminal(log: seq<Row>) {
    forall i, j :: 0 <= i < j < |log| ==> !(Terminal(log[i].event) && Terminal(log[j].event))
  }

  ghost predicate NumbersUnique(log: seq<Row>) {
    forall i, j :: 0 <= i < j < |log| ==> log[i].number != log[j].number
  }

  /** However guards and fences are used or left out, a log never holds two terminals or a repeated number. */
  lemma {:induction false} LogIsSound(ops: seq<Op>, n: nat)
    requires n <= |ops|
    ensures OneTerminal(At(EMPTY, ops, n).log) && NumbersUnique(At(EMPTY, ops, n).log)
  {
    if n > 0 {
      LogIsSound(ops, n - 1);
    }
  }

  ghost predicate Increasing(log: seq<Row>) {
    forall i, j :: 0 <= i < j < |log| ==> log[i].number < log[j].number
  }

  /** A guarded append is always ahead of everything logged, so guarded logs are strictly increasing. */
  lemma {:induction false} GuardedLogIncreases(ops: seq<Op>, n: nat)
    requires n <= |ops| && forall k :: 0 <= k < n && ops[k].Persist? ==> ops[k].guard.expectedLast.Some?
    ensures Increasing(At(EMPTY, ops, n).log)
  {
    if n > 0 {
      GuardedLogIncreases(ops, n - 1);
      assert ops[n-1].Persist? ==> ops[n-1].guard.expectedLast.Some?;
    }
  }

  // The lease.

  /** At most one fence is acceptable at a time. */
  lemma OneFence(r: Run, f: Fence, g: Fence)
    requires Accepts(r.lease, f) && Accepts(r.lease, g)
    ensures f == g
  {
  }

  /** The clock an operation reads, if it reads one. */
  ghost predicate ReadsClockBefore(op: Op, t: int) {
    match op
    case Acquire(_, _, now) => now < t
    case Heartbeat(_, _, now) => now < t
    case _ => true
  }

  /** At step `k` the lease then held is unexpired on the store's clock and is not released by its holder. */
  ghost predicate HeldAt(r: Run, ops: seq<Op>, k: nat) {
    k < |ops| && At(r, ops, k).lease.Some? ==>
      var lease := At(r, ops, k).lease.value;
      ReadsClockBefore(ops[k], lease.expiresAt) && ops[k] != Release(Fence(lease.owner, lease.generation))
  }

  ghost predicate HeldThroughout(r: Run, ops: seq<Op>, n: nat) {
    forall k: nat :: k < n ==> HeldAt(r, ops, k)
  }

  /** An unexpired, unreleased lease never passes to another owner. */
  lemma {:induction false} LeaseIsNotTaken(r: Run, ops: seq<Op>, n: nat)
    requires n <= |ops| && r.lease.Some? && HeldThroughout(r, ops, n)
    ensures var lease := At(r, ops, n).lease;
            lease.Some? && lease.value.owner == r.lease.value.owner && lease.value.generation >= r.lease.value.generation
  {
    if n > 0 {
      LeaseIsNotTaken(r, ops, n - 1);
      assert HeldAt(r, ops, n - 1);
    }
  }

  /** An operation by somebody else, as far as leases go. */
  ghost predicate ByAnother(op: Op, owner: Owner) {
    match op
    case Acquire(o, _, _) => o != owner
    case Heartbeat(fence, _, _) => fence.owner != owner
    case Release(fence) => fence.owner != owner
    case Persist(_, _) => true
  }

  /** While the store clock has not reached its expiry, no other owner can disturb a lease at all. */
  lemma {:induction false} LeaseLastsUntilExpiry(r: Run, ops: seq<Op>, n: nat)
    requires n <= |ops| && r.lease.Some?
    requires forall k :: 0 <= k < n ==> ReadsClockBefore(ops[k], r.lease.value.expiresAt) && ByAnother(ops[k], r.lease.value.owner)
    ensures At(r, ops, n).lease == r.lease
  {
    if n > 0 {
      LeaseLastsUntilExpiry(r, ops, n - 1);
      assert ReadsClockBefore(ops[n-1], r.lease.value.expiresAt) && ByAnother(ops[n-1], r.lease.value.owner);
    }
  }

  /** A lease granted or renewed at `now` holds for its whole time to live against every other owner. */
  lemma HoldLastsItsTtl(r: Run, op: Op, ops: seq<Op>, f: Fence)
    requires Accepts(Apply(r, op).lease, f) && (op.Heartbeat? ==> op.fence == f) && (op.Acquire? ==> op.owner == f.owner)
    requires (op.Heartbeat? && Accepts(r.lease, f)) || (op.Acquire? && !Accepts(r.lease, f))
    requires forall k :: 0 <= k < |ops| ==> ReadsClockBefore(ops[k], op.now + op.ttl) && ByAnother(ops[k], f.owner)
    ensures Accepts(After(Apply(r, op), ops).lease, f)
  {
    LeaseLastsUntilExpiry(Apply(r, op), ops, |ops|);
  }

  /** The acquire is granted: the row is free, the owner's own, or expired on the store's clock. */
  ghost predicate Grants(r: Run, op: Op) {
    op.Acquire? && !(r.lease.Some? && r.lease.value.owner != op.owner && r.lease.value.expiresAt > op.now)
  }

  /** The release deletes the row. */
  ghost predicate Deletes(r: Run, op: Op) {
    op.Release? && Accepts(r.lease, op.fence)
  }

  /** One step keeps an accepted fence exactly when it neither grants the run nor releases that fence. */
  lemma FenceStep(r: Run, op: Op, f: Fence)
    requires Accepts(r.lease, f)
    ensures Accepts(Apply(r, op).lease, f) <==> !Grants(r, op) && op != Release(f)
  {
  }

  ghost predicate QuietAt(r: Run, ops: seq<Op>, k: nat, f: Fence) {
    k < |ops| ==> !Grants(At(r, ops, k), ops[k]) && ops[k] != Release(f)
  }

  /** Nobody is granted the run, and `f` is not released, during the first `n` operations. */
  ghost predicate Undisturbed(r: Run, ops: seq<Op>, n: nat, f: Fence) {
    forall k: nat :: k < n ==> QuietAt(r, ops, k, f)
  }

  ghost predicate AcceptedAt(r: Run, ops: seq<Op>, k: nat, f: Fence) {
    k <= |ops| ==> Accepts(At(r, ops, k).lease, f)
  }

  ghost predicate AcceptedThrough(r: Run, ops: seq<Op>, n: nat, f: Fence) {
    forall k: nat :: k <= n ==> AcceptedAt(r, ops, k, f)
  }

  /**
   * A fence goes on being accepted exactly as long as nobody is granted the run and it is not released. The clock
   * has no say: an expired lease that nobody took over is still its holder's.
   */
  lemma {:induction false} AcceptedWhileUndisturbed(r: Run, ops: seq<Op>, n: nat, f: Fence)
    requires Accepts(r.lease, f) && n <= |ops|
    ensures AcceptedThrough(r, ops, n, f) <==> Undisturbed(r, ops, n, f)
  {
    if n > 0 {
      AcceptedWhileUndisturbed(r, ops, n - 1, f);
      assert AcceptedThrough(r, ops, n, f) <==> AcceptedThrough(r, ops, n - 1, f) && AcceptedAt(r, ops, n, f);
      assert Undisturbed(r, ops, n, f) <==> Undisturbed(r, ops, n - 1, f) && QuietAt(r, ops, n - 1, f);
      if AcceptedThrough(r, ops, n - 1, f) {
        assert AcceptedAt(r, ops, n - 1, f);
        FenceStep(At(r, ops, n - 1), ops[n-1], f);
      }
    }
  }

  /** So the fence never refuses its holder's append before that, whatever the expiry says. */
  lemma HolderIsNotFenced(r: Run, ops: seq<Op>, f: Fence, row: Row, expected: Option<int>)
    requires Accepts(r.lease, f) && Undisturbed(r, ops, |ops|, f)
    ensures Judge(After(r, ops), row, Guard(expected, Some(f))) == Judge(After(r, ops), row, Guard(expected, None))
  {
    AcceptedWhileUndisturbed(r, ops, |ops|, f);
    assert AcceptedAt(r, ops, |ops|, f);
  }

  /** Whether an append is refused does not depend on when the lease expires. */
  lemma ExpiryIsNotChecked(r: Run, row: Row, g: Guard, expiresAt: int)
    requires r.lease.Some?
    ensures Judge(r.(lease := Some(r.lease.value.(expiresAt := expiresAt))), row, g) == Judge(r, row, g)
  {
  }

  /** A writer whose lease ran out at 10 appends after somebody read the clock at 50. */
  lemma ExpiredLeaseAppends(a: Owner, b: Owner)
    requires a != b
    ensures var held := Apply(EMPTY, Acquire(a, 10, 0));
            var late := Apply(held, Heartbeat(Fence(b, 1), 10, 50));
            late.lease.value.expiresAt < 50 && Judge(late, Row(0, Unpriced), Guard(None, Some(Fence(a, 1)))) == Appended
  {
  }

  /** Acquiring over a held row retires every fence that was acceptable, the acquirer's own included. */
  lemma AcquireSupersedes(r: Run, owner: Owner, ttl: nat, now: int, f: Fence)
    requires Accepts(r.lease, f) && Acquired(r, owner, ttl, now) != r
    ensures !Accepts(Acquired(r, owner, ttl, now).lease, f)
  {
  }

  /** A fence that is not accepted stays so until its owner acquires again. */
  lemma {:induction false} SupersededStaysOut(r: Run, ops: seq<Op>, a: nat, b: nat, f: Fence)
    requires a <= b <= |ops| && !Accepts(At(r, ops, a).lease, f)
    requires forall k :: a <= k < b ==> !(ops[k].Acquire? && ops[k].owner == f.owner)
    ensures !Accepts(At(r, ops, b).lease, f)
  {
    if a < b {
      SupersededStaysOut(r, ops, a, b - 1, f);
    }
  }

  /** Operation `k` does not delete the row. */
  ghost predicate RowKept(r: Run, ops: seq<Op>, k: nat) {
    k < |ops| ==> !Deletes(At(r, ops, k), ops[k])
  }

  ghost predicate Outdated(lease: Option<Lease>, f: Fence) {
    lease.Some? && f.generation <= lease.value.generation && !Accepts(lease, f)
  }

  lemma OutdatedStep(r: Run, op: Op, f: Fence)
    requires Outdated(r.lease, f) && !Deletes(r, op)
    ensures Outdated(Apply(r, op).lease, f)
  {
  }

  /** A superseded fence that is accepted again owes it to a deletion of the row in between. */
  lemma {:induction false} SupersededForGood(r: Run, ops: seq<Op>, n: nat, f: Fence)
    requires n <= |ops| && Outdated(r.lease, f)
    requires forall k: nat :: k < n ==> RowKept(r, ops, k)
    ensures Outdated(At(r, ops, n).lease, f)
  {
    if n > 0 {
      SupersededForGood(r, ops, n - 1, f);
      assert RowKept(r, ops, n - 1);
      OutdatedStep(At(r, ops, n - 1), ops[n-1], f);
    }
  }

  /** The grants among operations `d` to `n`. */
  ghost function GrantCount(r: Run, ops: seq<Op>, d: nat, n: nat): nat
    requires n <= |ops|
  {
    if n <= d then 0 else GrantCount(r, ops, d, n - 1) + if Grants(At(r, ops, n-1), ops[n-1]) then 1 else 0
  }

  /** The last grant among operations `d` to `n` was to this owner. */
  ghost predicate LastGrantTo(r: Run, ops: seq<Op>, d: nat, n: nat, owner: Owner)
    requires n <= |ops|
  {
    d < n && if Grants(At(r, ops, n-1), ops[n-1]) then ops[n-1].owner == owner else LastGrantTo(r, ops, d, n - 1, owner)
  }

  /** The generation is the number of grants since the row was last absent; the owner is whom the last was to. */
  ghost predicate Counts(r: Run, ops: seq<Op>, d: nat, n: nat, lease: Option<Lease>)
    requires n <= |ops|
  {
    && (lease.None? <==> GrantCount(r, ops, d, n) == 0)
    && (lease.Some? ==> lease.value.generation == GrantCount(r, ops, d, n))
    && forall owner :: LastGrantTo(r, ops, d, n, owner) <==> lease.Some? && lease.value.owner == owner
  }

  lemma LeaseStep(r: Run, op: Op)
    requires !Deletes(r, op)
    ensures var next := Apply(r, op).lease;
            if Grants(r, op) then
              && next.Some? && next.value.owner == op.owner
              && next.value.generation == 1 + if r.lease.Some? then r.lease.value.generation else 0
            else
              && (next.Some? <==> r.lease.Some?)
              && (next.Some? ==> next.value.owner == r.lease.value.owner && next.value.generation == r.lease.value.generation)
  {
  }

  /** Since the row was last absent, a lease is its grants counted, in the hands of the last one granted. */
  lemma {:induction false} LeaseIsGrantCount(r: Run, ops: seq<Op>, d: nat, n: nat)
    requires d <= n <= |ops| && At(r, ops, d).lease.None?
    requires forall k: nat :: d <= k < n ==> RowKept(r, ops, k)
    ensures Counts(r, ops, d, n, At(r, ops, n).lease)
  {
    if d < n {
      LeaseIsGrantCount(r, ops, d, n - 1);
      assert RowKept(r, ops, n - 1);
      LeaseStep(At(r, ops, n - 1), ops[n-1]);
    }
  }

  /**
   * Which fence is accepted, exactly: since the row was last absent there have been as many grants as its
   * generation says, the last of them to its owner. What fences were issued before the deletion plays no part.
   */
  lemma FenceIsGrantCount(r: Run, ops: seq<Op>, d: nat, f: Fence)
    requires d <= |ops| && At(r, ops, d).lease.None?
    requires forall k: nat :: d <= k < |ops| ==> RowKept(r, ops, k)
    ensures Accepts(After(r, ops).lease, f) <==>
              GrantCount(r, ops, d, |ops|) == f.generation && LastGrantTo(r, ops, d, |ops|, f.owner)
  {
    LeaseIsGrantCount(r, ops, d, |ops|);
  }

  /** The same owner acquiring `n` times. */
  function Acquisitions(owner: Owner, n: nat): (ops: seq<Op>)
    ensures |ops| == n && forall k :: 0 <= k < n ==> ops[k] == Acquire(owner, 0, 0)
  {
    seq(n, k => Acquire(owner, 0, 0))
  }

  lemma {:induction false} Reacquired(r: Run, owner: Owner, ops: seq<Op>, n: nat)
    requires r.lease.None? && 0 < n <= |ops| && forall k :: 0 <= k < n ==> ops[k] == Acquire(owner, 0, 0)
    ensures Accepts(At(r, ops, n).lease, Fence(owner, n))
  {
    if n > 1 {
      Reacquired(r, owner, ops, n - 1);
    }
  }

  /** From a run without a lease row, every fence becomes acceptable when its owner acquires often enough. */
  lemma AbsentRowReopens(r: Run, owner: Owner, generation: nat)
    requires r.lease.None? && generation > 0
    ensures Accepts(After(r, Acquisitions(owner, generation)).lease, Fence(owner, generation))
  {
    Reacquired(r, owner, Acquisitions(owner, generation), generation);
  }

  /** The `k`th operation appends under the fence `f`. */
  ghost predicate FencedAppend(r: Run, ops: seq<Op>, k: nat, f: Fence) {
    && k < |ops| && ops[k].Persist? && ops[k].guard.fence == Some(f)
    && Judge(At(r, ops, k), ops[k].row, ops[k].guard).Appended?
  }

  /** Between appends under two different fences, the later writer has acquired the run. */
  lemma WritersAreSeparated(r: Run, ops: seq<Op>, a: nat, b: nat, f: Fence, g: Fence)
    requires a < b && FencedAppend(r, ops, a, f) && FencedAppend(r, ops, b, g) && f != g
    ensures exists k :: a <= k < b && ops[k].Acquire? && ops[k].owner == g.owner
  {
    if forall k :: a <= k < b ==> !(ops[k].Acquire? && ops[k].owner == g.owner) {
      SupersededStaysOut(r, ops, a, b, g);
    }
  }

  /**
   * A deletion does reopen a superseded fence: releasing deletes the row, generations restart at one, and the
   * same owner acquiring again makes its old fence acceptable.
   */
  lemma GenerationsRestart(a: Owner, b: Owner)
    requires a != b
    ensures var first := Apply(EMPTY, Acquire(a, 10, 0));
            var taken := Apply(first, Acquire(b, 10, 20));
            var freed := Apply(taken, Release(Fence(b, 2)));
            var again := Apply(freed, Acquire(a, 10, 30));
            Accepts(first.lease, Fence(a, 1)) && !Accepts(taken.lease, Fence(a, 1)) && Accepts(again.lease, Fence(a, 1))
  {
  }
}
