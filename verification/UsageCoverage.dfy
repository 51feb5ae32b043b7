/** Usage coverage of sessions: the acknowledged-revision protocol and its unverified latch. */
module UsageCoverage {
  import opened Collections

  const MAX_REVISION: nat := 9007199254740991

  type Sid = nat

  /** The mutation revision, the last acknowledged one, and the latch. */
  datatype Owner = Owner(revision: nat, acknowledged: nat, unverified: bool)

  type Owners = map<Sid, Owner>

  /**
   * The statements a transaction issues. A business write to a session, its messages or its costs bumps the
   * revision by trigger; an insert leaves a session at revision one, never acknowledged, and unverified.
   */
  datatype Statement = Bump(sid: Sid) | Taint(sid: Sid) | Insert(sid: Sid)

  /** One statement, or nothing when the database aborts it: a missing row is no error for a write. */
  function Execute(m: Owners, st: Statement): Option<Owners> {
    match st
    case Bump(sid) =>
      if sid !in m then Some(m)
      else if m[sid].revision >= MAX_REVISION then None
      else Some(m[sid := m[sid].(revision := m[sid].revision + 1)])
    case Taint(sid) => if sid !in m then Some(m) else Some(m[sid := m[sid].(unverified := true)])
    case Insert(sid) => if sid in m then None else Some(m[sid := Owner(1, 0, true)])
  }

  function ExecuteAll(m: Owners, body: seq<Statement>): Option<Owners> {
    if body == [] then Some(m)
    else
      var before := ExecuteAll(m, body[..|body|-1]);
      if before.None? then None else Execute(before.value, body[|body|-1])
  }

  /** Entry taint is latched before any write of the transaction. */
  function Latched(m: Owners, named: set<Sid>): Owners {
    map sid | sid in m ::
      if sid in named && m[sid].revision != m[sid].acknowledged then m[sid].(unverified := true) else m[sid]
  }

  /** The final revision is acknowledged after the last one. */
  function Acknowledged(m: Owners, named: set<Sid>): Owners {
    map sid | sid in m :: if sid in named then m[sid].(acknowledged := m[sid].revision) else m[sid]
  }

  /** The owned transaction; an aborted one leaves everything as it was. */
  function Owned(m: Owners, named: set<Sid>, body: seq<Statement>): Owners {
    var ran := ExecuteAll(Latched(m, named), body);
    if ran.None? then m else Acknowledged(ran.value, named)
  }

  /** A writer that knows nothing of revisions. */
  function Foreign(m: Owners, body: seq<Statement>): Owners {
    var ran := ExecuteAll(m, body);
    if ran.None? then m else ran.value
  }

  /** A genuinely new owner: inserted, cleared and acknowledged in one transaction. */
  function Fresh(m: Owners, sid: Sid): Owners {
    if sid in m then m else m[sid := Owner(1, 1, false)]
  }

  /** What a coverage read reports. */
  predicate Unverified(o: Owner) {
    o.unverified || o.revision != o.acknowledged
  }

  ghost predicate Valid(m: Owners) {
    forall sid :: sid in m ==> m[sid].acknowledged <= m[sid].revision <= MAX_REVISION
  }

  class UsageStore {
    var owners: Owners

    constructor ()
      ensures owners == map[]
    {
      owners := map[];
    }

    method LatchEntryTaint(work: Owners, sid: Sid) returns (r: Owners)
      ensures r == Latched(work, {sid})
    {
      r := work;
      if sid in work && work[sid].revision != work[sid].acknowledged {
        r := work[sid := work[sid].(unverified := true)];
      }
    }

    method AcknowledgeFinalRevision(work: Owners, sid: Sid) returns (r: Owners)
      ensures r == Acknowledged(work, {sid})
    {
      r := work;
      if sid in work {
        r := work[sid := work[sid].(acknowledged := work[sid].revision)];
      }
    }

    /** Latch every named owner, run the body, acknowledge every named owner; commit or leave no trace. */
    method WithSessionUsageWrite(sessionIds: seq<Sid>, body: seq<Statement>) returns (committed: bool)
      modifies this
      ensures owners == Owned(old(owners), Elems(sessionIds), body)
      ensures committed <==> ExecuteAll(Latched(old(owners), Elems(sessionIds)), body).Some?
    {
      var work := owners;
      var named, todo := Elems(sessionIds), Elems(sessionIds);
      while todo != {}
        invariant todo <= named
        invariant owners == old(owners) && work == Latched(owners, named - todo)
        decreases todo
      {
        var sid :| sid in todo;
        work := LatchEntryTaint(work, sid);
        todo := todo - {sid};
      }
      assert named - todo == named;
      ghost var entered := Latched(owners, named);
      for i := 0 to |body|
        invariant owners == old(owners) && ExecuteAll(entered, body[..i]) == Some(work)
      {
        var ran := Execute(work, body[i]);
        assert body[..i+1][..i] == body[..i];
        if ran.None? {
          AbortPropagates(entered, body, i + 1);
          return false;
        }
        work := ran.value;
      }
      assert body[..|body|] == body;
      ghost var finished := work;
      todo := named;
      while todo != {}
        invariant todo <= named
        invariant work == Acknowledged(finished, named - todo)
        decreases todo
      {
        var sid :| sid in todo;
        work := AcknowledgeFinalRevision(work, sid);
        todo := todo - {sid};
      }
      assert named - todo == named;
      owners := work;
      committed := true;
    }

    /** Refused for any physically existing row; otherwise the only write that clears the latch. */
    method CreateFreshSession(sid: Sid) returns (created: bool)
      modifies this
      ensures created <==> sid !in old(owners)
      ensures created ==> sid in owners && !owners[sid].unverified && owners[sid].revision == owners[sid].acknowledged
      ensures forall s :: s != sid || !created ==> (s in owners <==> s in old(owners)) && (s in owners ==> owners[s] == old(owners)[s])
      ensures owners == Fresh(old(owners), sid)
    {
      if sid in owners {
        return false;
      }
      var work := owners[sid := Owner(1, 0, true)];
      work := work[sid := work[sid].(unverified := false)];
      owners := work[sid := work[sid].(acknowledged := work[sid].revision)];
      created := true;
    }
  }

  /** A body that runs raises each session's revision by its writes to it. */
  lemma {:induction false} BodyCounts(m: Owners, body: seq<Statement>, sid: Sid)
    requires sid in m && ExecuteAll(m, body).Some?
    ensures sid in ExecuteAll(m, body).value
    ensures ExecuteAll(m, body).value[sid].revision == m[sid].revision + multiset(body)[Bump(sid)]
  {
    if body != [] {
      var n := |body| - 1;
      BodyCounts(m, body[..n], sid);
      StatementCounts(ExecuteAll(m, body[..n]).value, body[n], sid);
      BumpsNext(body, sid);
    }
  }

  lemma StatementCounts(m: Owners, st: Statement, sid: Sid)
    requires sid in m && Execute(m, st).Some?
    ensures sid in Execute(m, st).value
    ensures Execute(m, st).value[sid].revision == m[sid].revision + if st == Bump(sid) then 1 else 0
  {
  }

  lemma BumpsNext(body: seq<Statement>, sid: Sid)
    requires body != []
    ensures var n := |body| - 1;
            multiset(body)[Bump(sid)] == multiset(body[..n])[Bump(sid)] + if body[n] == Bump(sid) then 1 else 0
  {
    var n := |body| - 1;
    assert body == body[..n] + [body[n]];
  }

  lemma {:induction false} BodyOwners(m: Owners, body: seq<Statement>)
    requires ExecuteAll(m, body).Some? && forall st :: st in body ==> !st.Insert?
    ensures ExecuteAll(m, body).value.Keys == m.Keys
  {
    if body != [] {
      BodyOwners(m, body[..|body|-1]);
    }
  }

  /** No session would be written beyond the last revision. */
  ghost predicate Fits(m: Owners, body: seq<Statement>) {
    forall sid :: sid in m ==> m[sid].revision + multiset(body)[Bump(sid)] <= 9007199254740991
  }

  /** A body without inserts runs exactly when no revision would pass the limit. */
  lemma {:induction false} BodyRunsIff(m: Owners, body: seq<Statement>)
    requires (forall sid :: sid in m ==> m[sid].revision <= 9007199254740991) && forall st :: st in body ==> !st.Insert?
    ensures ExecuteAll(m, body).Some? <==> Fits(m, body)
  {
    if body != [] {
      var n, last := |body| - 1, body[|body|-1];
      BodyRunsIff(m, body[..n]);
      forall sid ensures multiset(body)[Bump(sid)] == multiset(body[..n])[Bump(sid)] + if last == Bump(sid) then 1 else 0 {
        BumpsNext(body, sid);
      }
      if ExecuteAll(m, body[..n]).Some? {
        BodyOwners(m, body[..n]);
        if last.Bump? && last.sid in m { BodyCounts(m, body[..n], last.sid); }
      }
    }
  }

  /** An insert of a new session leaves it unverified; an insert of an existing one aborts. */
  lemma InsertIsUnverified(m: Owners, sid: Sid)
    ensures Execute(m, Insert(sid)).Some? <==> sid !in m
    ensures sid !in m ==> var r := Execute(m, Insert(sid)).value;
              sid in r && Unverified(r[sid]) && forall s :: s in m ==> s in r && r[s] == m[s]
  {
  }

  lemma {:induction false} AbortPropagates(m: Owners, body: seq<Statement>, k: nat)
    requires k <= |body| && ExecuteAll(m, body[..k]).None?
    ensures ExecuteAll(m, body).None?
  {
    if k < |body| {
      var n := |body| - 1;
      assert body[..n][..k] == body[..k];
      AbortPropagates(m, body[..n], k);
    } else {
      assert body[..k] == body;
    }
  }

  // Runs.

  datatype Op =
    | OwnedWrite(named: set<Sid>, body: seq<Statement>)
    | ForeignWrite(body: seq<Statement>)
    | CreateFresh(sid: Sid)

  function Apply(m: Owners, op: Op): Owners {
    match op
    case OwnedWrite(named, body) => Owned(m, named, body)
    case ForeignWrite(body) => Foreign(m, body)
    case CreateFresh(sid) => Fresh(m, sid)
  }

  function After(m: Owners, ops: seq<Op>): Owners {
    if ops == [] then m else Apply(After(m, ops[..|ops|-1]), ops[|ops|-1])
  }

  ghost predicate Mentions(body: seq<Statement>, st: Statement) {
    exists i :: 0 <= i < |body| && body[i] == st
  }

  /** What a body does to one session: it can raise the revision and set the latch, nothing else. */
  lemma {:induction false} BodyEffect(m: Owners, body: seq<Statement>, sid: Sid)
    requires sid in m && ExecuteAll(m, body).Some?
    ensures var r := ExecuteAll(m, body).value;
            && sid in r && r[sid].acknowledged == m[sid].acknowledged && r[sid].revision >= m[sid].revision
            && (r[sid].revision > m[sid].revision <==> Mentions(body, Bump(sid)))
            && (r[sid].unverified <==> m[sid].unverified || Mentions(body, Taint(sid)))
            && (m[sid].revision <= MAX_REVISION ==> r[sid].revision <= MAX_REVISION)
  {
    if body != [] {
      var n := |body| - 1;
      BodyEffect(m, body[..n], sid);
      MentionsSnoc(body, Bump(sid));
      MentionsSnoc(body, Taint(sid));
    }
  }

  lemma MentionsSnoc(body: seq<Statement>, st: Statement)
    requires body != []
    ensures Mentions(body, st) <==> Mentions(body[..|body|-1], st) || body[|body|-1] == st
  {
  }

  /** The operation leaves no unowned revision and no taint on the session. */
  ghost predicate Clean(m: Owners, op: Op, sid: Sid) {
    match op
    case OwnedWrite(named, body) =>
      ExecuteAll(Latched(m, named), body).None?
      || (!Mentions(body, Taint(sid)) && (Mentions(body, Bump(sid)) ==> sid in named))
    case ForeignWrite(body) =>
      ExecuteAll(m, body).None? || (!Mentions(body, Taint(sid)) && !Mentions(body, Bump(sid)))
    case CreateFresh(_) => true
  }

  /** One operation on an existing session: it stays verified exactly when it was and the operation is clean. */
  lemma CoverageStep(m: Owners, op: Op, sid: Sid)
    requires Valid(m) && sid in m
    ensures sid in Apply(m, op)
    ensures Unverified(Apply(m, op)[sid]) <==> Unverified(m[sid]) || !Clean(m, op, sid)
    ensures m[sid].unverified ==> Apply(m, op)[sid].unverified
  {
    match op
    case OwnedWrite(named, body) =>
      if ExecuteAll(Latched(m, named), body).Some? { BodyEffect(Latched(m, named), body, sid); }
    case ForeignWrite(body) =>
      if ExecuteAll(m, body).Some? { BodyEffect(m, body, sid); }
    case CreateFresh(_) =>
  }

  lemma {:induction false} BodyKeepsValid(m: Owners, body: seq<Statement>)
    requires Valid(m) && ExecuteAll(m, body).Some?
    ensures Valid(ExecuteAll(m, body).value)
  {
    if body != [] {
      BodyKeepsValid(m, body[..|body|-1]);
    }
  }

  lemma StepKeepsValid(m: Owners, op: Op)
    requires Valid(m)
    ensures Valid(Apply(m, op))
  {
    match op
    case OwnedWrite(named, body) =>
      if ExecuteAll(Latched(m, named), body).Some? { BodyKeepsValid(Latched(m, named), body); }
    case ForeignWrite(body) =>
      if ExecuteAll(m, body).Some? { BodyKeepsValid(m, body); }
    case CreateFresh(_) =>
  }

  /** Every stored revision pair stays readable: the validity check never fails on reachable rows. */
  lemma {:induction false} AlwaysValid(ops: seq<Op>)
    ensures Valid(After(map[], ops))
  {
    if ops != [] {
      AlwaysValid(ops[..|ops|-1]);
      StepKeepsValid(After(map[], ops[..|ops|-1]), ops[|ops|-1]);
    }
  }

  /** The `k`th operation of the run is clean in the state it meets. */
  ghost predicate CleanAt(m: Owners, ops: seq<Op>, k: nat, sid: Sid) {
    k < |ops| ==> Clean(After(m, ops[..k]), ops[k], sid)
  }

  ghost predicate AlwaysClean(m: Owners, ops: seq<Op>, sid: Sid) {
    forall k: nat :: CleanAt(m, ops, k, sid)
  }

  lemma AlwaysCleanSnoc(m: Owners, ops: seq<Op>, sid: Sid)
    requires ops != []
    ensures AlwaysClean(m, ops, sid) <==>
              AlwaysClean(m, ops[..|ops|-1], sid) && Clean(After(m, ops[..|ops|-1]), ops[|ops|-1], sid)
  {
    var n := |ops| - 1;
    forall k: nat | k < n ensures CleanAt(m, ops[..n], k, sid) <==> CleanAt(m, ops, k, sid) {
      assert ops[..n][..k] == ops[..k];
    }
    assert CleanAt(m, ops, n, sid) <==> Clean(After(m, ops[..n]), ops[n], sid);
    if AlwaysClean(m, ops[..n], sid) && CleanAt(m, ops, n, sid) {
      forall k: nat ensures CleanAt(m, ops, k, sid) { assert CleanAt(m, ops[..n], k, sid); }
    }
    if AlwaysClean(m, ops, sid) {
      forall k: nat ensures CleanAt(m, ops[..n], k, sid) { assert CleanAt(m, ops, k, sid); }
    }
  }

  /**
   * Coverage over a session's whole later life: it reads verified at the end exactly when it did at the start
   * and every operation since was clean. In particular one unowned bump is never forgiven.
   */
  lemma {:induction false} VerifiedIffAlwaysClean(m: Owners, ops: seq<Op>, sid: Sid)
    requires Valid(m) && sid in m
    ensures Valid(After(m, ops)) && sid in After(m, ops)
    ensures !Unverified(After(m, ops)[sid]) <==> !Unverified(m[sid]) && AlwaysClean(m, ops, sid)
  {
    if ops != [] {
      var n := |ops| - 1;
      VerifiedIffAlwaysClean(m, ops[..n], sid);
      CoverageStep(After(m, ops[..n]), ops[n], sid);
      StepKeepsValid(After(m, ops[..n]), ops[n]);
      AlwaysCleanSnoc(m, ops, sid);
    }
  }

  /** No operation on an existing session clears the latch. */
  lemma {:induction false} LatchIsNeverCleared(m: Owners, ops: seq<Op>, sid: Sid)
    requires Valid(m) && sid in m && m[sid].unverified
    ensures sid in After(m, ops) && After(m, ops)[sid].unverified
  {
    if ops != [] {
      var n := |ops| - 1;
      LatchIsNeverCleared(m, ops[..n], sid);
      VerifiedIffAlwaysClean(m, ops[..n], sid);
      CoverageStep(After(m, ops[..n]), ops[n], sid);
    }
  }
}
