/**
 * The effect-turn keys of one session over the journal that files them: a turn is read back from the bytes of
 * its scope, and each journal operation is an operation on the session's evidence.
 */
module TurnJournal {
  import opened ScopeRange
  import EffectJournal
  import EffectTurns

  const ZERO: byte := 0x30

  predicate AllDigits(b: Bytes) {
    forall i :: 0 <= i < |b| ==> ZERO <= b[i] <= ZERO + 9
  }

  /** `0`, or digits without a leading zero. */
  predicate Canonical(b: Bytes) {
    b != [] && AllDigits(b) && (|b| == 1 || b[0] != ZERO)
  }

  function ParseTurn(b: Bytes): (k: nat)
    requires AllDigits(b)
  {
    if b == [] then 0 else ParseTurn(b[..|b|-1]) * 10 + (b[|b|-1] - ZERO)
  }

  function PrintTurn(k: nat): (b: Bytes)
    ensures b != [] && AllDigits(b)
  {
    if k < 10 then [ZERO + k] else PrintTurn(k / 10) + [ZERO + k % 10]
  }

  /** The turn a scope suffix names. */
  function ReadSuffix(b: Bytes): EffectTurns.Suffix {
    if Canonical(b) then EffectTurns.Key(ParseTurn(b)) else EffectTurns.Malformed
  }

  lemma {:induction false} PrintedTurnIsRead(k: nat)
    ensures ReadSuffix(PrintTurn(k)) == EffectTurns.Key(k)
    ensures k > 0 ==> PrintTurn(k)[0] != ZERO
  {
    var b := PrintTurn(k);
    if k < 10 {
      assert b == [ZERO + k] && ParseTurn(b[..0]) == 0;
    } else {
      PrintedTurnIsRead(k / 10);
      assert b[..|b|-1] == PrintTurn(k / 10);
      assert b[0] == PrintTurn(k / 10)[0];
    }
  }

  lemma {:induction false} ReadTurnIsPrinted(b: Bytes)
    requires Canonical(b)
    ensures PrintTurn(ParseTurn(b)) == b
    ensures b[0] != ZERO ==> ParseTurn(b) > 0
  {
    var n := |b| - 1;
    if n == 0 {
      assert b[..0] == [] && ParseTurn(b) == b[0] - ZERO;
      assert b == [ZERO + ParseTurn(b)];
    } else {
      var q := b[..n];
      assert q[0] == b[0];
      ReadTurnIsPrinted(q);
      assert ParseTurn(b) / 10 == ParseTurn(q) && ParseTurn(b) % 10 == b[n] - ZERO;
      assert b == q + [b[n]];
    }
  }

  /** A suffix names a turn exactly when it is that turn's print; all other text is malformed. */
  lemma SuffixIsPrint(b: Bytes, k: nat)
    ensures ReadSuffix(b) == EffectTurns.Key(k) <==> b == PrintTurn(k)
  {
    PrintedTurnIsRead(k);
    if Canonical(b) { ReadTurnIsPrinted(b); }
  }

  predicate InSession(sid: Bytes, i: EffectJournal.Identity) {
    InRange(i.scope, Prefix(SESSION, sid))
  }

  function SuffixOf(sid: Bytes, i: EffectJournal.Identity): EffectTurns.Suffix {
    var p := Prefix(SESSION, sid);
    if |p| <= |i.scope| then ReadSuffix(i.scope[|p|..]) else EffectTurns.Malformed
  }

  /** The evidence the journal holds for one session. */
  function Evidence(rows: EffectJournal.Rows, sid: Bytes): map<EffectJournal.Identity, EffectTurns.Suffix> {
    map i | i in rows && InSession(sid, i) :: SuffixOf(sid, i)
  }

  lemma ScopeNamesItsTurn(rows: EffectJournal.Rows, sid: Bytes, i: EffectJournal.Identity, k: nat)
    requires i in rows && i.scope == Scope(SESSION, sid, PrintTurn(k))
    ensures i in Evidence(rows, sid) && Evidence(rows, sid)[i] == EffectTurns.Key(k)
  {
    OwnRange(SESSION, sid, PrintTurn(k));
    assert i.scope[|Prefix(SESSION, sid)|..] == PrintTurn(k);
    PrintedTurnIsRead(k);
  }

  /** The journal and the session's row. */
  datatype Db = Db(rows: EffectJournal.Rows, mark: nat, deleted: bool, messages: seq<EffectTurns.Message>)

  function View(db: Db, sid: Bytes): EffectTurns.Session {
    EffectTurns.Session(db.mark, db.deleted, db.messages, Evidence(db.rows, sid))
  }

  datatype Op =
    | Journal(op: EffectJournal.Op)
    | Reserve(key: nat)
    | Backfill
    | AddMessage(message: EffectTurns.Message)
    | Tombstone

  /** A sweep of this session that names any row preserves the session's evidence first. */
  predicate Preserves(sid: Bytes, op: EffectJournal.Op) {
    op.SweepSession? && op.session == sid && op.captured != []
  }

  ghost predicate Step(db: Db, sid: Bytes, op: Op, db': Db) {
    match op
    case Journal(jop) =>
      && db' == db.(rows := EffectJournal.Apply(db.rows, jop), mark := db'.mark)
      && if Preserves(sid, jop) then EffectTurns.Seeded(View(db, sid), View(db, sid).(mark := db'.mark))
         else db'.mark == db.mark
    case Reserve(key) => db' == db.(mark := db'.mark) && EffectTurns.Reserved(View(db, sid), View(db', sid), key)
    case Backfill =>
      db' == db.(mark := db'.mark) && (db' == db || EffectTurns.Seeded(View(db, sid), View(db', sid)))
    case AddMessage(m) => db' == db.(messages := db.messages + [m])
    case Tombstone => db' == db.(deleted := true)
  }

  /** The rules for journal writers, on scopes: file under reserved keys, drop only what other evidence covers. */
  ghost predicate Lawful(db: Db, sid: Bytes, op: Op) {
    op.Journal? ==>
      match op.op
      case Prepare(i, _, _) => i !in db.rows && InSession(sid, i) ==> EffectTurns.MayFile(View(db, sid), SuffixOf(sid, i))
      case Discard(i) => Drops(db, sid, i) ==> EffectTurns.MayDrop(View(db, sid), i)
      case _ => true
  }

  ghost predicate Drops(db: Db, sid: Bytes, i: EffectJournal.Identity) {
    i in db.rows && db.rows[i].state == EffectJournal.Prepared && i in View(db, sid).effects
  }

  lemma SameEvidence(rows: EffectJournal.Rows, other: EffectJournal.Rows, sid: Bytes)
    requires forall i :: InSession(sid, i) ==> (i in rows <==> i in other)
    ensures Evidence(rows, sid) == Evidence(other, sid)
  {
  }

  /** Journal operations that leave the session's evidence alone. */
  lemma OthersLeaveEvidence(rows: EffectJournal.Rows, sid: Bytes, op: EffectJournal.Op)
    requires op.Settle? || op.Flag? || op.SweepRun? || (op.SweepSession? && !Preserves(sid, op))
    ensures Evidence(EffectJournal.Apply(rows, op), sid) == Evidence(rows, sid)
  {
    var after := EffectJournal.Apply(rows, op);
    forall i | InSession(sid, i) ensures i in rows <==> i in after {
      if op.SweepRun? {
        KindsAreDisjoint(op.run, sid, i.scope);
      } else if op.SweepSession? && InRange(i.scope, Prefix(SESSION, op.session)) {
        RangesAreDisjoint(SESSION, op.session, sid, i.scope);
      }
    }
    SameEvidence(rows, after, sid);
  }

  lemma PrepareFiles(rows: EffectJournal.Rows, sid: Bytes, i: EffectJournal.Identity, digest: nat, uuid: nat)
    ensures var after := Evidence(EffectJournal.Claimed(rows, i, digest, uuid), sid);
            if i !in rows && InSession(sid, i) then after == Evidence(rows, sid)[i := SuffixOf(sid, i)]
            else after == Evidence(rows, sid)
  {
    if !(i !in rows && InSession(sid, i)) {
      SameEvidence(rows, EffectJournal.Claimed(rows, i, digest, uuid), sid);
    }
  }

  lemma DiscardDrops(db: Db, sid: Bytes, i: EffectJournal.Identity)
    ensures var after := Evidence(EffectJournal.Discarded(db.rows, i), sid);
            if Drops(db, sid, i) then after == Evidence(db.rows, sid) - {i} else after == Evidence(db.rows, sid)
  {
    if !Drops(db, sid, i) {
      SameEvidence(db.rows, EffectJournal.Discarded(db.rows, i), sid);
    }
  }

  /** The evidence a session sweep removes. */
  ghost function Removed(rows: EffectJournal.Rows, sid: Bytes, op: EffectJournal.Op): set<EffectJournal.Identity> {
    Evidence(rows, sid).Keys - EffectJournal.Apply(rows, op).Keys
  }

  lemma SweepRemoves(rows: EffectJournal.Rows, sid: Bytes, op: EffectJournal.Op)
    requires op.SweepSession?
    ensures Evidence(EffectJournal.Apply(rows, op), sid) == Evidence(rows, sid) - Removed(rows, sid, op)
  {
  }

  /** What a step is on the session's evidence. */
  ghost function Shadow(db: Db, sid: Bytes, op: Op): EffectTurns.Op {
    match op
    case Reserve(key) => EffectTurns.Reserve(key)
    case Backfill => EffectTurns.Backfill
    case AddMessage(m) => EffectTurns.AddMessage(m)
    case Tombstone => EffectTurns.Tombstone
    case Journal(jop) =>
      match jop
      case Prepare(i, _, _) =>
        if i !in db.rows && InSession(sid, i) then EffectTurns.FileEffect(i, SuffixOf(sid, i)) else EffectTurns.Refused
      case Discard(i) => if Drops(db, sid, i) then EffectTurns.DropClaim(i) else EffectTurns.Refused
      case SweepSession(_, _) =>
        if !Preserves(sid, jop) then EffectTurns.Refused
        else if Removed(db.rows, sid, jop) == {} then EffectTurns.Backfill
        else EffectTurns.Sweep(Removed(db.rows, sid, jop))
      case _ => EffectTurns.Refused
  }

  /** The keys reserved and named once a step is done. */
  ghost function Advanced(w: EffectTurns.World, op: EffectTurns.Op, s: EffectTurns.Session): EffectTurns.World {
    EffectTurns.World(s,
      if op.Reserve? then w.issued + [op.key] else w.issued,
      if op.FileEffect? && op.suffix.Key? then w.named + {op.suffix.turn} else w.named)
  }

  lemma JournalRefines(db: Db, sid: Bytes, op: EffectJournal.Op, db': Db, w: EffectTurns.World)
    requires Step(db, sid, Journal(op), db') && w.s == View(db, sid)
    ensures EffectTurns.Next(w, Shadow(db, sid, Journal(op)), Advanced(w, Shadow(db, sid, Journal(op)), View(db', sid)))
  {
    match op
    case Prepare(i, digest, uuid) => PrepareFiles(db.rows, sid, i, digest, uuid);
    case Discard(i) => DiscardDrops(db, sid, i);
    case SweepSession(_, _) =>
      if Preserves(sid, op) {
        SweepRemoves(db.rows, sid, op);
        PreservedSweep(db, sid, op, db');
      } else {
        OthersLeaveEvidence(db.rows, sid, op);
      }
    case _ => OthersLeaveEvidence(db.rows, sid, op);
  }

  lemma PreservedSweep(db: Db, sid: Bytes, op: EffectJournal.Op, db': Db)
    requires Step(db, sid, Journal(op), db') && Preserves(sid, op)
    requires Evidence(db'.rows, sid) == Evidence(db.rows, sid) - Removed(db.rows, sid, op)
    ensures var gone := Removed(db.rows, sid, op);
            if gone == {} then EffectTurns.Seeded(View(db, sid), View(db', sid))
            else EffectTurns.Swept(View(db, sid), View(db', sid), gone)
  {
    var s, gone := View(db, sid), Removed(db.rows, sid, op);
    assert View(db', sid) == s.(mark := db'.mark, effects := s.effects - gone);
    if gone == {} { assert s.effects - gone == s.effects; }
  }

  /** Every step of journal and session is a step of the session's evidence, lawful in the same cases. */
  lemma StepRefines(db: Db, sid: Bytes, op: Op, db': Db, w: EffectTurns.World)
    requires Step(db, sid, op, db') && w.s == View(db, sid)
    ensures EffectTurns.Next(w, Shadow(db, sid, op), Advanced(w, Shadow(db, sid, op), View(db', sid)))
    ensures EffectTurns.Lawful(w.s, Shadow(db, sid, op)) <==> Lawful(db, sid, op)
  {
    if op.Journal? { JournalRefines(db, sid, op.op, db', w); }
  }

  /** A session from its creation, beside a journal that may already hold effects under its id. */
  ghost predicate History(dbs: seq<Db>, sid: Bytes, ops: seq<Op>) {
    && |dbs| == |ops| + 1 && dbs[0].mark == 0
    && forall n {:trigger ops[n]} :: 0 <= n < |ops| ==> Step(dbs[n], sid, ops[n], dbs[n+1])
  }

  ghost predicate Follows(db: Db, sid: Bytes, op: Op, w: EffectTurns.World, o: EffectTurns.Op, w': EffectTurns.World) {
    o == Shadow(db, sid, op) && w.named <= w'.named
  }

  /** The life of the session's evidence along a history. */
  ghost predicate Traces(dbs: seq<Db>, sid: Bytes, ops: seq<Op>, n: nat, ws: seq<EffectTurns.World>, os: seq<EffectTurns.Op>) {
    && n < |dbs| && n <= |ops| && |ws| == n + 1 && |os| == n && EffectTurns.Life(ws, os)
    && (forall m {:trigger ws[m]} :: 0 <= m <= n ==> ws[m].s == View(dbs[m], sid))
    && (forall m {:trigger os[m]} :: 0 <= m < n ==> Follows(dbs[m], sid, ops[m], ws[m], os[m], ws[m+1]))
  }

  lemma {:induction false} HistoryTraces(dbs: seq<Db>, sid: Bytes, ops: seq<Op>, n: nat)
    returns (ws: seq<EffectTurns.World>, os: seq<EffectTurns.Op>)
    requires History(dbs, sid, ops) && n < |dbs|
    ensures Traces(dbs, sid, ops, n, ws, os)
  {
    if n == 0 {
      var s := View(dbs[0], sid);
      var named := set e | e in s.effects && s.effects[e].Key? :: s.effects[e].turn;
      ws, os := [EffectTurns.World(s, [], named)], [];
    } else {
      ws, os := HistoryTraces(dbs, sid, ops, n - 1);
      var op := Shadow(dbs[n-1], sid, ops[n-1]);
      StepRefines(dbs[n-1], sid, ops[n-1], dbs[n], ws[n-1]);
      TraceExtends(dbs, sid, ops, n, ws, os, op);
      ws, os := ws + [Advanced(ws[n-1], op, View(dbs[n], sid))], os + [op];
    }
  }

  lemma TraceExtends(dbs: seq<Db>, sid: Bytes, ops: seq<Op>, n: nat, ws: seq<EffectTurns.World>, os: seq<EffectTurns.Op>, op: EffectTurns.Op)
    requires 0 < n < |dbs| && n <= |ops| && Traces(dbs, sid, ops, n - 1, ws, os) && op == Shadow(dbs[n-1], sid, ops[n-1])
    requires EffectTurns.Next(ws[n-1], op, Advanced(ws[n-1], op, View(dbs[n], sid)))
    ensures Traces(dbs, sid, ops, n, ws + [Advanced(ws[n-1], op, View(dbs[n], sid))], os + [op])
  {
    var vs, ps := ws + [Advanced(ws[n-1], op, View(dbs[n], sid))], os + [op];
    forall i {:trigger ps[i]} | 0 <= i < |ps| ensures EffectTurns.Next(vs[i], ps[i], vs[i+1]) {
      if i < n - 1 { assert ps[i] == os[i] && vs[i] == ws[i] && vs[i+1] == ws[i+1]; }
    }
    forall m {:trigger ps[m]} | 0 <= m < n ensures Follows(dbs[m], sid, ops[m], vs[m], ps[m], vs[m+1]) {
      if m < n - 1 { assert ps[m] == os[m] && vs[m] == ws[m] && vs[m+1] == ws[m+1]; }
    }
    assert vs[0] == ws[0];
    assert EffectTurns.Life(vs, ps);
    forall m {:trigger vs[m]} | 0 <= m <= n ensures vs[m].s == View(dbs[m], sid) {
      if m < n { assert vs[m] == ws[m]; }
    }
  }

  lemma {:induction false} NamesAreKept(dbs: seq<Db>, sid: Bytes, ops: seq<Op>, n: nat, ws: seq<EffectTurns.World>, os: seq<EffectTurns.Op>, m: nat, k: nat)
    requires Traces(dbs, sid, ops, n, ws, os) && m <= n && k in ws[m].named
    ensures k in ws[n].named
    decreases n - m
  {
    if m < n {
      assert Follows(dbs[m], sid, ops[m], ws[m], os[m], ws[m+1]);
      NamesAreKept(dbs, sid, ops, n, ws, os, m + 1, k);
    }
  }

  lemma FiledIsNamed(dbs: seq<Db>, sid: Bytes, ops: seq<Op>, n: nat, ws: seq<EffectTurns.World>, os: seq<EffectTurns.Op>, m: nat, i: EffectJournal.Identity, k: nat)
    requires Traces(dbs, sid, ops, n, ws, os) && m <= n
    requires i in dbs[m].rows && i.scope == Scope(SESSION, sid, PrintTurn(k))
    ensures k in ws[n].named
  {
    ScopeNamesItsTurn(dbs[m].rows, sid, i, k);
    EffectTurns.LifeIsSound(ws, os, m);
    assert ws[m].s == View(dbs[m], sid);
    NamesAreKept(dbs, sid, ops, n, ws, os, m, k);
  }

  ghost predicate LawfulUpTo(dbs: seq<Db>, sid: Bytes, ops: seq<Op>, n: nat) {
    forall m {:trigger ops[m]} :: 0 <= m < n && m < |ops| && m < |dbs| ==> Lawful(dbs[m], sid, ops[m])
  }

  /** The key handed out is above a turn exactly when the session's mark or evidence covers that turn. */
  lemma ReservedKeyIsExact(db: Db, sid: Bytes, db': Db, key: nat, k: nat)
    requires Step(db, sid, Reserve(key), db')
    ensures k < key <==> EffectTurns.Covered(View(db, sid), k)
  {
    EffectTurns.NextKeyIsExact(View(db, sid), View(db', sid), key, k);
  }

  /**
   * While journal writers keep the two rules, a reserved key is above the turn of every scope of the session that
   * any row has ever had, whether that row has since been settled, flagged, discarded or swept.
   */
  lemma ReservedKeyIsNewInTheJournal(dbs: seq<Db>, sid: Bytes, ops: seq<Op>, n: nat, m: nat, i: EffectJournal.Identity, k: nat)
    requires History(dbs, sid, ops) && m <= n < |ops| && ops[n].Reserve? && LawfulUpTo(dbs, sid, ops, n)
    requires i in dbs[m].rows && i.scope == Scope(SESSION, sid, PrintTurn(k))
    ensures k < ops[n].key
  {
    var ws, os := HistoryTraces(dbs, sid, ops, n);
    assert EffectTurns.LawfulLife(ws, os, n) by {
      forall j {:trigger os[j]} | 0 <= j < n ensures EffectTurns.Lawful(ws[j].s, os[j]) {
        assert Lawful(dbs[j], sid, ops[j]);
        StepRefines(dbs[j], sid, ops[j], dbs[j+1], ws[j]);
      }
    }
    EffectTurns.CoveredIffLawful(ws, os, n);
    FiledIsNamed(dbs, sid, ops, n, ws, os, m, i, k);
    ReservedKeyIsExact(dbs[n], sid, dbs[n+1], ops[n].key, k);
  }
}
