/** The durable effect journal: one row per effect identity, claimed before dispatch and settled after it. */
module EffectJournal {
  import opened Collections
  import opened ScopeRange

  datatype Identity = Identity(scope: Bytes, slot: int, tool: nat)

  datatype EffectState = Prepared | Committed | Ambiguous | NeedsAttention

  /** A stored result: absent, a JSON value, or text that no longer parses. */
  datatype Stored = Nothing | Json(value: int) | Garbled

  datatype Row = Row(id: nat, state: EffectState, digest: nat, result: Stored)

  type Rows = map<Identity, Row>

  datatype Verdict = Proceed | Replay(value: int) | Conflict

  predicate IsSession(i: Identity) {
    IsPrefix(SESSION, i.scope)
  }

  datatype Captured = Captured(id: nat, identity: Identity)

  function Judge(rows: Rows, i: Identity, digest: nat): Verdict {
    if i !in rows then Proceed
    else if !IsSession(i) && rows[i].state == Committed && rows[i].digest == digest && rows[i].result.Json?
    then Replay(rows[i].result.value)
    else Conflict
  }

  function Claimed(rows: Rows, i: Identity, digest: nat, uuid: nat): Rows {
    if i in rows then rows else rows[i := Row(uuid, Prepared, digest, Nothing)]
  }

  function Settled(rows: Rows, i: Identity, to: EffectState, result: Option<int>): Rows {
    if i in rows && rows[i].state == Prepared then
      rows[i := rows[i].(state := to,
                         result := if IsSession(i) then Nothing else if result.None? then rows[i].result else Json(result.value))]
    else rows
  }

  function Discarded(rows: Rows, i: Identity): Rows {
    if i in rows && rows[i].state == Prepared then rows - {i} else rows
  }

  function Flagged(rows: Rows, i: Identity): Rows {
    if i in rows then rows[i := rows[i].(state := NeedsAttention)] else rows
  }

  /** A run sweep takes the committed rows in the run's range. */
  predicate SweptByRun(rows: Rows, run: Bytes, i: Identity) {
    i in rows && InRange(i.scope, Prefix(RUN, run)) && rows[i].state == Committed
  }

  /** A session sweep takes committed rows in the session's range that the disclosure captured by id and address. */
  predicate SweptBySession(rows: Rows, session: Bytes, captured: seq<Captured>, i: Identity) {
    i in rows && InRange(i.scope, Prefix(SESSION, session)) && rows[i].state == Committed
    && Captured(rows[i].id, i) in captured
  }

  function RunSwept(rows: Rows, run: Bytes): Rows {
    map i | i in rows && !SweptByRun(rows, run, i) :: rows[i]
  }

  function SessionSwept(rows: Rows, session: Bytes, captured: seq<Captured>): Rows {
    map i | i in rows && !SweptBySession(rows, session, captured, i) :: rows[i]
  }

  ghost predicate SameElsewhere(rows: Rows, after: Rows, i: Identity) {
    forall j :: j != i ==> (j in rows <==> j in after) && (j in rows ==> rows[j] == after[j])
  }

  /** The scope's text starts with `session:`. */
  ghost predicate InSessionScope(i: Identity) {
    |i.scope| >= 8 && forall k :: 0 <= k < 8 ==> i.scope[k] as char == "session:"[k]
  }

  /** A committed result of the same call that can still be read. */
  ghost predicate Replayable(row: Row, digest: nat) {
    row.state == Committed && row.digest == digest && row.result.Json?
  }

  /** The same row in another state. */
  ghost predicate SettledAs(before: Row, after: Row, to: EffectState) {
    after.id == before.id && after.digest == before.digest && after.state == to
  }

  lemma SessionText(i: Identity)
    ensures IsSession(i) <==> InSessionScope(i)
  {
    if |i.scope| >= 8 {
      assert forall k :: 0 <= k < 8 ==> SESSION[k] as char == "session:"[k];
      assert forall k :: 0 <= k < 8 ==> i.scope[..8][k] == i.scope[k];
    }
  }

  class JournalStore {
    var rows: Rows

    constructor ()
      ensures rows == map[]
    {
      rows := map[];
    }

    /** A free identity is claimed; a held one is replayed or refused, and stays as it is. */
    method Prepare(i: Identity, digest: nat, uuid: nat) returns (v: Verdict)
      modifies this
      ensures v == Proceed <==> i !in old(rows)
      ensures v == Proceed ==> rows == old(rows)[i := Row(uuid, Prepared, digest, Nothing)]
      ensures v.Replay? <==> i in old(rows) && !InSessionScope(i) && Replayable(old(rows)[i], digest)
      ensures v.Replay? ==> old(rows)[i].result == Json(v.value)
      ensures v != Proceed ==> rows == old(rows)
      ensures v == Judge(old(rows), i, digest)
      ensures rows == Claimed(old(rows), i, digest, uuid)
    {
      SessionText(i);
      if i in rows {
        var held := rows[i];
        if !IsSession(i) && held.state == Committed && held.digest == digest && held.result != Nothing {
          match held.result {
            case Json(value) => return Replay(value);
            case Garbled => return Conflict;
          }
        }
        return Conflict;
      }
      rows := rows[i := Row(uuid, Prepared, digest, Nothing)];
      v := Proceed;
    }

    /** Out of `prepared` only, into the state asked for; anything else is reported as a failed transition and changes nothing. */
    method Settle(i: Identity, to: EffectState, result: Option<int>) returns (changed: bool)
      requires to == Committed || to == Ambiguous
      modifies this
      ensures changed <==> i in old(rows) && old(rows)[i].state == Prepared
      ensures changed ==> i in rows && SettledAs(old(rows)[i], rows[i], to)
      ensures changed && InSessionScope(i) ==> rows[i].result == Nothing
      ensures changed && !InSessionScope(i) ==> rows[i].result == if result.None? then old(rows)[i].result else Json(result.value)
      ensures SameElsewhere(old(rows), rows, i)
      ensures !changed ==> rows == old(rows)
      ensures rows == Settled(old(rows), i, to, result)
    {
      SessionText(i);
      changed := i in rows && rows[i].state == Prepared;
      if changed {
        var row := rows[i].(state := to);
        if IsSession(i) {
          row := row.(result := Nothing);
        } else if result.Some? {
          row := row.(result := Json(result.value));
        }
        rows := rows[i := row];
      }
    }

    /** Frees the identity for a new claim, unless its effect has been settled or flagged. */
    method Discard(i: Identity)
      modifies this
      ensures rows == Discarded(old(rows), i)
      ensures forall digest :: Judge(rows, i, digest) == Proceed <==> i in old(rows) ==> old(rows)[i].state == Prepared
      ensures SameElsewhere(old(rows), rows, i)
    {
      if i in rows && rows[i].state == Prepared {
        rows := rows - {i};
      }
    }

    /** From now on the identity conflicts, whatever state its row was in; an identity without a row stays free. */
    method FlagForAttention(i: Identity)
      modifies this
      ensures rows == Flagged(old(rows), i)
      ensures forall digest :: Judge(rows, i, digest) == if i in old(rows) then Conflict else Proceed
      ensures SameElsewhere(old(rows), rows, i)
    {
      if i in rows {
        rows := rows[i := rows[i].(state := NeedsAttention)];
      }
    }

    /** Deletes the committed rows whose scope starts with the run's prefix and leaves all others as they are. */
    method SweepCommittedForRun(run: Bytes)
      modifies this
      ensures rows == RunSwept(old(rows), run)
      ensures forall i :: i in rows <==> i in old(rows) && !(IsPrefix(Prefix(RUN, run), i.scope) && old(rows)[i].state == Committed)
      ensures forall i :: i in rows ==> rows[i] == old(rows)[i]
    {
      forall i: Identity ensures InRange(i.scope, Prefix(RUN, run)) <==> IsPrefix(Prefix(RUN, run), i.scope) {
        RangeIsPrefix(i.scope, Prefix(RUN, run));
      }
      rows := map i | i in rows && !(InRange(i.scope, Prefix(RUN, run)) && rows[i].state == Committed) :: rows[i];
    }

    /** The captured addresses are deleted a hundred at a time, inside one transaction. */
    method SweepCommittedForSession(session: Bytes, captured: seq<Captured>)
      modifies this
      ensures rows == SessionSwept(old(rows), session, captured)
      ensures forall i :: i in old(rows) ==>
                (i !in rows <==> IsPrefix(Prefix(SESSION, session), i.scope) && old(rows)[i].state == Committed && Captured(old(rows)[i].id, i) in captured)
      ensures forall i :: i in rows ==> i in old(rows)
      ensures forall i :: i in rows ==> rows[i] == old(rows)[i]
    {
      forall i: Identity ensures InRange(i.scope, Prefix(SESSION, session)) <==> IsPrefix(Prefix(SESSION, session), i.scope) {
        RangeIsPrefix(i.scope, Prefix(SESSION, session));
      }
      ghost var before := rows;
      var i := 0;
      while i < |captured|
        invariant 0 <= i <= |captured|
        invariant rows == SessionSwept(before, session, captured[..i])
      {
        var upTo := if i + 100 < |captured| then i + 100 else |captured|;
        var chunk := captured[i..upTo];
        rows := map k | k in rows && !SweptBySession(rows, session, chunk, k) :: rows[k];
        ChunkSwept(before, session, captured[..i], chunk);
        assert captured[..i] + chunk == captured[..upTo];
        i := upTo;
      }
      assert captured[..|captured|] == captured;
    }
  }

  lemma ChunkSwept(rows: Rows, session: Bytes, done: seq<Captured>, chunk: seq<Captured>)
    ensures SessionSwept(SessionSwept(rows, session, done), session, chunk) == SessionSwept(rows, session, done + chunk)
  {
  }

  // Runs of the journal.

  datatype Op =
    | Prepare(i: Identity, digest: nat, uuid: nat)
    | Settle(i: Identity, to: EffectState, result: Option<int>)
    | Discard(i: Identity)
    | Flag(i: Identity)
    | SweepRun(run: Bytes)
    | SweepSession(session: Bytes, captured: seq<Captured>)

  /** A settle leaves a claim committed or ambiguous. */
  predicate Legal(op: Op) {
    op.Settle? ==> op.to == Committed || op.to == Ambiguous
  }

  function Apply(rows: Rows, op: Op): Rows {
    match op
    case Prepare(i, digest, uuid) => Claimed(rows, i, digest, uuid)
    case Settle(i, to, result) => Settled(rows, i, to, result)
    case Discard(i) => Discarded(rows, i)
    case Flag(i) => Flagged(rows, i)
    case SweepRun(run) => RunSwept(rows, run)
    case SweepSession(session, captured) => SessionSwept(rows, session, captured)
  }

  function After(rows: Rows, ops: seq<Op>): Rows {
    if ops == [] then rows else Apply(After(rows, ops[..|ops|-1]), ops[|ops|-1])
  }

  /** The operation frees the identity: it discards a prepared claim or sweeps a committed row. */
  ghost predicate Frees(rows: Rows, op: Op, i: Identity) {
    && i in rows && i !in Apply(rows, op)
    && ((op == Discard(i) && rows[i].state == Prepared)
        || ((op.SweepRun? || op.SweepSession?) && rows[i].state == Committed))
  }

  lemma OnlyFreeingRemoves(rows: Rows, op: Op, i: Identity)
    requires i in rows && i !in Apply(rows, op)
    ensures Frees(rows, op, i)
  {
  }

  /** An identity that was there and is gone was freed in between. */
  lemma {:induction false} MissingMeansFreed(rows: Rows, ops: seq<Op>, a: nat, b: nat, i: Identity) returns (k: nat)
    requires a <= b <= |ops| && i in After(rows, ops[..a]) && i !in After(rows, ops[..b])
    ensures a <= k < b && Frees(After(rows, ops[..k]), ops[k], i)
  {
    AfterNext(rows, ops, b - 1);
    if i !in After(rows, ops[..b-1]) {
      k := MissingMeansFreed(rows, ops, a, b - 1, i);
    } else {
      k := b - 1;
      OnlyFreeingRemoves(After(rows, ops[..k]), ops[k], i);
    }
  }

  lemma AfterNext(rows: Rows, ops: seq<Op>, k: nat)
    requires k < |ops|
    ensures After(rows, ops[..k+1]) == Apply(After(rows, ops[..k]), ops[k])
  {
    assert ops[..k+1][..k] == ops[..k];
  }

  /** Two permissions to dispatch one effect are always separated by freeing its identity. */
  lemma ProceedsAreSeparated(rows: Rows, ops: seq<Op>, a: nat, b: nat, i: Identity) returns (k: nat)
    requires a < b < |ops| && ops[a].Prepare? && ops[a].i == i && ops[b].Prepare? && ops[b].i == i
    requires Judge(After(rows, ops[..a]), i, ops[a].digest) == Proceed
    requires Judge(After(rows, ops[..b]), i, ops[b].digest) == Proceed
    ensures a < k < b && Frees(After(rows, ops[..k]), ops[k], i)
  {
    AfterNext(rows, ops, a);
    k := MissingMeansFreed(rows, ops, a + 1, b, i);
  }

  predicate Unresolved(s: EffectState) {
    s == Ambiguous || s == NeedsAttention
  }

  /** An ambiguous or flagged row is never deleted, and every later prepare conflicts. */
  lemma {:induction false} UnresolvedStays(rows: Rows, ops: seq<Op>, i: Identity, digest: nat)
    requires i in rows && Unresolved(rows[i].state)
    ensures i in After(rows, ops) && Unresolved(After(rows, ops)[i].state)
    ensures Judge(After(rows, ops), i, digest) == Conflict
  {
    if ops != [] {
      UnresolvedStays(rows, ops[..|ops|-1], i, digest);
    }
  }

  /** Where a committed row's result came from: a claim of that digest, then a settle with that value. */
  ghost predicate Origin(ops: seq<Op>, i: Identity, row: Row, p: nat, s: nat) {
    && p < s < |ops| && ops[p] == Prepare(i, row.digest, row.id)
    && Judge(After(map[], ops[..p]), i, row.digest) == Proceed
    && ops[s].Settle? && ops[s].i == i && ops[s].to == Committed
    && (if IsSession(i) || ops[s].result.None? then row.result == Nothing else row.result == Json(ops[s].result.value))
    && forall k {:trigger ops[..k]} :: p < k <= s ==> i in After(map[], ops[..k]) && After(map[], ops[..k])[i].state == Prepared
  }

  ghost predicate Claim(ops: seq<Op>, i: Identity, row: Row, p: nat) {
    && p < |ops| && ops[p] == Prepare(i, row.digest, row.id) && row.result == Nothing
    && Judge(After(map[], ops[..p]), i, row.digest) == Proceed
    && forall k {:trigger ops[..k]} :: p < k <= |ops| ==> i in After(map[], ops[..k]) && After(map[], ops[..k])[i].state == Prepared
  }

  lemma {:induction false} PreparedHasClaim(ops: seq<Op>, i: Identity) returns (p: nat)
    requires forall k :: 0 <= k < |ops| ==> Legal(ops[k])
    requires i in After(map[], ops) && After(map[], ops)[i].state == Prepared
    ensures Claim(ops, i, After(map[], ops)[i], p)
  {
    var n := |ops| - 1;
    var before := After(map[], ops[..n]);
    assert Legal(ops[n]);
    assert ops[..|ops|] == ops;
    if i in before {
      assert before[i] == After(map[], ops)[i];
      p := PreparedHasClaim(ops[..n], i);
      assert ops[..n][..p] == ops[..p];
      forall k {:trigger ops[..k]} | p < k <= |ops| ensures i in After(map[], ops[..k]) && After(map[], ops[..k])[i].state == Prepared {
        if k <= n { assert ops[..n][..k] == ops[..k]; }
      }
    } else {
      p := n;
      forall k {:trigger ops[..k]} | p < k <= |ops| ensures i in After(map[], ops[..k]) && After(map[], ops[..k])[i].state == Prepared {
        assert ops[..k] == ops;
      }
    }
  }

  lemma {:induction false} CommittedHasOrigin(ops: seq<Op>, i: Identity) returns (p: nat, s: nat)
    requires forall k :: 0 <= k < |ops| ==> Legal(ops[k])
    requires i in After(map[], ops) && After(map[], ops)[i].state == Committed
    ensures Origin(ops, i, After(map[], ops)[i], p, s)
  {
    var n := |ops| - 1;
    var before := After(map[], ops[..n]);
    if i in before && before[i].state == Committed {
      p, s := CommittedHasOrigin(ops[..n], i);
      assert ops[..n][..p] == ops[..p];
      forall k {:trigger ops[..k]} | p < k <= s ensures i in After(map[], ops[..k]) && After(map[], ops[..k])[i].state == Prepared {
        assert ops[..n][..k] == ops[..k];
      }
    } else {
      p := PreparedHasClaim(ops[..n], i);
      s := n;
      assert ops[..n][..p] == ops[..p];
      forall k {:trigger ops[..k]} | p < k <= s ensures i in After(map[], ops[..k]) && After(map[], ops[..k])[i].state == Prepared {
        assert ops[..n][..k] == ops[..k];
      }
    }
  }

  /**
   * A replay hands back the value that the same effect, claimed with the same argument digest, was settled
   * with; the claim was never interrupted. It never happens in a session scope.
   */
  lemma ReplayReturnsTheSettledResult(ops: seq<Op>, i: Identity, digest: nat) returns (p: nat, s: nat)
    requires forall k :: 0 <= k < |ops| ==> Legal(ops[k])
    requires Judge(After(map[], ops), i, digest).Replay?
    ensures !IsSession(i)
    ensures Origin(ops, i, After(map[], ops)[i], p, s)
    ensures ops[p].digest == digest && ops[s].result == Some(Judge(After(map[], ops), i, digest).value)
  {
    p, s := CommittedHasOrigin(ops, i);
  }

  /** What a settle is for: a run's effect committed with a value is replayed to the same call with that value. */
  lemma SettledEffectReplays(rows: Rows, i: Identity, value: int)
    requires i in rows && rows[i].state == Prepared && !InSessionScope(i)
    ensures Judge(Apply(rows, Settle(i, Committed, Some(value))), i, rows[i].digest) == Replay(value)
    ensures forall digest :: digest != rows[i].digest ==> Judge(Apply(rows, Settle(i, Committed, Some(value))), i, digest) == Conflict
  {
    SessionText(i);
  }

  /** And one left ambiguous, or settled in a session scope, conflicts with every later call. */
  lemma UnreplayableSettleConflicts(rows: Rows, i: Identity, to: EffectState, result: Option<int>, digest: nat)
    requires i in rows && rows[i].state == Prepared && (to == Ambiguous || (to == Committed && InSessionScope(i)))
    ensures Judge(Apply(rows, Settle(i, to, result)), i, digest) == Conflict
  {
    SessionText(i);
  }

  /** A committed result that is not freed goes on replaying exactly until it is flagged. */
  lemma {:induction false} CommittedReplaysUnlessFlagged(rows: Rows, ops: seq<Op>, i: Identity, digest: nat)
    requires Judge(rows, i, digest).Replay?
    requires forall k {:trigger ops[..k]} :: 0 <= k <= |ops| ==> i in After(rows, ops[..k])
    ensures i in After(rows, ops)
    ensures Judge(After(rows, ops), i, digest) == if Flag(i) in ops then Conflict else Judge(rows, i, digest)
  {
    assert ops[..|ops|] == ops;
    if ops != [] {
      var n := |ops| - 1;
      var shorter := ops[..n];
      forall k {:trigger shorter[..k]} | 0 <= k <= n ensures i in After(rows, shorter[..k]) {
        assert shorter[..k] == ops[..k];
      }
      CommittedReplaysUnlessFlagged(rows, shorter, i, digest);
      assert ops == shorter + [ops[n]];
      if Flag(i) in shorter {
        FlaggedIsUnresolved(rows, shorter, i);
        UnresolvedStays(After(rows, shorter), [ops[n]], i, digest);
      }
    }
  }

  lemma {:induction false} FlaggedIsUnresolved(rows: Rows, ops: seq<Op>, i: Identity)
    requires Flag(i) in ops
    requires forall k {:trigger ops[..k]} :: 0 <= k <= |ops| ==> i in After(rows, ops[..k])
    ensures i in After(rows, ops) && Unresolved(After(rows, ops)[i].state)
  {
    var n := |ops| - 1;
    var shorter := ops[..n];
    forall k {:trigger shorter[..k]} | 0 <= k <= n ensures i in After(rows, shorter[..k]) {
      assert shorter[..k] == ops[..k];
    }
    assert shorter[..n] == shorter && i in After(rows, shorter);
    if ops[n] != Flag(i) {
      assert ops == shorter + [ops[n]];
      FlaggedIsUnresolved(rows, shorter, i);
    }
  }

  /** A session sweep takes exactly that session's committed rows the disclosure captured, and no run's. */
  lemma SessionSweepIsConfined(rows: Rows, session: Bytes, captured: seq<Captured>, other: Bytes, rest: Bytes, slot: int, tool: nat)
    ensures var i := Identity(Scope(SESSION, other, rest), slot, tool);
            i in rows ==> (i !in SessionSwept(rows, session, captured) <==>
                             session == other && rows[i].state == Committed && Captured(rows[i].id, i) in captured)
    ensures var i := Identity(Scope(RUN, other, rest), slot, tool);
            i in rows ==> i in SessionSwept(rows, session, captured)
  {
    RangeSelectsOwner(SESSION, session, other, rest);
    OwnRange(RUN, other, rest);
    KindsAreDisjoint(other, session, Scope(RUN, other, rest));
  }

  /** A run sweep takes a run's own committed rows and no other run's or session's. */
  lemma RunSweepIsConfined(rows: Rows, run: Bytes, other: Bytes, rest: Bytes, slot: int, tool: nat)
    ensures var i := Identity(Scope(RUN, other, rest), slot, tool);
            i in rows ==> (i !in RunSwept(rows, run) <==> run == other && rows[i].state == Committed)
    ensures var i := Identity(Scope(SESSION, other, rest), slot, tool);
            i in rows ==> i in RunSwept(rows, run)
  {
    RangeSelectsOwner(RUN, run, other, rest);
    OwnRange(SESSION, other, rest);
    KindsAreDisjoint(run, other, Scope(SESSION, other, rest));
  }
}
