/** The session store's usage and cost transactions, statement by statement. */
module LedgerStore {
  import opened Collections
  import opened LedgerSums
  import opened SessionLedger

  /** An empty table. */
  method NoRows<T>() returns (s: seq<T>)
    ensures |s| == 0
  {
    s := [];
  }

  class Store {
    var pending: int
    var unknown: int
    var covers: seq<Cover>
    var rows: seq<Invocation>
    var highWater: nat
    var deleted: bool
    var costs: seq<CostRow>
    var total: int
    var held: int
    var authorities: map<nat, Authority>
    ghost var gone: seq<Invocation>
    ghost var charged: seq<nat>

    ghost function Value(): Session
      reads this
    {
      Session(Books(pending, unknown, covers, rows, gone), highWater, deleted, costs, total, held, authorities, charged)
    }

    /** Counters, receipts and money agree, as every run of the store keeps them. */
    ghost predicate Valid()
      reads this
    {
      Good(Value())
    }

    constructor ()
      ensures Valid() && IsNew(Value())
    {
      pending, unknown, highWater, deleted, total, held := 0, 0, 0, false, 0, 0;
      var noCovers := NoRows();
      var noRows := NoRows();
      var noCosts := NoRows();
      var noReceipts := NoRows();
      covers, rows, costs, gone, charged, authorities := noCovers, noRows, noCosts, noRows, noReceipts, map[];
      new;
      NewIsGood(Value());
    }

    method FindCover(m: Model) returns (i: nat)
      ensures i == CoverIndex(covers, m)
    {
      i := 0;
      while i < |covers| && covers[i].model != m
        invariant i <= |covers| && forall k :: 0 <= k < i ==> covers[k].model != m
      {
        i := i + 1;
      }
    }

    method FindRow(o: nat) returns (k: nat)
      ensures k == RowIndex(rows, o)
    {
      k := 0;
      while k < |rows| && rows[k].ordinal != o
        invariant k <= |rows| && forall l :: 0 <= l < k ==> rows[l].ordinal != o
      {
        k := k + 1;
      }
    }

    method FindCost(m: Model) returns (i: nat)
      ensures i == CostIndex(costs, m)
    {
      i := 0;
      while i < |costs| && !(costs[i].model == m && !costs[i].legacy)
        invariant i <= |costs| && forall k :: 0 <= k < i ==> costs[k].model != m || costs[k].legacy
      {
        i := i + 1;
      }
    }

    /** Both counters of one model and of the owner; false when the model has no counter row. */
    method ChangeCoverage(m: Model, dp: int, du: int) returns (ok: bool)
      modifies `pending, `unknown, `covers
      ensures ok <==> CoverIndex(old(covers), m) < |old(covers)|
      ensures ok ==> Value().books == Changed(old(Value().books), CoverIndex(old(covers), m), dp, du)
      ensures !ok ==> Value() == old(Value())
    {
      var i := FindCover(m);
      if i == |covers| {
        return false;
      }
      covers := covers[i := Cover(covers[i].model, covers[i].pending + dp, covers[i].unknown + du)];
      pending := pending + dp;
      unknown := unknown + du;
      ok := true;
    }

    method EnsureCover(m: Model)
      modifies `covers
      ensures Value().books == WithCover(old(Value().books), m)
    {
      var i := FindCover(m);
      if i == |covers| {
        covers := covers + [Cover(m, 0, 0)];
      }
    }

    /** The next ordinal, its counters, its pending row and its receipt. */
    method InsertInvocation(m: Model, context: nat)
      modifies this
      ensures Value() == Begun(old(Value()), m, context)
    {
      highWater := highWater + 1;
      EnsureCover(m);
      var _ := ChangeCoverage(m, 1, 0);
      rows := rows + [Invocation(highWater, m, context, false)];
      authorities := authorities[highWater := Authority(m, context, false)];
    }

    /** An accepted begin hands out an ordinal no receipt has had, good for one charge on its model. */
    method BeginInvocation(m: Model, context: nat, oneShot: bool) returns (v: Verdict, ordinal: nat)
      requires Valid()
      modifies this
      ensures Valid() && v == JudgeBegin(old(Value()), oneShot)
      ensures Value() == Apply(old(Value()), Begin(m, context, oneShot))
      ensures v == Accepted <==> (!old(deleted) || oneShot) && old(highWater) < 9007199254740991
      ensures v == Accepted ==> ordinal == highWater == old(highWater) + 1 && rows == old(rows) + [Invocation(ordinal, m, context, false)]
      ensures v == Accepted ==> authorities == old(authorities)[ordinal := Authority(m, context, false)]
      ensures v != Accepted ==> Value() == old(Value())
      ensures costs == old(costs) && total == old(total) && held == old(held)
      ensures v == Accepted ==> ordinal !in old(authorities) && ordinal !in old(charged) && JudgeCost(Value(), m, Some(ordinal)) == Accepted
      ensures v == Accepted ==> pending == old(pending) + 1 && unknown == old(unknown)
    {
      ordinal := 0;
      if deleted && !oneShot {
        return HistoryInvalid, ordinal;
      }
      if highWater >= MAX_ORDINAL {
        return OrdinalsExhausted, ordinal;
      }
      ghost var before := Value();
      InsertInvocation(m, context);
      BegunIsNew(before, m, context);
      BegunIsGood(before, m, context);
      v, ordinal := Accepted, highWater;
    }

    /** Authority and row state, as every later use of a receipt reads them first. */
    method ReadReceipt(o: nat) returns (v: Verdict, k: nat)
      ensures v == JudgeReceipt(Value(), o)
      ensures v == Accepted ==> k == RowIndex(rows, o) && k < |rows|
    {
      k := 0;
      if o !in authorities {
        return ReceiptInvalid, k;
      }
      if authorities[o].retired {
        return Declined, k;
      }
      k := FindRow(o);
      var i := FindCover(authorities[o].model);
      if k == |rows| || rows[k].model != authorities[o].model || rows[k].context != authorities[o].context || i == |covers| {
        return HistoryInvalid, k;
      }
      v := Accepted;
    }

    /** The row of a disposed call: gone, or counted as unknown. */
    method DisposeRow(o: nat, k: nat, incomplete: bool)
      requires Readable(Value(), o) && k == RowIndex(rows, o) && !rows[k].incomplete
      modifies this
      ensures Value() == Disposed(old(Value()), o, incomplete)
    {
      var _ := ChangeCoverage(rows[k].model, -1, if incomplete then 1 else 0);
      if incomplete {
        rows := rows[k := rows[k].(incomplete := true)];
      } else {
        rows := Without(rows, k);
        authorities := authorities[o := authorities[o].(retired := true)];
      }
    }

    /** A receipt is disposed of at most once, and disposing moves no money. */
    method Dispose(o: nat, incomplete: bool) returns (v: Verdict)
      requires Valid()
      modifies this
      ensures Valid() && v == JudgeDisposition(old(Value()), o)
      ensures Value() == Apply(old(Value()), Op.Dispose(o, incomplete))
      ensures v == Accepted <==> Live(old(authorities), o) && exists k :: 0 <= k < |old(rows)| && old(rows)[k].ordinal == o && !old(rows)[k].incomplete
      ensures v == Accepted && !incomplete ==> Deletes(old(rows), rows, o)
      ensures v == Accepted && incomplete ==> Marks(old(rows), rows, o)
      ensures v != Accepted ==> Value() == old(Value())
      ensures v == Accepted ==> pending == old(pending) - 1 && unknown == old(unknown) + if incomplete then 1 else 0
      ensures v == Accepted ==> JudgeDisposition(Value(), o) == Declined
      ensures costs == old(costs) && total == old(total) && held == old(held)
    {
      var k;
      LiveReceipt(Value(), o);
      v, k := ReadReceipt(o);
      if v != Accepted {
        return;
      }
      ghost var before := Value();
      OneRow(before, o);
      if rows[k].incomplete {
        return Declined;
      }
      DisposeRow(o, k, incomplete);
      DisposedRows(before, o, incomplete);
      DisposedIsGood(before, o, incomplete);
      DisposedIsFinal(before, o, incomplete);
    }

    /** Settles a receipt inside the cost transaction, before any money is written. */
    method CompleteInvocation(o: nat) returns (v: Verdict)
      modifies `pending, `unknown, `covers, `rows, `authorities
      ensures v == JudgeReceipt(old(Value()), o)
      ensures Value() == if v == Accepted then Settled(old(Value()), o) else old(Value())
    {
      var k;
      v, k := ReadReceipt(o);
      if v != Accepted {
        return;
      }
      var row := rows[k];
      var _ := ChangeCoverage(row.model, if row.incomplete then 0 else -1, if row.incomplete then -1 else 0);
      rows := Without(rows, k);
      authorities := authorities[o := authorities[o].(retired := true)];
    }

    /** The additive upsert shared by realized and conservative writes. */
    method AddToModel(m: Model, money: int, hold: int)
      modifies `costs
      ensures costs == Upserted(old(costs), m, money, hold)
    {
      var i := FindCost(m);
      if i < |costs| {
        costs := costs[i := costs[i].(money := costs[i].money + money, held := costs[i].held + hold)];
      } else {
        costs := costs + [CostRow(m, false, money, hold)];
      }
    }

    /** The cost transaction: settle the receipt, then the two additive writes. */
    method WriteCost(m: Model, amount: nat, receipt: Option<nat>) returns (v: Verdict)
      modifies this
      ensures v == JudgeCost(old(Value()), m, receipt)
      ensures Value() == Apply(old(Value()), Cost(m, amount, receipt))
    {
      v := Accepted;
      if receipt.Some? {
        if receipt.value !in authorities || authorities[receipt.value].model != m {
          return ReceiptInvalid;
        }
        v := CompleteInvocation(receipt.value);
        if v != Accepted {
          return;
        }
        charged := charged + [receipt.value];
      }
      AddToModel(m, amount, 0);
      total := total + amount;
    }

    /**
     * An accepted cost adds its amount to its model's row and to the total, and nothing to any other model or hold.
     * Its receipt, if it names one, is spent: no later cost is accepted for it. A refused cost changes nothing.
     */
    method RecordCost(m: Model, amount: nat, receipt: Option<nat>) returns (v: Verdict)
      requires Valid()
      modifies this
      ensures Valid() && v == JudgeCost(old(Value()), m, receipt)
      ensures Value() == Apply(old(Value()), Cost(m, amount, receipt))
      ensures v == Accepted <==>
                receipt.None? || (Live(old(authorities), receipt.value) && old(authorities)[receipt.value].model == m)
      ensures v == Accepted && receipt.Some? ==> Deletes(old(rows), rows, receipt.value) && pending + unknown == old(pending + unknown) - 1
      ensures v == Accepted && receipt.None? ==> rows == old(rows) && pending == old(pending) && unknown == old(unknown)
      ensures LegacyKept(old(costs), costs)
      ensures v == Accepted ==> Paying(old(Value()), Value(), m, amount)
      ensures v == Accepted && receipt.Some? ==> JudgeCost(Value(), m, receipt) == Declined
      ensures v != Accepted ==> Value() == old(Value())
    {
      ghost var before := Value();
      if receipt.Some? { LiveReceipt(before, receipt.value); }
      v := WriteCost(m, amount, receipt);
      LegacyStays(before.costs, m, amount, 0);
      if v == Accepted {
        ChargedIsGood(before, m, amount, receipt);
        ChargedPays(before, m, amount, receipt);
        if receipt.Some? { SettledRow(before, receipt.value); }
      }
    }

    /** A retired call stays counted as it stood, and its receipt is spent. */
    method RetireInvocation(o: nat) returns (v: Verdict)
      requires Valid()
      modifies this
      ensures Valid() && v == JudgeReceipt(old(Value()), o)
      ensures Value() == Apply(old(Value()), Retire(o))
      ensures v == Accepted <==> Live(old(authorities), o)
      ensures v == Accepted ==> JudgeReceipt(Value(), o) == Declined && Deletes(old(rows), rows, o)
      ensures v != Accepted ==> Value() == old(Value())
      ensures pending == old(pending) && unknown == old(unknown) && covers == old(covers)
    {
      var k;
      LiveReceipt(Value(), o);
      v, k := ReadReceipt(o);
      if v != Accepted {
        return;
      }
      ghost var before := Value();
      WithoutDeletes(rows, highWater, k);
      AbandonRow(o, k);
      AbandonedIsGood(before, o);
    }

    method AbandonRow(o: nat, k: nat)
      requires Readable(Value(), o) && k == RowIndex(rows, o)
      modifies `rows, `authorities, `gone
      ensures Value() == Abandoned(old(Value()), o)
    {
      gone := gone + [rows[k]];
      rows := Without(rows, k);
      authorities := authorities[o := authorities[o].(retired := true)];
    }

    method WriteCommitment(m: Model, estimate: nat)
      modifies `costs, `held
      ensures Value() == Committed(old(Value()), m, estimate)
    {
      AddToModel(m, 0, estimate);
      held := held + estimate;
    }

    /** The estimate is held on its model and in the conservative total; realized money and other holds stay. */
    method RecordConservativeCommitment(m: Model, estimate: nat)
      requires Valid()
      modifies `costs, `held
      ensures Valid() && Value() == Apply(old(Value()), Commit(m, estimate))
      ensures Holding(old(Value()), Value(), m, estimate) && LegacyKept(old(costs), costs)
    {
      ghost var before := Value();
      WriteCommitment(m, estimate);
      LegacyStays(before.costs, m, 0, estimate);
      CommittedIsGood(before, m, estimate);
      CommittedHolds(before, m, estimate);
    }

    /** Returns what was held when the transaction read it; on a live session nothing is held afterwards. */
    method ReleaseConservativeCommitments() returns (released: int)
      requires Valid()
      modifies `costs, `held
      ensures Valid() && Value() == Apply(old(Value()), Release)
      ensures released == if deleted then 0 else SumHeld(old(costs))
      ensures !deleted ==> held == SumHeld(costs) == 0
      ensures released != 0 ==> forall x :: HeldOf(costs, x) == 0
      ensures deleted ==> Value() == old(Value())
      ensures forall x :: MoneyOf(costs, x) == MoneyOf(old(costs), x)
    {
      ghost var before := Value();
      ReleasedIsGood(before);
      released := if deleted then 0 else held;
      if released == 0 {
        return;
      }
      ClearedSums(costs);
      costs := Cleared(costs);
      held := 0;
    }

    /** A session write sets a record's mutable columns, and the record's totals do not reach the row. */
    method UpdateSession(record: Record)
      requires Valid()
      modifies `deleted, `total, `held
      ensures Valid() && Value() == Apply(old(Value()), Update(record))
      ensures total == old(total) && held == old(held) && (deleted <==> record.deletedAt.Some?)
    {
      ghost var before := Value();
      var mutable := DropColumns(record);
      SetColumns(mutable);
      AssignedIsGood(before, record);
      TotalsStep(before, Update(record));
    }

    /** The row of a record without the columns that have writers of their own. */
    method DropColumns(record: Record) returns (mutable: Columns)
      ensures mutable == MutableColumns(record)
    {
      mutable := ToRow(record);
      mutable := mutable - {IdColumn} - {CreatedAt} - {TotalCost} - {TotalConservative} - {EffectMark};
    }

    /** The update statement: each column it is given, and no other. */
    method SetColumns(columns: Columns)
      modifies `deleted, `total, `held
      ensures Value() == Assigned(old(Value()), columns)
    {
      if DeletedAt in columns {
        deleted := columns[DeletedAt].Some?;
      }
      if TotalCost in columns && columns[TotalCost].Some? {
        total := columns[TotalCost].value;
      }
      if TotalConservative in columns && columns[TotalConservative].Some? {
        held := columns[TotalConservative].value;
      }
    }
  }
}
