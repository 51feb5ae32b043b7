/** One session's usage receipts and money: the database rows and the in-process authority behind each receipt. */
module SessionLedger {
  import opened Collections
  import opened LedgerSums

  const MAX_ORDINAL: nat := 9007199254740991

  /** The authority behind a receipt, which its ordinal names. */
  datatype Authority = Authority(model: Model, context: nat, retired: bool)

  /** `books.gone` and `charged` are history: rows retired unsettled, and receipts that have added money. */
  datatype Session = Session(
    books: Books, highWater: nat, deleted: bool, costs: seq<CostRow>, total: int, held: int,
    authorities: map<nat, Authority>, charged: seq<nat>)

  /** A caller's in-memory session, with money that may be stale. */
  datatype Record = Record(id: nat, status: int, createdAt: int, deletedAt: Option<int>, total: int, held: int)

  /** The columns of a session row that a record maps to, and the effect mark, which no record carries. */
  datatype Column = IdColumn | StatusColumn | CreatedAt | DeletedAt | TotalCost | TotalConservative | EffectMark

  type Columns = map<Column, Option<int>>

  function ToRow(r: Record): Columns {
    map[IdColumn := Some(r.id), StatusColumn := Some(r.status), CreatedAt := Some(r.createdAt), DeletedAt := r.deletedAt,
        TotalCost := Some(r.total), TotalConservative := Some(r.held)]
  }

  /** What a turn or session write sets. */
  function MutableColumns(r: Record): Columns {
    ToRow(r) - {IdColumn, CreatedAt, TotalCost, TotalConservative, EffectMark}
  }

  /** An update sets the columns it is given and leaves the others. */
  function Assigned(s: Session, cols: Columns): Session {
    s.(deleted := if DeletedAt in cols then cols[DeletedAt].Some? else s.deleted,
       total := if TotalCost in cols && cols[TotalCost].Some? then cols[TotalCost].value else s.total,
       held := if TotalConservative in cols && cols[TotalConservative].Some? then cols[TotalConservative].value else s.held)
  }

  datatype Verdict = Accepted | Declined | ReceiptInvalid | HistoryInvalid | OrdinalsExhausted

  function CoverIndex(cs: seq<Cover>, m: Model): (i: nat)
    ensures i <= |cs| && (i < |cs| ==> cs[i].model == m) && forall k :: 0 <= k < i ==> cs[k].model != m
  {
    if cs == [] then 0 else if cs[0].model == m then 0 else 1 + CoverIndex(cs[1..], m)
  }

  function RowIndex(rows: seq<Invocation>, o: nat): (k: nat)
    ensures k <= |rows| && (k < |rows| ==> rows[k].ordinal == o) && forall l :: 0 <= l < k ==> rows[l].ordinal != o
  {
    if rows == [] then 0 else if rows[0].ordinal == o then 0 else 1 + RowIndex(rows[1..], o)
  }

  function CostIndex(cs: seq<CostRow>, m: Model): (i: nat)
    ensures i <= |cs| && (i < |cs| ==> cs[i].model == m && !cs[i].legacy)
    ensures forall k :: 0 <= k < i ==> cs[k].model != m || cs[k].legacy
  {
    if cs == [] then 0 else if cs[0].model == m && !cs[0].legacy then 0 else 1 + CostIndex(cs[1..], m)
  }

  /** The insert that does nothing when the model already has a counter row. */
  function WithCover(b: Books, m: Model): (c: Books)
    ensures CoverIndex(c.covers, m) < |c.covers| && c.rows == b.rows && c.gone == b.gone
  {
    if CoverIndex(b.covers, m) < |b.covers| then b
    else
      var c := b.(covers := b.covers + [Cover(m, 0, 0)]);
      assert c.covers[|b.covers|].model == m;
      c
  }

  /** The surviving row agrees with the receipt, so its state can be read. */
  predicate Readable(s: Session, o: nat) {
    && o in s.authorities && RowIndex(s.books.rows, o) < |s.books.rows|
    && s.books.rows[RowIndex(s.books.rows, o)].model == s.authorities[o].model
    && s.books.rows[RowIndex(s.books.rows, o)].context == s.authorities[o].context
    && CoverIndex(s.books.covers, s.authorities[o].model) < |s.books.covers|
  }

  function JudgeBegin(s: Session, oneShot: bool): Verdict {
    if s.deleted && !oneShot then HistoryInvalid
    else if s.highWater >= MAX_ORDINAL then OrdinalsExhausted
    else Accepted
  }

  /** The next ordinal becomes a pending row; owner and model count it. */
  function Begun(s: Session, m: Model, context: nat): Session {
    var b := WithCover(s.books, m);
    var ordinal := s.highWater + 1;
    s.(books := Changed(b, CoverIndex(b.covers, m), 1, 0).(rows := b.rows + [Invocation(ordinal, m, context, false)]),
       highWater := ordinal,
       authorities := s.authorities[ordinal := Authority(m, context, false)])
  }

  function JudgeReceipt(s: Session, o: nat): Verdict {
    if o !in s.authorities then ReceiptInvalid
    else if s.authorities[o].retired then Declined
    else if !Readable(s, o) then HistoryInvalid
    else Accepted
  }

  function Retired(s: Session, o: nat): Session
    requires o in s.authorities
  {
    s.(authorities := s.authorities[o := s.authorities[o].(retired := true)])
  }

  /** The row is deleted and leaves the counter of the state it was in. */
  function Settled(s: Session, o: nat): Session
    requires Readable(s, o)
  {
    var k := RowIndex(s.books.rows, o);
    var row := s.books.rows[k];
    var moved := Changed(s.books, CoverIndex(s.books.covers, row.model), if row.incomplete then 0 else -1, if row.incomplete then -1 else 0);
    Retired(s.(books := moved.(rows := Without(s.books.rows, k))), o)
  }

  function JudgeDisposition(s: Session, o: nat): Verdict {
    var v := JudgeReceipt(s, o);
    if v == Accepted && s.books.rows[RowIndex(s.books.rows, o)].incomplete then Declined else v
  }

  /** A proven non-charge settles the pending row; incomplete usage turns it into an unknown call. */
  function Disposed(s: Session, o: nat, incomplete: bool): Session
    requires Readable(s, o)
  {
    if incomplete then
      var k := RowIndex(s.books.rows, o);
      var row := s.books.rows[k];
      s.(books := Changed(s.books, CoverIndex(s.books.covers, row.model), -1, 1).(rows := s.books.rows[k := row.(incomplete := true)]))
    else Settled(s, o)
  }

  /** The row goes, the counters stay: what it left owed can no longer be settled. */
  function Abandoned(s: Session, o: nat): Session
    requires Readable(s, o)
  {
    var k := RowIndex(s.books.rows, o);
    Retired(s.(books := s.books.(rows := Without(s.books.rows, k), gone := s.books.gone + [s.books.rows[k]])), o)
  }

  /** The upsert on (model, not legacy): amounts are added to the model's row. */
  function Upserted(cs: seq<CostRow>, m: Model, money: int, hold: int): seq<CostRow> {
    var i := CostIndex(cs, m);
    if i < |cs| then cs[i := cs[i].(money := cs[i].money + money, held := cs[i].held + hold)]
    else cs + [CostRow(m, false, money, hold)]
  }

  function Paid(s: Session, m: Model, amount: nat): Session {
    s.(costs := Upserted(s.costs, m, amount, 0), total := s.total + amount)
  }

  function JudgeCost(s: Session, m: Model, receipt: Option<nat>): Verdict {
    if receipt.None? then Accepted
    else if receipt.value !in s.authorities || s.authorities[receipt.value].model != m then ReceiptInvalid
    else JudgeReceipt(s, receipt.value)
  }

  /** Realized money; a correlated charge also settles its receipt, in the same transaction. */
  function Charged(s: Session, m: Model, amount: nat, receipt: Option<nat>): Session
    requires receipt.Some? ==> Readable(s, receipt.value)
  {
    if receipt.None? then Paid(s, m, amount)
    else Paid(Settled(s, receipt.value), m, amount).(charged := s.charged + [receipt.value])
  }

  function Committed(s: Session, m: Model, estimate: nat): Session {
    s.(costs := Upserted(s.costs, m, 0, estimate), held := s.held + estimate)
  }

  /** Clears every hold, on a session that still loads and holds something. */
  function Released(s: Session): Session {
    if s.deleted || s.held == 0 then s else s.(costs := Cleared(s.costs), held := 0)
  }

  // What every operation keeps.

  /** Surviving rows have distinct ordinals, all of them issued. */
  ghost predicate Issued(rows: seq<Invocation>, highWater: nat) {
    && (forall k :: 0 <= k < |rows| ==> 0 < rows[k].ordinal <= highWater)
    && (forall k, l :: 0 <= k < l < |rows| ==> rows[k].ordinal != rows[l].ordinal)
  }

  /** Every live receipt can be settled; no charged receipt is live. */
  ghost predicate Authorised(s: Session) {
    && (forall o :: o in s.authorities ==> 0 < o <= s.highWater && (s.authorities[o].retired || Readable(s, o)))
    && (forall c :: 0 <= c < |s.charged| ==> 0 < s.charged[c] <= s.highWater)
    && (forall c :: 0 <= c < |s.charged| ==> s.charged[c] in s.authorities ==> s.authorities[s.charged[c]].retired)
    && Distinct(s.charged)
  }

  ghost predicate MoneyAgrees(s: Session) {
    SumMoney(s.costs) == s.total && SumHeld(s.costs) == s.held
  }

  ghost predicate Good(s: Session) {
    Balanced(s.books) && Issued(s.books.rows, s.highWater) && Authorised(s) && MoneyAgrees(s)
  }

  /** A session as created: no rows, no receipts, zero totals. */
  predicate IsNew(s: Session) {
    && |s.books.covers| == |s.books.rows| == |s.books.gone| == |s.costs| == |s.charged| == 0
    && s.books.pending == s.books.unknown == s.total == s.held == 0
    && s.highWater == 0 && s.authorities == map[] && !s.deleted
  }

  lemma NewIsGood(s: Session)
    requires IsNew(s)
    ensures Good(s)
  {
  }

  lemma CoverPresent(cs: seq<Cover>, j: nat, m: Model)
    requires j < |cs| && cs[j].model == m
    ensures CoverIndex(cs, m) <= j
  {
  }

  lemma RowFound(rows: seq<Invocation>, k: nat, o: nat)
    requires k < |rows| && rows[k].ordinal == o && forall i, j :: 0 <= i < j < |rows| ==> rows[i].ordinal != rows[j].ordinal
    ensures RowIndex(rows, o) == k
  {
  }

  /** A receipt's row survives in `t` with its model and context, and its model keeps a counter row. */
  lemma ReadableAgain(s: Session, t: Session, o: nat, k: nat)
    requires Readable(s, o) && o in t.authorities && t.authorities[o].model == s.authorities[o].model
    requires t.authorities[o].context == s.authorities[o].context
    requires k < |t.books.rows| && t.books.rows[k].ordinal == o && Issued(t.books.rows, t.highWater)
    requires t.books.rows[k].model == s.authorities[o].model && t.books.rows[k].context == s.authorities[o].context
    requires |t.books.covers| >= |s.books.covers|
    requires forall i :: 0 <= i < |s.books.covers| ==> t.books.covers[i].model == s.books.covers[i].model
    ensures Readable(t, o)
  {
  }

  lemma WithCoverBalances(b: Books, m: Model)
    requires Balanced(b)
    ensures Balanced(WithCover(b, m))
    ensures |WithCover(b, m).covers| >= |b.covers|
    ensures forall i :: 0 <= i < |b.covers| ==> WithCover(b, m).covers[i] == b.covers[i]
  {
    if CoverIndex(b.covers, m) == |b.covers| {
      CoverAdded(b, m);
    }
  }

  lemma BegunAuthorised(s: Session, t: Session, m: Model, context: nat)
    requires Issued(s.books.rows, s.highWater) && Authorised(s) && t.charged == s.charged && t.highWater == s.highWater + 1
    requires t.books.rows == s.books.rows + [Invocation(t.highWater, m, context, false)]
    requires t.authorities == s.authorities[t.highWater := Authority(m, context, false)]
    requires |t.books.covers| >= |s.books.covers| && CoverIndex(t.books.covers, m) < |t.books.covers|
    requires forall i :: 0 <= i < |s.books.covers| ==> t.books.covers[i].model == s.books.covers[i].model
    ensures Issued(t.books.rows, t.highWater) && Authorised(t)
  {
    assert Issued(t.books.rows, t.highWater);
    RowFound(t.books.rows, |s.books.rows|, t.highWater);
    forall o | o in s.authorities && !s.authorities[o].retired ensures Readable(t, o) {
      ReadableAgain(s, t, o, RowIndex(s.books.rows, o));
    }
  }

  lemma BegunIsGood(s: Session, m: Model, context: nat)
    requires Good(s)
    ensures Good(Begun(s, m, context))
  {
    var t, b := Begun(s, m, context), WithCover(s.books, m);
    var i := CoverIndex(b.covers, m);
    WithCoverBalances(s.books, m);
    BeginBalances(b, i, Invocation(t.highWater, m, context, false));
    CoverPresent(t.books.covers, i, m);
    BegunAuthorised(s, t, m, context);
  }

  /** A begun invocation has an ordinal no receipt has had, and its receipt can be used. */
  lemma BegunIsNew(s: Session, m: Model, context: nat)
    requires Good(s)
    ensures var t := Begun(s, m, context);
            && t.highWater !in s.authorities && t.highWater !in s.charged
            && JudgeReceipt(t, t.highWater) == Accepted && JudgeCost(t, m, Some(t.highWater)) == Accepted
            && t.books.pending == s.books.pending + 1 && t.books.unknown == s.books.unknown
  {
    BegunIsGood(s, m, context);
  }

  /** A held receipt can be used exactly while it is not spent. */
  lemma LiveReceipt(s: Session, o: nat)
    requires Good(s)
    ensures JudgeReceipt(s, o) == Accepted <==> o in s.authorities && !s.authorities[o].retired
  {
  }

  /** Exactly the row with this ordinal is gone. */
  ghost predicate Deletes(before: seq<Invocation>, after: seq<Invocation>, o: nat) {
    forall r :: r in after <==> r in before && r.ordinal != o
  }

  lemma WithoutDeletes(rows: seq<Invocation>, highWater: nat, k: nat)
    requires Issued(rows, highWater) && k < |rows|
    ensures Deletes(rows, Without(rows, k), rows[k].ordinal)
  {
    var t := Without(rows, k);
    assert forall l :: 0 <= l < |t| ==> t[l] == rows[if l < k then l else l + 1];
    forall r | r in rows && r.ordinal != rows[k].ordinal ensures r in t {
      var l :| 0 <= l < |rows| && rows[l] == r;
      assert t[if l < k then l else l - 1] == r;
    }
  }

  /** Settling takes one call off exactly one of the owner's counters. */
  lemma SettledRow(s: Session, o: nat)
    requires Good(s) && Readable(s, o)
    ensures Deletes(s.books.rows, Settled(s, o).books.rows, o)
    ensures Settled(s, o).books.pending + Settled(s, o).books.unknown == s.books.pending + s.books.unknown - 1
  {
    WithoutDeletes(s.books.rows, s.highWater, RowIndex(s.books.rows, o));
  }

  lemma IssuedWithout(rows: seq<Invocation>, highWater: nat, k: nat)
    requires Issued(rows, highWater) && k < |rows|
    ensures Issued(Without(rows, k), highWater)
  {
  }

  lemma RowAfterRemoval(rows: seq<Invocation>, k: nat, l: nat) returns (j: nat)
    requires k < |rows| && l < |rows| && l != k
    ensures j < |Without(rows, k)| && Without(rows, k)[j] == rows[l]
  {
    j := if l < k then l else l - 1;
  }

  /** Deleting one receipt's row keeps every other live receipt readable. */
  lemma OthersReadable(s: Session, t: Session, o: nat)
    requires Issued(s.books.rows, s.highWater) && Authorised(s) && Readable(s, o)
    requires t.highWater == s.highWater && t.charged == s.charged
    requires t.authorities == s.authorities[o := s.authorities[o].(retired := true)]
    requires t.books.rows == Without(s.books.rows, RowIndex(s.books.rows, o))
    requires |t.books.covers| == |s.books.covers|
    requires forall i :: 0 <= i < |s.books.covers| ==> t.books.covers[i].model == s.books.covers[i].model
    ensures Issued(t.books.rows, t.highWater) && Authorised(t)
  {
    var k := RowIndex(s.books.rows, o);
    IssuedWithout(s.books.rows, s.highWater, k);
    forall p | p in s.authorities && p != o && !s.authorities[p].retired ensures Readable(t, p) {
      OtherReadable(s, t, o, p);
    }
  }

  lemma OtherReadable(s: Session, t: Session, o: nat, p: nat)
    requires Readable(s, o) && Readable(s, p) && o != p && Issued(t.books.rows, t.highWater)
    requires p in t.authorities && t.authorities[p] == s.authorities[p]
    requires t.books.rows == Without(s.books.rows, RowIndex(s.books.rows, o))
    requires |t.books.covers| == |s.books.covers|
    requires forall i :: 0 <= i < |s.books.covers| ==> t.books.covers[i].model == s.books.covers[i].model
    ensures Readable(t, p)
  {
    var j := RowAfterRemoval(s.books.rows, RowIndex(s.books.rows, o), RowIndex(s.books.rows, p));
    ReadableAgain(s, t, p, j);
  }

  lemma SettledIsGood(s: Session, o: nat)
    requires Good(s) && Readable(s, o)
    ensures Good(Settled(s, o))
  {
    var k := RowIndex(s.books.rows, o);
    SettleBalances(s.books, CoverIndex(s.books.covers, s.books.rows[k].model), k);
    OthersReadable(s, Settled(s, o), o);
  }

  /** Turning a row incomplete keeps every live receipt readable. */
  lemma IncompleteAuthorised(s: Session, t: Session, k: nat)
    requires Issued(s.books.rows, s.highWater) && Authorised(s) && k < |s.books.rows|
    requires t.highWater == s.highWater && t.charged == s.charged && t.authorities == s.authorities
    requires t.books.rows == s.books.rows[k := s.books.rows[k].(incomplete := true)]
    requires |t.books.covers| == |s.books.covers|
    requires forall i :: 0 <= i < |s.books.covers| ==> t.books.covers[i].model == s.books.covers[i].model
    ensures Issued(t.books.rows, t.highWater) && Authorised(t)
  {
    assert Issued(t.books.rows, t.highWater);
    forall p | p in t.authorities && !t.authorities[p].retired ensures Readable(t, p) {
      ReadableAgain(s, t, p, RowIndex(s.books.rows, p));
    }
  }

  lemma IncompleteIsGood(s: Session, o: nat)
    requires Good(s) && JudgeDisposition(s, o) == Accepted
    ensures Good(Disposed(s, o, true))
  {
    var k := RowIndex(s.books.rows, o);
    IncompleteBalances(s.books, CoverIndex(s.books.covers, s.books.rows[k].model), k);
    IncompleteAuthorised(s, Disposed(s, o, true), k);
  }

  lemma DisposedIsGood(s: Session, o: nat, incomplete: bool)
    requires Good(s) && JudgeDisposition(s, o) == Accepted
    ensures Good(Disposed(s, o, incomplete))
  {
    if incomplete {
      IncompleteIsGood(s, o);
    } else {
      SettledIsGood(s, o);
    }
  }

  /** A disposed receipt is not disposed of again. */
  lemma DisposedIsFinal(s: Session, o: nat, incomplete: bool)
    requires Good(s) && JudgeDisposition(s, o) == Accepted
    ensures var t := Disposed(s, o, incomplete);
            && JudgeDisposition(t, o) == Declined && t.books.pending == s.books.pending - 1
            && t.books.unknown == s.books.unknown + if incomplete then 1 else 0
  {
    var t, k := Disposed(s, o, incomplete), RowIndex(s.books.rows, o);
    if incomplete {
      IncompleteIsGood(s, o);
      RowFound(t.books.rows, k, o);
      assert Readable(t, o);
    }
  }

  ghost predicate Live(authorities: map<nat, Authority>, o: nat) {
    o in authorities && !authorities[o].retired
  }

  /** Exactly the row with this ordinal is now incomplete. */
  ghost predicate Marks(before: seq<Invocation>, after: seq<Invocation>, o: nat) {
    |after| == |before|
    && forall k :: 0 <= k < |after| ==> after[k] == if before[k].ordinal == o then before[k].(incomplete := true) else before[k]
  }

  /** The row a receipt is read by is the only one with its ordinal. */
  lemma OneRow(s: Session, o: nat)
    requires Good(s) && Readable(s, o)
    ensures var k := RowIndex(s.books.rows, o);
            forall l :: 0 <= l < |s.books.rows| && s.books.rows[l].ordinal == o ==> l == k
  {
  }

  lemma DisposedRows(s: Session, o: nat, incomplete: bool)
    requires Good(s) && JudgeDisposition(s, o) == Accepted
    ensures incomplete ==> Marks(s.books.rows, Disposed(s, o, incomplete).books.rows, o)
    ensures !incomplete ==> Deletes(s.books.rows, Disposed(s, o, incomplete).books.rows, o)
  {
    OneRow(s, o);
    WithoutDeletes(s.books.rows, s.highWater, RowIndex(s.books.rows, o));
  }

  /** Rows of an older scheme are left alone. */
  ghost predicate LegacyKept(before: seq<CostRow>, after: seq<CostRow>) {
    |before| <= |after| && forall i :: 0 <= i < |before| && before[i].legacy ==> after[i] == before[i]
  }

  lemma LegacyStays(cs: seq<CostRow>, m: Model, money: int, hold: int)
    ensures LegacyKept(cs, Upserted(cs, m, money, hold))
  {
  }

  lemma AbandonedIsGood(s: Session, o: nat)
    requires Good(s) && Readable(s, o)
    ensures Good(Abandoned(s, o))
  {
    var k := RowIndex(s.books.rows, o);
    RetireBalances(s.books, CoverIndex(s.books.covers, s.books.rows[k].model), k);
    OthersReadable(s, Abandoned(s, o), o);
  }

  lemma UpsertedByModel(cs: seq<CostRow>, m: Model, money: int, hold: int, x: Model)
    ensures MoneyOf(Upserted(cs, m, money, hold), x) == MoneyOf(cs, x) + if x == m then money else 0
    ensures HeldOf(Upserted(cs, m, money, hold), x) == HeldOf(cs, x) + if x == m then hold else 0
  {
    var i := CostIndex(cs, m);
    if i < |cs| {
      ModelUpdate(cs, i, cs[i].(money := cs[i].money + money, held := cs[i].held + hold), x);
    } else {
      ModelSnoc(cs, CostRow(m, false, money, hold), x);
    }
  }

  lemma UpsertedSums(cs: seq<CostRow>, m: Model, money: int, hold: int)
    ensures SumMoney(Upserted(cs, m, money, hold)) == SumMoney(cs) + money
    ensures SumHeld(Upserted(cs, m, money, hold)) == SumHeld(cs) + hold
  {
    var i := CostIndex(cs, m);
    if i < |cs| {
      CostUpdate(cs, i, cs[i].(money := cs[i].money + money, held := cs[i].held + hold));
    } else {
      CostSnoc(cs, CostRow(m, false, money, hold));
    }
  }

  /** Only money and its history differ, so counters and receipts are untouched. */
  lemma MoneyFrame(s: Session, t: Session)
    requires Good(s) && t == s.(costs := t.costs, total := t.total, held := t.held) && MoneyAgrees(t)
    ensures Good(t)
  {
  }

  lemma ChargedIsGood(s: Session, m: Model, amount: nat, receipt: Option<nat>)
    requires Good(s) && JudgeCost(s, m, receipt) == Accepted
    ensures Good(Charged(s, m, amount, receipt))
  {
    var u := if receipt.None? then s else Settled(s, receipt.value);
    if receipt.Some? { SettledIsGood(s, receipt.value); }
    UpsertedSums(u.costs, m, amount, 0);
    MoneyFrame(u, Paid(u, m, amount));
    if receipt.Some? {
      ChargeRecorded(Paid(u, m, amount), receipt.value);
    }
  }

  /** The amount is on its model's row and in the total; other models and all holds are as they were. */
  ghost predicate Paying(s: Session, t: Session, m: Model, amount: int) {
    && t.total == s.total + amount && t.held == s.held
    && (forall x :: MoneyOf(t.costs, x) == MoneyOf(s.costs, x) + if x == m then amount else 0)
    && (forall x :: HeldOf(t.costs, x) == HeldOf(s.costs, x))
  }

  /** The estimate is on its model's hold and in the conservative total; other holds and realized money are as they were. */
  ghost predicate Holding(s: Session, t: Session, m: Model, estimate: int) {
    && t.total == s.total && t.held == s.held + estimate
    && (forall x :: MoneyOf(t.costs, x) == MoneyOf(s.costs, x))
    && (forall x :: HeldOf(t.costs, x) == HeldOf(s.costs, x) + if x == m then estimate else 0)
  }

  lemma CommittedHolds(s: Session, m: Model, estimate: nat)
    ensures Holding(s, Committed(s, m, estimate), m, estimate)
  {
    var t := Committed(s, m, estimate);
    forall x
      ensures MoneyOf(t.costs, x) == MoneyOf(s.costs, x)
      ensures HeldOf(t.costs, x) == HeldOf(s.costs, x) + if x == m then estimate else 0
    {
      UpsertedByModel(s.costs, m, 0, estimate, x);
    }
  }

  /** An accepted charge pays once and spends its receipt. */
  lemma ChargedPays(s: Session, m: Model, amount: nat, receipt: Option<nat>)
    requires JudgeCost(s, m, receipt) == Accepted
    ensures Paying(s, Charged(s, m, amount, receipt), m, amount)
    ensures receipt.Some? ==> JudgeCost(Charged(s, m, amount, receipt), m, receipt) == Declined
  {
    var t := Charged(s, m, amount, receipt);
    forall x
      ensures MoneyOf(t.costs, x) == MoneyOf(s.costs, x) + if x == m then amount else 0
      ensures HeldOf(t.costs, x) == HeldOf(s.costs, x)
    {
      UpsertedByModel(s.costs, m, amount, 0, x);
    }
  }

  /** Recording a retired receipt as charged. */
  lemma ChargeRecorded(s: Session, o: nat)
    requires Good(s) && 0 < o <= s.highWater && o !in s.charged && (o in s.authorities ==> s.authorities[o].retired)
    ensures Good(s.(charged := s.charged + [o]))
  {
  }

  // Runs of the store.

  datatype Op =
    | Begin(model: Model, context: nat, oneShot: bool)
    | Dispose(receipt: nat, incomplete: bool)
    | Cost(model: Model, amount: nat, correlated: Option<nat>)
    | Retire(receipt: nat)
    | Commit(model: Model, estimate: nat)
    | Release
    | Update(record: Record)
    | LoseReceipts(kept: set<nat>)

  /** A turn or session write moves only its own columns; a process that dies takes its receipts with it. */
  function Apply(s: Session, op: Op): Session {
    match op
    case Begin(m, context, oneShot) => if JudgeBegin(s, oneShot) == Accepted then Begun(s, m, context) else s
    case Dispose(o, incomplete) => if JudgeDisposition(s, o) == Accepted then Disposed(s, o, incomplete) else s
    case Cost(m, amount, receipt) => if JudgeCost(s, m, receipt) == Accepted then Charged(s, m, amount, receipt) else s
    case Retire(o) => if JudgeReceipt(s, o) == Accepted then Abandoned(s, o) else s
    case Commit(m, estimate) => Committed(s, m, estimate)
    case Release => Released(s)
    case Update(record) => Assigned(s, MutableColumns(record))
    case LoseReceipts(kept) => s.(authorities := map o | o in s.authorities && o in kept :: s.authorities[o])
  }

  ghost predicate Step(ss: seq<Session>, ops: seq<Op>, i: nat) {
    i < |ops| && i + 1 < |ss| && ss[i+1] == Apply(ss[i], ops[i])
  }

  /** A run: the states a new session goes through, one operation after another. */
  ghost predicate Run(ss: seq<Session>, ops: seq<Op>) {
    |ss| == |ops| + 1 && IsNew(ss[0]) && forall i: nat :: i < |ops| ==> Step(ss, ops, i)
  }

  lemma ReceiptFrame(s: Session, t: Session)
    requires Good(s) && t == s.(authorities := t.authorities, deleted := t.deleted)
    requires forall o :: o in t.authorities ==> o in s.authorities && t.authorities[o] == s.authorities[o]
    ensures Good(t)
  {
  }

  lemma CommittedIsGood(s: Session, m: Model, estimate: nat)
    requires Good(s)
    ensures Good(Committed(s, m, estimate))
  {
    UpsertedSums(s.costs, m, 0, estimate);
    MoneyFrame(s, Committed(s, m, estimate));
  }

  lemma ReleasedIsGood(s: Session)
    requires Good(s)
    ensures Good(Released(s))
  {
    ClearedSums(s.costs);
    MoneyFrame(s, Released(s));
  }

  lemma AssignedIsGood(s: Session, record: Record)
    requires Good(s)
    ensures Good(Assigned(s, MutableColumns(record)))
  {
    ReceiptFrame(s, Assigned(s, MutableColumns(record)));
  }

  lemma ApplyIsGood(s: Session, op: Op)
    requires Good(s)
    ensures Good(Apply(s, op))
  {
    match op
    case Begin(m, context, oneShot) => BegunIsGood(s, m, context);
    case Dispose(o, incomplete) => if JudgeDisposition(s, o) == Accepted { DisposedIsGood(s, o, incomplete); }
    case Cost(m, amount, receipt) => if JudgeCost(s, m, receipt) == Accepted { ChargedIsGood(s, m, amount, receipt); }
    case Retire(o) => if JudgeReceipt(s, o) == Accepted { AbandonedIsGood(s, o); }
    case Commit(m, estimate) => CommittedIsGood(s, m, estimate);
    case Release => ReleasedIsGood(s);
    case Update(record) => AssignedIsGood(s, record);
    case LoseReceipts(_) => ReceiptFrame(s, Apply(s, op));
  }

  /** Ordinals only go up and charges are only added. */
  ghost predicate Grows(s: Session, t: Session) {
    s.highWater <= t.highWater && s.charged <= t.charged
  }

  lemma ApplyGrows(s: Session, op: Op)
    ensures Grows(s, Apply(s, op))
  {
  }

  /** Every run from a new session keeps the books balanced, the receipts sound and both money sums exact. */
  lemma {:induction false} RunIsGood(ss: seq<Session>, ops: seq<Op>, n: nat)
    requires Run(ss, ops) && n < |ss|
    ensures Good(ss[n])
  {
    if n == 0 {
      NewIsGood(ss[0]);
    } else {
      RunIsGood(ss, ops, n - 1);
      assert Step(ss, ops, n - 1);
      ApplyIsGood(ss[n-1], ops[n-1]);
    }
  }

  lemma {:induction false} HistoryGrows(ss: seq<Session>, ops: seq<Op>, a: nat, n: nat)
    requires Run(ss, ops) && a <= n < |ss|
    ensures Grows(ss[a], ss[n])
  {
    if a < n {
      HistoryGrows(ss, ops, a, n - 1);
      assert Step(ss, ops, n - 1);
      ApplyGrows(ss[n-1], ops[n-1]);
    }
  }

  /** The counters agree in all three places and are never negative. */
  lemma CountersAgree(ss: seq<Session>, ops: seq<Op>, n: nat)
    requires Run(ss, ops) && n < |ss|
    ensures var b := ss[n].books;
            && 0 <= b.pending == SumPending(b.covers) == Tally(b.rows, None, false) + Tally(b.gone, None, false)
            && 0 <= b.unknown == SumUnknown(b.covers) == Tally(b.rows, None, true) + Tally(b.gone, None, true)
            && forall i :: 0 <= i < |b.covers| ==> b.covers[i].pending >= 0 && b.covers[i].unknown >= 0
  {
    RunIsGood(ss, ops, n);
    BalancedIsNonNegative(ss[n].books);
  }

  /** Two admitted invocations never share an ordinal, whatever was disposed, retired or lost between them. */
  lemma OrdinalsAreNotReused(ss: seq<Session>, ops: seq<Op>, a: nat, b: nat)
    requires Run(ss, ops) && a < b < |ops| && ops[a].Begin? && ops[b].Begin?
    requires JudgeBegin(ss[a], ops[a].oneShot) == JudgeBegin(ss[b], ops[b].oneShot) == Accepted
    ensures ss[a+1].highWater < ss[b+1].highWater && ss[b+1].highWater !in ss[b].authorities
  {
    assert Step(ss, ops, b);
    HistoryGrows(ss, ops, a + 1, b);
    RunIsGood(ss, ops, b);
  }

  /** A receipt adds money at most once. */
  lemma ReceiptChargesOnce(ss: seq<Session>, ops: seq<Op>, a: nat, b: nat, o: nat)
    requires Run(ss, ops) && a < b < |ops| && ops[a].Cost? && ops[b].Cost?
    requires ops[a].correlated == ops[b].correlated == Some(o)
    requires JudgeCost(ss[a], ops[a].model, Some(o)) == Accepted
    ensures JudgeCost(ss[b], ops[b].model, Some(o)) != Accepted
  {
    assert Step(ss, ops, a);
    assert ss[a+1].charged == ss[a].charged + [o];
    HistoryGrows(ss, ops, a + 1, b);
    RunIsGood(ss, ops, b);
    assert ss[b].charged[|ss[a].charged|] == o;
  }

  /** A held receipt is never refused because its row or counters are missing. */
  lemma HeldReceiptIsReadable(ss: seq<Session>, ops: seq<Op>, n: nat, o: nat)
    requires Run(ss, ops) && n < |ss|
    ensures JudgeReceipt(ss[n], o) != HistoryInvalid
  {
    RunIsGood(ss, ops, n);
  }

  /** Where an operation puts money: the amount a cost adds, on its model's row alone. */
  ghost function Realizes(s: Session, op: Op, m: Model): int {
    if op.Cost? && JudgeCost(s, op.model, op.correlated) == Accepted && op.model == m then op.amount else 0
  }

  /** What an operation adds to one model's hold. */
  ghost function Holds(s: Session, op: Op, m: Model): int {
    if op.Commit? && op.model == m then op.estimate
    else if op.Release? && !s.deleted && s.held != 0 then -HeldOf(s.costs, m)
    else 0
  }

  /** Realized money moves only by an accepted cost, by its amount and on its model; holds only by a commitment or a release. */
  lemma MoneyGoesToItsModel(s: Session, op: Op, m: Model)
    ensures MoneyOf(Apply(s, op).costs, m) == MoneyOf(s.costs, m) + Realizes(s, op, m)
    ensures HeldOf(Apply(s, op).costs, m) == HeldOf(s.costs, m) + Holds(s, op, m)
  {
    match op
    case Cost(model, amount, _) => UpsertedByModel(s.costs, model, amount, 0, m);
    case Commit(model, estimate) => UpsertedByModel(s.costs, model, 0, estimate, m);
    case Release => ClearedSums(s.costs);
    case _ =>
  }

  lemma TotalsStep(s: Session, op: Op)
    ensures !op.Cost? ==> Apply(s, op).total == s.total
    ensures !op.Commit? && !op.Release? ==> Apply(s, op).held == s.held
    ensures op.Release? && !s.deleted ==> Apply(s, op).held == 0
  {
  }

  /** No write but a cost moves the realized side and none but a commitment or release the other, whatever totals a record carries. */
  lemma SidesAreIndependent(s: Session, op: Op)
    requires Good(s)
    ensures !op.Cost? ==> Apply(s, op).total == s.total && SumMoney(Apply(s, op).costs) == SumMoney(s.costs)
    ensures !op.Commit? && !op.Release? ==> Apply(s, op).held == s.held && SumHeld(Apply(s, op).costs) == SumHeld(s.costs)
    ensures op.Release? && !s.deleted ==> Apply(s, op).held == SumHeld(Apply(s, op).costs) == 0
  {
    ApplyIsGood(s, op);
    TotalsStep(s, op);
    assert MoneyAgrees(s) && MoneyAgrees(Apply(s, op));
  }
}
