/** The rows of a session's usage and cost tables, and how their tallies move when a row does. */
module LedgerSums {
  import opened Collections

  type Model = nat

  /** One dispatched provider call whose usage is still owed: pending, or known to be incomplete. */
  datatype Invocation = Invocation(ordinal: nat, model: Model, context: nat, incomplete: bool)

  /** The per-model counters. */
  datatype Cover = Cover(model: Model, pending: int, unknown: int)

  /** The per-model money: realized, and conservatively held. */
  datatype CostRow = CostRow(model: Model, legacy: bool, money: int, held: int)

  function Hit(r: Invocation, m: Option<Model>, incomplete: bool): nat {
    if r.incomplete == incomplete && (m.None? || m.value == r.model) then 1 else 0
  }

  /** The rows in one state, of one model or of all. */
  function Tally(rows: seq<Invocation>, m: Option<Model>, incomplete: bool): nat {
    if rows == [] then 0 else Tally(rows[..|rows|-1], m, incomplete) + Hit(rows[|rows|-1], m, incomplete)
  }

  function SumPending(cs: seq<Cover>): int {
    if cs == [] then 0 else SumPending(cs[..|cs|-1]) + cs[|cs|-1].pending
  }

  function SumUnknown(cs: seq<Cover>): int {
    if cs == [] then 0 else SumUnknown(cs[..|cs|-1]) + cs[|cs|-1].unknown
  }

  function SumMoney(cs: seq<CostRow>): int {
    if cs == [] then 0 else SumMoney(cs[..|cs|-1]) + cs[|cs|-1].money
  }

  function SumHeld(cs: seq<CostRow>): int {
    if cs == [] then 0 else SumHeld(cs[..|cs|-1]) + cs[|cs|-1].held
  }

  function Without<T>(s: seq<T>, i: nat): seq<T>
    requires i < |s|
  {
    s[..i] + s[i+1..]
  }

  lemma TallySnoc(rows: seq<Invocation>, r: Invocation, m: Option<Model>, incomplete: bool)
    ensures Tally(rows + [r], m, incomplete) == Tally(rows, m, incomplete) + Hit(r, m, incomplete)
  {
  }

  lemma {:induction false} TallyRemove(rows: seq<Invocation>, i: nat, m: Option<Model>, incomplete: bool)
    requires i < |rows|
    ensures Tally(Without(rows, i), m, incomplete) == Tally(rows, m, incomplete) - Hit(rows[i], m, incomplete)
    decreases |rows|
  {
    var n := |rows| - 1;
    if i == n {
      assert Without(rows, i) == rows[..n];
    } else {
      TallyRemove(rows[..n], i, m, incomplete);
      assert Without(rows, i) == Without(rows[..n], i) + [rows[n]];
      TallySnoc(Without(rows[..n], i), rows[n], m, incomplete);
    }
  }

  lemma {:induction false} TallyUpdate(rows: seq<Invocation>, i: nat, r: Invocation, m: Option<Model>, incomplete: bool)
    requires i < |rows|
    ensures Tally(rows[i := r], m, incomplete) == Tally(rows, m, incomplete) - Hit(rows[i], m, incomplete) + Hit(r, m, incomplete)
    decreases |rows|
  {
    var n := |rows| - 1;
    if i == n {
      assert rows[i := r][..n] == rows[..n];
    } else {
      TallyUpdate(rows[..n], i, r, m, incomplete);
      assert rows[i := r][..n] == rows[..n][i := r];
    }
  }

  lemma {:induction false} CoverUpdate(cs: seq<Cover>, i: nat, c: Cover)
    requires i < |cs|
    ensures SumPending(cs[i := c]) == SumPending(cs) - cs[i].pending + c.pending
    ensures SumUnknown(cs[i := c]) == SumUnknown(cs) - cs[i].unknown + c.unknown
    decreases |cs|
  {
    var n := |cs| - 1;
    if i == n {
      assert cs[i := c][..n] == cs[..n];
    } else {
      CoverUpdate(cs[..n], i, c);
      assert cs[i := c][..n] == cs[..n][i := c];
    }
  }

  lemma {:induction false} CostUpdate(cs: seq<CostRow>, i: nat, c: CostRow)
    requires i < |cs|
    ensures SumMoney(cs[i := c]) == SumMoney(cs) - cs[i].money + c.money
    ensures SumHeld(cs[i := c]) == SumHeld(cs) - cs[i].held + c.held
    decreases |cs|
  {
    var n := |cs| - 1;
    if i == n {
      assert cs[i := c][..n] == cs[..n];
    } else {
      CostUpdate(cs[..n], i, c);
      assert cs[i := c][..n] == cs[..n][i := c];
    }
  }

  lemma CostSnoc(cs: seq<CostRow>, c: CostRow)
    ensures SumMoney(cs + [c]) == SumMoney(cs) + c.money && SumHeld(cs + [c]) == SumHeld(cs) + c.held
  {
  }

  /** One model's realized money. */
  function MoneyOf(cs: seq<CostRow>, m: Model): int {
    if cs == [] then 0 else MoneyOf(cs[..|cs|-1], m) + if cs[|cs|-1].model == m then cs[|cs|-1].money else 0
  }

  /** One model's held money. */
  function HeldOf(cs: seq<CostRow>, m: Model): int {
    if cs == [] then 0 else HeldOf(cs[..|cs|-1], m) + if cs[|cs|-1].model == m then cs[|cs|-1].held else 0
  }

  lemma ModelSnoc(cs: seq<CostRow>, c: CostRow, m: Model)
    ensures MoneyOf(cs + [c], m) == MoneyOf(cs, m) + if c.model == m then c.money else 0
    ensures HeldOf(cs + [c], m) == HeldOf(cs, m) + if c.model == m then c.held else 0
  {
    assert (cs + [c])[..|cs|] == cs;
  }

  lemma {:induction false} ModelUpdate(cs: seq<CostRow>, i: nat, c: CostRow, m: Model)
    requires i < |cs| && c.model == cs[i].model
    ensures MoneyOf(cs[i := c], m) == MoneyOf(cs, m) + if c.model == m then c.money - cs[i].money else 0
    ensures HeldOf(cs[i := c], m) == HeldOf(cs, m) + if c.model == m then c.held - cs[i].held else 0
    decreases |cs|
  {
    var n := |cs| - 1;
    if i == n {
      assert cs[i := c][..n] == cs[..n];
    } else {
      ModelUpdate(cs[..n], i, c, m);
      assert cs[i := c][..n] == cs[..n][i := c];
    }
  }

  /** The rows with every hold cleared. */
  function Cleared(cs: seq<CostRow>): (r: seq<CostRow>)
    ensures |r| == |cs| && forall i :: 0 <= i < |r| ==> r[i] == cs[i].(held := 0)
  {
    seq(|cs|, i requires 0 <= i < |cs| => cs[i].(held := 0))
  }

  lemma {:induction false} ClearedSums(cs: seq<CostRow>)
    ensures SumMoney(Cleared(cs)) == SumMoney(cs) && SumHeld(Cleared(cs)) == 0
    ensures forall m :: MoneyOf(Cleared(cs), m) == MoneyOf(cs, m) && HeldOf(Cleared(cs), m) == 0
  {
    if cs != [] {
      var n := |cs| - 1;
      ClearedSums(cs[..n]);
      assert Cleared(cs)[..n] == Cleared(cs[..n]);
    }
  }

  /** A session's books: owner counters, per-model counters, surviving rows, and rows retired unsettled. */
  datatype Books = Books(pending: int, unknown: int, covers: seq<Cover>, rows: seq<Invocation>, gone: seq<Invocation>)

  ghost predicate CoverMatches(b: Books, c: Cover) {
    && c.pending == Tally(b.rows, Some(c.model), false) + Tally(b.gone, Some(c.model), false)
    && c.unknown == Tally(b.rows, Some(c.model), true) + Tally(b.gone, Some(c.model), true)
  }

  ghost predicate HasCover(b: Books, m: Model) {
    exists i :: 0 <= i < |b.covers| && b.covers[i].model == m
  }

  /** The three ways of counting agree, in each state. */
  ghost predicate Balanced(b: Books) {
    && b.pending == SumPending(b.covers) == Tally(b.rows, None, false) + Tally(b.gone, None, false)
    && b.unknown == SumUnknown(b.covers) == Tally(b.rows, None, true) + Tally(b.gone, None, true)
    && (forall i :: 0 <= i < |b.covers| ==> CoverMatches(b, b.covers[i]))
    && (forall i, j :: 0 <= i < j < |b.covers| ==> b.covers[i].model != b.covers[j].model)
    && (forall k :: 0 <= k < |b.rows| ==> HasCover(b, b.rows[k].model))
    && (forall k :: 0 <= k < |b.gone| ==> HasCover(b, b.gone[k].model))
  }

  /** The counters move by these amounts, on the owner and on one model alike. */
  function Changed(b: Books, i: nat, pending: int, unknown: int): Books
    requires i < |b.covers|
  {
    b.(pending := b.pending + pending, unknown := b.unknown + unknown,
       covers := b.covers[i := Cover(b.covers[i].model, b.covers[i].pending + pending, b.covers[i].unknown + unknown)])
  }

  lemma {:induction false} NoRowsOfModel(rows: seq<Invocation>, m: Model, incomplete: bool)
    requires forall k :: 0 <= k < |rows| ==> rows[k].model != m
    ensures Tally(rows, Some(m), incomplete) == 0
  {
    if rows != [] {
      NoRowsOfModel(rows[..|rows|-1], m, incomplete);
    }
  }

  /** The counters never go negative. */
  lemma BalancedIsNonNegative(b: Books)
    requires Balanced(b)
    ensures b.pending >= 0 && b.unknown >= 0
    ensures forall i :: 0 <= i < |b.covers| ==> b.covers[i].pending >= 0 && b.covers[i].unknown >= 0
  {
  }

  /** A model's first invocation brings its counter row. */
  lemma CoverAdded(b: Books, m: Model)
    requires Balanced(b) && !HasCover(b, m)
    ensures Balanced(b.(covers := b.covers + [Cover(m, 0, 0)]))
  {
    var c := b.(covers := b.covers + [Cover(m, 0, 0)]);
    assert c.covers[..|b.covers|] == b.covers;
    forall k | 0 <= k < |b.rows| ensures b.rows[k].model != m && HasCover(c, b.rows[k].model) {
      assert HasCover(b, b.rows[k].model);
      var i :| 0 <= i < |b.covers| && b.covers[i].model == b.rows[k].model;
      assert c.covers[i].model == b.rows[k].model;
    }
    forall k | 0 <= k < |b.gone| ensures b.gone[k].model != m && HasCover(c, b.gone[k].model) {
      assert HasCover(b, b.gone[k].model);
      var i :| 0 <= i < |b.covers| && b.covers[i].model == b.gone[k].model;
      assert c.covers[i].model == b.gone[k].model;
    }
    NoRowsOfModel(b.rows, m, false);
    NoRowsOfModel(b.rows, m, true);
    NoRowsOfModel(b.gone, m, false);
    NoRowsOfModel(b.gone, m, true);
    forall i | 0 <= i < |c.covers| ensures CoverMatches(c, c.covers[i]) {
      if i < |b.covers| { assert CoverMatches(b, b.covers[i]); }
    }
  }

  /** What the rows of one state owe: surviving ones and ones retired unsettled. */
  ghost function Owed(rows: seq<Invocation>, gone: seq<Invocation>, m: Option<Model>, incomplete: bool): nat {
    Tally(rows, m, incomplete) + Tally(gone, m, incomplete)
  }

  /** The rows moved by exactly these amounts, all of it in model `m`. */
  ghost predicate OwedMoves(b: Books, rows: seq<Invocation>, gone: seq<Invocation>, m: Model, pending: int, unknown: int) {
    forall x: Option<Model>, f: bool {:trigger Owed(rows, gone, x, f)} ::
      Owed(rows, gone, x, f) == Owed(b.rows, b.gone, x, f) + if x.Some? && x.value != m then 0 else if f then unknown else pending
  }

  lemma ChangedCoverMatches(b: Books, i: nat, pending: int, unknown: int, rows: seq<Invocation>, gone: seq<Invocation>, j: nat)
    requires i < |b.covers| && j < |b.covers| && OwedMoves(b, rows, gone, b.covers[i].model, pending, unknown)
    requires CoverMatches(b, b.covers[j]) && (b.covers[j].model == b.covers[i].model ==> j == i)
    ensures var c := Changed(b, i, pending, unknown).(rows := rows, gone := gone); CoverMatches(c, c.covers[j])
  {
    var m := Some(b.covers[j].model);
    assert Owed(rows, gone, m, false) >= 0 && Owed(rows, gone, m, true) >= 0;
  }

  /** Any change of rows together with the matching change of counters keeps the books balanced. */
  lemma ChangeKeepsBalance(b: Books, i: nat, pending: int, unknown: int, rows: seq<Invocation>, gone: seq<Invocation>)
    requires Balanced(b) && i < |b.covers| && OwedMoves(b, rows, gone, b.covers[i].model, pending, unknown)
    requires forall k :: 0 <= k < |rows| ==> HasCover(b, rows[k].model)
    requires forall k :: 0 <= k < |gone| ==> HasCover(b, gone[k].model)
    ensures Balanced(Changed(b, i, pending, unknown).(rows := rows, gone := gone))
  {
    var c := Changed(b, i, pending, unknown).(rows := rows, gone := gone);
    CoverUpdate(b.covers, i, c.covers[i]);
    forall m | HasCover(b, m) ensures HasCover(c, m) {
      var j :| 0 <= j < |b.covers| && b.covers[j].model == m;
      assert c.covers[j].model == m;
    }
    forall j | 0 <= j < |c.covers| ensures CoverMatches(c, c.covers[j]) {
      ChangedCoverMatches(b, i, pending, unknown, rows, gone, j);
    }
    assert Owed(rows, gone, None, false) >= 0 && Owed(rows, gone, None, true) >= 0;
  }

  lemma BeginBalances(b: Books, i: nat, r: Invocation)
    requires Balanced(b) && i < |b.covers| && b.covers[i].model == r.model && !r.incomplete
    ensures Balanced(Changed(b, i, 1, 0).(rows := b.rows + [r]))
  {
    var rows := b.rows + [r];
    forall m: Option<Model>, f: bool ensures Owed(rows, b.gone, m, f) == Owed(b.rows, b.gone, m, f) + Hit(r, m, f) {
      TallySnoc(b.rows, r, m, f);
    }
    assert HasCover(b, r.model);
    ChangeKeepsBalance(b, i, 1, 0, b.rows + [r], b.gone);
  }

  /** A pending row becomes incomplete. */
  lemma IncompleteBalances(b: Books, i: nat, k: nat)
    requires Balanced(b) && i < |b.covers| && k < |b.rows| && b.covers[i].model == b.rows[k].model && !b.rows[k].incomplete
    ensures Balanced(Changed(b, i, -1, 1).(rows := b.rows[k := b.rows[k].(incomplete := true)]))
  {
    var r := b.rows[k].(incomplete := true);
    var rows := b.rows[k := r];
    forall m: Option<Model>, f: bool
      ensures Owed(rows, b.gone, m, f) == Owed(b.rows, b.gone, m, f) - Hit(b.rows[k], m, f) + Hit(r, m, f)
    {
      TallyUpdate(b.rows, k, r, m, f);
    }
    ChangeKeepsBalance(b, i, -1, 1, rows, b.gone);
  }

  /** A row is settled: it leaves the table and its own counter. */
  lemma SettleBalances(b: Books, i: nat, k: nat)
    requires Balanced(b) && i < |b.covers| && k < |b.rows| && b.covers[i].model == b.rows[k].model
    ensures Balanced(Changed(b, i, if b.rows[k].incomplete then 0 else -1, if b.rows[k].incomplete then -1 else 0)
                       .(rows := Without(b.rows, k)))
  {
    var rows := Without(b.rows, k);
    forall m: Option<Model>, f: bool
      ensures Owed(rows, b.gone, m, f) == Owed(b.rows, b.gone, m, f) - Hit(b.rows[k], m, f)
    {
      TallyRemove(b.rows, k, m, f);
    }
    assert forall l :: 0 <= l < |rows| ==> rows[l] == b.rows[if l < k then l else l + 1];
    ChangeKeepsBalance(b, i, if b.rows[k].incomplete then 0 else -1, if b.rows[k].incomplete then -1 else 0, rows, b.gone);
  }

  /** A row is retired: it leaves the table but what it left owed stays counted. */
  lemma RetireBalances(b: Books, i: nat, k: nat)
    requires Balanced(b) && i < |b.covers| && k < |b.rows| && b.covers[i].model == b.rows[k].model
    ensures Balanced(b.(rows := Without(b.rows, k), gone := b.gone + [b.rows[k]]))
  {
    var rows, gone := Without(b.rows, k), b.gone + [b.rows[k]];
    forall m: Option<Model>, f: bool ensures Owed(rows, gone, m, f) == Owed(b.rows, b.gone, m, f) {
      TallyRemove(b.rows, k, m, f);
      TallySnoc(b.gone, b.rows[k], m, f);
    }
    assert forall l :: 0 <= l < |rows| ==> rows[l] == b.rows[if l < k then l else l + 1];
    ChangeKeepsBalance(b, i, 0, 0, rows, gone);
    assert b.covers[i := Cover(b.covers[i].model, b.covers[i].pending, b.covers[i].unknown)] == b.covers;
  }
}
