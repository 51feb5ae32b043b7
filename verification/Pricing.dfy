/** Tiered prices, realized cost and the pre-egress estimate, over exact rates with each term rounded on its own. */
module Pricing {
  import opened Collections

  const PER_MTOK: real := 1000000.0

  datatype Rates = Rates(input: real, output: real, cached: real)

  datatype Tier = Tier(above: real, input: real, output: real, cached: Option<real>)

  datatype Price = Price(flat: Rates, cacheWrite: Option<real>, tiers: seq<Tier>)

  /** The size of a prompt; the estimate assumes an unbounded one. */
  datatype Size = Tokens(n: nat) | Unbounded

  datatype Usage = Usage(input: nat, output: nat, cacheRead: nat, cacheWrite: nat)

  function Round(x: real): int {
    (x + 0.5).Floor
  }

  predicate Exceeds(size: Size, above: real) {
    size.Unbounded? || size.n as real > above
  }

  /** A tier without a cached rate of its own charges its input rate. */
  function TierRates(t: Tier): Rates {
    Rates(t.input, t.output, if t.cached.Some? then t.cached.value else t.input)
  }

  /** The scan over the first `n` tiers: the index chosen so far, or -1 for the flat rates. */
  function Best(tiers: seq<Tier>, size: Size, n: nat): (b: int)
    requires n <= |tiers|
    ensures -1 <= b < n
  {
    if n == 0 then -1
    else
      var b := Best(tiers, size, n - 1);
      if Exceeds(size, tiers[n-1].above) && tiers[n-1].above > Threshold(tiers, b) then n - 1 else b
  }

  function Threshold(tiers: seq<Tier>, b: int): real
    requires b < |tiers|
  {
    if b < 0 then -1.0 else tiers[b].above
  }

  function RatesAt(p: Price, b: int): Rates
    requires b < |p.tiers|
  {
    if b < 0 then p.flat else TierRates(p.tiers[b])
  }

  function RatesFor(p: Price, size: Size): Rates {
    RatesAt(p, Best(p.tiers, size, |p.tiers|))
  }

  /** The tier a prompt of this size is charged at: the highest threshold it exceeds, the first listed of those. */
  ghost predicate ChargedAt(tiers: seq<Tier>, size: Size, k: nat) {
    && k < |tiers| && Reached(size, tiers[k])
    && forall j :: 0 <= j < |tiers| && Reached(size, tiers[j]) ==>
         tiers[j].above <= tiers[k].above && (j < k ==> tiers[j].above < tiers[k].above)
  }

  /** The prompt is longer than the tier's threshold; a threshold at or below -1 is never used. */
  ghost predicate Reached(size: Size, t: Tier) {
    t.above > -1.0 && match size case Tokens(n) => n as real > t.above case Unbounded => true
  }

  /** The rates are those of the tier charged, with its input rate for cached input when it states none, or the flat ones. */
  ghost predicate Selects(p: Price, size: Size, rates: Rates, above: Option<real>) {
    match above
    case None => rates == p.flat && forall j :: 0 <= j < |p.tiers| ==> !Reached(size, p.tiers[j])
    case Some(t) =>
      exists k: nat :: ChargedAt(p.tiers, size, k) && p.tiers[k].above == t
        && rates.input == p.tiers[k].input && rates.output == p.tiers[k].output
        && rates.cached == if p.tiers[k].cached.None? then p.tiers[k].input else p.tiers[k].cached.value
  }

  lemma BestSelects(p: Price, size: Size)
    ensures var b := Best(p.tiers, size, |p.tiers|);
            Selects(p, size, RatesFor(p, size), if b < 0 then None else Some(p.tiers[b].above))
  {
    BestIsHighest(p.tiers, size, |p.tiers|);
    forall t ensures Applies(size, t) <==> Reached(size, t) { }
    var b := Best(p.tiers, size, |p.tiers|);
    if b >= 0 {
      assert ChargedAt(p.tiers, size, b);
    } else {
      forall j | 0 <= j < |p.tiers| ensures !Reached(size, p.tiers[j]) { assert !Applies(size, p.tiers[j]); }
    }
  }

  method RateBasisFor(p: Price, size: Size) returns (rates: Rates, above: Option<real>)
    ensures Selects(p, size, rates, above)
    ensures rates == RatesFor(p, size)
    ensures var b := Best(p.tiers, size, |p.tiers|); above == if b < 0 then None else Some(p.tiers[b].above)
  {
    BestSelects(p, size);
    rates, above := p.flat, None;
    var bestThreshold := -1.0;
    for i := 0 to |p.tiers|
      invariant var b := Best(p.tiers, size, i);
                && rates == RatesAt(p, b) && bestThreshold == Threshold(p.tiers, b)
                && above == if b < 0 then None else Some(p.tiers[b].above)
    {
      var tier := p.tiers[i];
      if Exceeds(size, tier.above) && tier.above > bestThreshold {
        bestThreshold := tier.above;
        above := Some(tier.above);
        rates := Rates(tier.input, tier.output, if tier.cached.Some? then tier.cached.value else tier.input);
      }
    }
  }

  /** A tier takes part when its threshold is above the scan's start and below the prompt. */
  predicate Applies(size: Size, t: Tier) {
    t.above > -1.0 && Exceeds(size, t.above)
  }

  /** The scan finds the applicable tier with the highest threshold, first in the list among equals. */
  lemma {:induction false} BestIsHighest(tiers: seq<Tier>, size: Size, n: nat)
    requires n <= |tiers|
    ensures var b := Best(tiers, size, n);
            && (b >= 0 ==> Applies(size, tiers[b]))
            && (forall j :: 0 <= j < n && Applies(size, tiers[j]) ==>
                  b >= 0 && tiers[j].above <= tiers[b].above && (j < b ==> tiers[j].above < tiers[b].above))
  {
    if n > 0 {
      BestIsHighest(tiers, size, n - 1);
    }
  }

  /** Equal thresholds carry equal rates, as in any list of distinct tiers. */
  ghost predicate Consistent(tiers: seq<Tier>) {
    forall i, j :: 0 <= i < |tiers| && 0 <= j < |tiers| && tiers[i].above == tiers[j].above ==> TierRates(tiers[i]) == TierRates(tiers[j])
  }

  /** The order in which tiers are listed does not matter. */
  lemma TierOrderIsIrrelevant(p: Price, q: Price, size: Size)
    requires p.flat == q.flat && multiset(p.tiers) == multiset(q.tiers) && Consistent(p.tiers)
    ensures RatesFor(p, size) == RatesFor(q, size)
  {
    BestIsHighest(p.tiers, size, |p.tiers|);
    BestIsHighest(q.tiers, size, |q.tiers|);
    var b, c := Best(p.tiers, size, |p.tiers|), Best(q.tiers, size, |q.tiers|);
    if b >= 0 {
      assert p.tiers[b] in multiset(q.tiers);
      var j :| 0 <= j < |q.tiers| && q.tiers[j] == p.tiers[b];
      assert Applies(size, q.tiers[j]);
    }
    if c >= 0 {
      assert q.tiers[c] in multiset(p.tiers);
      var i :| 0 <= i < |p.tiers| && p.tiers[i] == q.tiers[c];
      assert Applies(size, p.tiers[i]);
    }
  }

  function PerClass(tokens: real, rate: real): int {
    Round(tokens * rate / PER_MTOK)
  }

  /** What a usage record costs, at the tier its whole input side landed in. */
  function Realized(p: Price, u: Usage): int {
    var r := RatesFor(p, Tokens(u.input + u.cacheRead + u.cacheWrite));
    PerClass(u.input as real, r.input) + PerClass(u.output as real, r.output)
    + PerClass(u.cacheRead as real, r.cached)
    + PerClass(u.cacheWrite as real, if p.cacheWrite.Some? then p.cacheWrite.value else 0.0)
  }

  /** Rounding goes to the nearest integer, halves up. */
  lemma RoundIsNearest(x: real)
    ensures Round(x) as real - 0.5 <= x < Round(x) as real + 0.5
  {
  }

  /** The exact cost, in micro-cents, of a usage at these rates. */
  ghost function ExactCost(u: Usage, r: Rates, cacheWrite: real): real {
    (u.input as real * r.input + u.output as real * r.output + u.cacheRead as real * r.cached + u.cacheWrite as real * cacheWrite) / 1000000.0
  }

  /** The realized cost is the exact one to within half a micro-cent for each of the four token classes. */
  lemma RealizedIsNearExact(p: Price, u: Usage)
    ensures var r := RatesFor(p, Tokens(u.input + u.cacheRead + u.cacheWrite));
            var exact := ExactCost(u, r, if p.cacheWrite.None? then 0.0 else p.cacheWrite.value);
            exact - 2.0 <= Realized(p, u) as real <= exact + 2.0
  {
    var r := RatesFor(p, Tokens(u.input + u.cacheRead + u.cacheWrite));
    var w := if p.cacheWrite.Some? then p.cacheWrite.value else 0.0;
    var a, b, c, d := u.input as real * r.input, u.output as real * r.output, u.cacheRead as real * r.cached, u.cacheWrite as real * w;
    RoundIsNearest(a / PER_MTOK);
    RoundIsNearest(b / PER_MTOK);
    RoundIsNearest(c / PER_MTOK);
    RoundIsNearest(d / PER_MTOK);
    assert (a + b + c + d) / 1000000.0 == a / PER_MTOK + b / PER_MTOK + c / PER_MTOK + d / PER_MTOK;
  }

  /** The estimate is the exact cost of the reservation at the rates of an unbounded prompt, to within a micro-cent. */
  lemma EstimateIsNearExact(p: Price, input: real, output: real)
    ensures var r := RatesFor(p, Unbounded);
            var exact := (input * r.input + output * r.output) / 1000000.0;
            exact - 1.0 <= Estimate(p, input, output) as real <= exact + 1.0
  {
    var r := RatesFor(p, Unbounded);
    RoundIsNearest(input * r.input / PER_MTOK);
    RoundIsNearest(output * r.output / PER_MTOK);
    assert (input * r.input + output * r.output) / 1000000.0 == input * r.input / PER_MTOK + output * r.output / PER_MTOK;
  }

  /** What is reserved before the request: both sides at the rates of an unbounded prompt. */
  function Estimate(p: Price, input: real, output: real): int {
    var r := RatesFor(p, Unbounded);
    PerClass(input, r.input) + PerClass(output, r.output)
  }

  /** Rates never decrease with the threshold, starting from the flat rates, and a cached token costs at most an input token. */
  ghost predicate Monotone(p: Price) {
    && 0.0 <= p.flat.input && 0.0 <= p.flat.output && p.flat.cached <= p.flat.input
    && (forall i :: 0 <= i < |p.tiers| ==>
          && p.flat.input <= p.tiers[i].input && p.flat.output <= p.tiers[i].output
          && TierRates(p.tiers[i]).cached <= p.tiers[i].input)
    && (forall i, j :: 0 <= i < |p.tiers| && 0 <= j < |p.tiers| && p.tiers[i].above <= p.tiers[j].above ==>
          p.tiers[i].input <= p.tiers[j].input && p.tiers[i].output <= p.tiers[j].output)
  }

  /** The rates of an unbounded prompt are at least those of this one. */
  ghost predicate Dominated(p: Price, size: Size) {
    var r, w := RatesFor(p, size), RatesFor(p, Unbounded);
    r.input <= w.input && r.output <= w.output && r.cached <= w.input && 0.0 <= w.input && 0.0 <= w.output
  }

  lemma MonotoneDominates(p: Price, size: Size)
    requires Monotone(p)
    ensures Dominated(p, size)
  {
    BestIsHighest(p.tiers, size, |p.tiers|);
    BestIsHighest(p.tiers, Unbounded, |p.tiers|);
    var b := Best(p.tiers, size, |p.tiers|);
    if b >= 0 {
      assert Applies(Unbounded, p.tiers[b]);
    }
  }

  lemma RoundMonotone(x: real, y: real)
    requires x <= y
    ensures Round(x) <= Round(y)
  {
  }

  /** Splitting a term before rounding gains at most one. */
  lemma RoundSplit(x: real, y: real)
    ensures Round(x) + Round(y) <= Round(x + y) + 1
  {
  }

  lemma ScaleLe(a: real, b: real, c: real, d: real)
    requires 0.0 <= a <= c && b <= d && 0.0 <= d
    ensures a * b <= c * d
  {
  }

  /** Two amounts at no more than a rate cost no more than their sum at that rate. */
  lemma ProductsFit(x: real, y: real, rx: real, ry: real, w: real, input: real)
    requires 0.0 <= x && 0.0 <= y && rx <= w && ry <= w && 0.0 <= w && x + y <= input
    ensures x * rx + y * ry <= input * w
  {
    ScaleLe(x, rx, x, w);
    ScaleLe(y, ry, y, w);
    ScaleLe(x + y, w, input, w);
    Distribute(x, y, w);
    Chain(x * rx, y * ry, x * w, y * w, (x + y) * w, input * w);
  }

  lemma Distribute(x: real, y: real, z: real)
    ensures x * z + y * z == (x + y) * z
  {
  }

  lemma Chain(p: real, q: real, a: real, b: real, t: real, u: real)
    requires p <= a && q <= b && a + b == t && t <= u
    ensures p + q <= u
  {
  }

  lemma SplitBound(a: real, b: real, c: real)
    requires a + b <= c
    ensures Round(a / PER_MTOK) + Round(b / PER_MTOK) <= Round(c / PER_MTOK) + 1
  {
    RoundSplit(a / PER_MTOK, b / PER_MTOK);
    RoundMonotone(a / PER_MTOK + b / PER_MTOK, c / PER_MTOK);
  }

  lemma PerClassLe(a: real, b: real, c: real, d: real)
    requires a * b <= c * d
    ensures PerClass(a, b) <= PerClass(c, d)
  {
  }

  lemma InputSideBound(u: Usage, r: Rates, w: Rates, input: real)
    requires r.input <= w.input && r.cached <= w.input && 0.0 <= w.input && (u.input + u.cacheRead) as real <= input
    ensures PerClass(u.input as real, r.input) + PerClass(u.cacheRead as real, r.cached) <= PerClass(input, w.input) + 1
  {
    ProductsFit(u.input as real, u.cacheRead as real, r.input, r.cached, w.input, input);
    SplitBound(u.input as real * r.input, u.cacheRead as real * r.cached, input * w.input);
  }

  /** What the estimate leaves out: the cache writes at their own rate. */
  function CacheWrites(p: Price, u: Usage): int {
    PerClass(u.cacheWrite as real, if p.cacheWrite.Some? then p.cacheWrite.value else 0.0)
  }

  /**
   * A usage that stays within the estimated input and the reserved output costs at most its cache writes more than
   * the estimate plus one micro-cent; without cache writes, at most that micro-cent more.
   */
  lemma EstimateBoundsRealized(p: Price, u: Usage, input: real, output: real)
    requires Dominated(p, Tokens(u.input + u.cacheRead + u.cacheWrite))
    requires (u.input + u.cacheRead) as real <= input && u.output as real <= output
    ensures Realized(p, u) <= Estimate(p, input, output) + 1 + CacheWrites(p, u)
    ensures u.cacheWrite == 0 ==> Realized(p, u) <= Estimate(p, input, output) + 1
  {
    var r, w := RatesFor(p, Tokens(u.input + u.cacheRead + u.cacheWrite)), RatesFor(p, Unbounded);
    InputSideBound(u, r, w, input);
    ScaleLe(u.output as real, r.output, output, w.output);
    PerClassLe(u.output as real, r.output, output, w.output);
    if u.cacheWrite == 0 { NothingCosts(if p.cacheWrite.Some? then p.cacheWrite.value else 0.0); }
  }

  /** For monotone prices the bound needs nothing but the usage staying within the estimate. */
  lemma MonotoneEstimateBounds(p: Price, u: Usage, input: real, output: real)
    requires Monotone(p) && u.cacheWrite == 0
    requires (u.input + u.cacheRead) as real <= input && u.output as real <= output
    ensures Realized(p, u) <= Estimate(p, input, output) + 1
  {
    MonotoneDominates(p, Tokens(u.input + u.cacheRead + u.cacheWrite));
    EstimateBoundsRealized(p, u, input, output);
  }

  /** The extra micro-cent is needed: half a micro-cent each of input and cached input rounds up twice. */
  lemma ExtraMicrocentIsReached(p: Price)
    requires p.tiers == [] && p.flat == Rates(500000.0, 0.0, 500000.0)
    ensures Realized(p, Usage(1, 0, 1, 0)) == Estimate(p, 2.0, 0.0) + 1
  {
  }

  /** A request's input and cached input cost no more than the estimate's input side allows. */
  predicate InputFits(p: Price, input: nat, cached: nat, estimated: real) {
    var r, w := RatesFor(p, Tokens(input + cached)), RatesFor(p, Unbounded);
    PerClass(input as real, r.input) + PerClass(cached as real, r.cached) <= PerClass(estimated, w.input) + 1
  }

  /** The request's cost is bounded for every output and every reservation that covers it. */
  ghost predicate Bounded(p: Price, input: nat, cached: nat, estimated: real) {
    forall output: nat, reserved: real :: output as real <= reserved ==> BoundedAt(p, input, cached, estimated, output, reserved)
  }

  ghost predicate BoundedAt(p: Price, input: nat, cached: nat, estimated: real, output: nat, reserved: real) {
    Realized(p, Usage(input, output, cached, 0)) <= Estimate(p, estimated, reserved) + 1
  }

  lemma RealizedSplits(p: Price, input: nat, cached: nat, output: nat)
    ensures var r := RatesFor(p, Tokens(input + cached));
            Realized(p, Usage(input, output, cached, 0))
            == PerClass(input as real, r.input) + PerClass(cached as real, r.cached) + PerClass(output as real, r.output)
  {
    NothingCosts(if p.cacheWrite.Some? then p.cacheWrite.value else 0.0);
    assert 0 as real == 0.0;
  }

  /**
   * Exactly when the estimate bounds a request's cost: the request's input side fits, and the output rate of its
   * own tier is no higher than the estimate's, which is not negative. The estimate takes the rates of the highest
   * threshold and not the highest rates, so this is a condition on the tiers and not a fact.
   */
  lemma EstimateBoundsIff(p: Price, input: nat, cached: nat, estimated: real)
    ensures Bounded(p, input, cached, estimated) <==>
              && InputFits(p, input, cached, estimated)
              && RatesFor(p, Tokens(input + cached)).output <= RatesFor(p, Unbounded).output
              && 0.0 <= RatesFor(p, Unbounded).output
  {
    var r, w := RatesFor(p, Tokens(input + cached)), RatesFor(p, Unbounded);
    if InputFits(p, input, cached, estimated) && r.output <= w.output && 0.0 <= w.output {
      forall output: nat, reserved: real | output as real <= reserved
        ensures BoundedAt(p, input, cached, estimated, output, reserved)
      {
        RealizedSplits(p, input, cached, output);
        ScaleLe(output as real, r.output, reserved, w.output);
        PerClassLe(output as real, r.output, reserved, w.output);
      }
    }
    if Bounded(p, input, cached, estimated) {
      BoundNeedsInput(p, input, cached, estimated);
    }
    if r.output > w.output {
      var output := OutputDominanceIsNecessary(p, input, cached, estimated, 1);
      assert !BoundedAt(p, input, cached, estimated, output, output as real);
    }
    if w.output < 0.0 {
      var reserved := OutputSignIsNecessary(p, input, cached, estimated, 1);
      assert !BoundedAt(p, input, cached, estimated, 0, reserved as real);
    }
  }

  lemma BoundNeedsInput(p: Price, input: nat, cached: nat, estimated: real)
    requires Bounded(p, input, cached, estimated)
    ensures InputFits(p, input, cached, estimated)
  {
    assert 0 as real == 0.0;
    assert BoundedAt(p, input, cached, estimated, 0, 0.0);
    RealizedSplits(p, input, cached, 0);
    NothingCosts(RatesFor(p, Tokens(input + cached)).output);
    NothingCosts(RatesFor(p, Unbounded).output);
  }

  /** Where the request's own tier charges more for output, some response exceeds the estimate by any margin. */
  lemma OutputDominanceIsNecessary(p: Price, input: nat, cached: nat, estimated: real, margin: nat) returns (output: nat)
    requires RatesFor(p, Tokens(input + cached)).output > RatesFor(p, Unbounded).output
    ensures Realized(p, Usage(input, output, cached, 0)) > Estimate(p, estimated, output as real) + margin
  {
    var r, w := RatesFor(p, Tokens(input + cached)), RatesFor(p, Unbounded);
    var spare := PerClass(estimated, w.input) - PerClass(input as real, r.input) - PerClass(cached as real, r.cached);
    output := OutputGap(r.output, w.output, margin + 1 + if spare < 0 then 0 else spare);
    RealizedSplits(p, input, cached, output);
  }

  /** Where the estimate's output rate is negative, some reservation falls short by any margin. */
  lemma OutputSignIsNecessary(p: Price, input: nat, cached: nat, estimated: real, margin: nat) returns (reserved: nat)
    requires RatesFor(p, Unbounded).output < 0.0
    ensures Realized(p, Usage(input, 0, cached, 0)) > Estimate(p, estimated, reserved as real) + margin
  {
    var r, w := RatesFor(p, Tokens(input + cached)), RatesFor(p, Unbounded);
    var spare := PerClass(estimated, w.input) - PerClass(input as real, r.input) - PerClass(cached as real, r.cached);
    reserved := OutputGap(0.0, w.output, margin + 1 + if spare < 0 then 0 else spare);
    RealizedSplits(p, input, cached, 0);
    NothingCosts(r.output);
    assert 0 as real == 0.0 && PerClass(reserved as real, 0.0) == 0;
  }

  lemma NothingCosts(rate: real)
    ensures PerClass(0.0, rate) == 0
  {
  }

  /** A higher rate outgrows a lower one by any amount. */
  lemma OutputGap(high: real, low: real, need: nat) returns (n: nat)
    requires high > low
    ensures PerClass(n as real, high) - PerClass(n as real, low) >= need
  {
    n := Enough((high - low) / PER_MTOK, need);
    var x, y := n as real * high / PER_MTOK, n as real * low / PER_MTOK;
    assert x - y == n as real * ((high - low) / PER_MTOK);
    assert Round(x) as real > x - 0.5 && Round(y) as real <= y + 0.5;
    assert (Round(x) - Round(y)) as real > need as real - 1.0;
  }

  /** Enough steps of a positive size reach any distance. */
  lemma Enough(gap: real, need: nat) returns (n: nat)
    requires gap > 0.0
    ensures n as real * gap >= need as real
  {
    n := (need as real / gap).Floor + 1;
    assert n as real >= need as real / gap;
    assert n as real * gap >= need as real / gap * gap;
  }

  ghost function CacheWriteRate(p: Price): real {
    if p.cacheWrite.None? then 0.0 else p.cacheWrite.value
  }

  /** The cost is that of the tier its whole input side lands in, to within half a micro-cent for each of four terms. */
  ghost predicate PricedAt(p: Price, u: Usage, cost: int, r: Rates, above: Option<real>) {
    var exact := ExactCost(u, r, CacheWriteRate(p));
    Selects(p, Tokens(u.input + u.cacheRead + u.cacheWrite), r, above) && exact - 2.0 <= cost as real <= exact + 2.0
  }

  /** The running total of a node or session. */
  class CostTracker {
    var cumulative: int

    constructor ()
      ensures cumulative == 0
    {
      cumulative := 0;
    }

    /** Adds a usage's cost, which is at most a micro-cent over any estimate the usage stays within. */
    method Record(p: Price, u: Usage) returns (cost: int)
      modifies this
      ensures cumulative == old(cumulative) + cost
      ensures exists r, above :: PricedAt(p, u, cost, r, above)
      ensures cost == Realized(p, u)
      ensures forall input, output :: Within(Attempt(p, u, input, output)) ==> cost <= Estimate(p, input, output) + 1
    {
      var size := Tokens(u.input + u.cacheRead + u.cacheWrite);
      BestSelects(p, size);
      RealizedIsNearExact(p, u);
      ghost var b := Best(p.tiers, size, |p.tiers|);
      assert PricedAt(p, u, Realized(p, u), RatesFor(p, size), if b < 0 then None else Some(p.tiers[b].above));
      forall input, output | Within(Attempt(p, u, input, output)) ensures Realized(p, u) <= Estimate(p, input, output) + 1 {
        MonotoneEstimateBounds(p, u, input, output);
      }
      cost := Realized(p, u);
      cumulative := cumulative + cost;
    }
  }

  /** One attempt: its price, what it used, and what was reserved for it. */
  datatype Attempt = Attempt(price: Price, usage: Usage, input: real, output: real)

  ghost predicate Within(a: Attempt) {
    && Monotone(a.price) && a.usage.cacheWrite == 0
    && (a.usage.input + a.usage.cacheRead) as real <= a.input && a.usage.output as real <= a.output
  }

  function TotalRealized(attempts: seq<Attempt>): int {
    if attempts == [] then 0
    else TotalRealized(attempts[..|attempts|-1]) + Realized(attempts[|attempts|-1].price, attempts[|attempts|-1].usage)
  }

  function TotalEstimated(attempts: seq<Attempt>): int {
    if attempts == [] then 0
    else
      var a := attempts[|attempts|-1];
      TotalEstimated(attempts[..|attempts|-1]) + Estimate(a.price, a.input, a.output)
  }

  /** The tracker's total over any sequence of attempts. */
  method RecordAll(tracker: CostTracker, attempts: seq<Attempt>)
    modifies tracker
    ensures tracker.cumulative == old(tracker.cumulative) + TotalRealized(attempts)
  {
    for i := 0 to |attempts|
      invariant tracker.cumulative == old(tracker.cumulative) + TotalRealized(attempts[..i])
    {
      var _ := tracker.Record(attempts[i].price, attempts[i].usage);
      assert attempts[..i+1][..i] == attempts[..i];
    }
    assert attempts[..|attempts|] == attempts;
  }

  /** Across failovers the total exceeds the sum of the estimates by at most a micro-cent per attempt. */
  lemma {:induction false} TotalIsBounded(attempts: seq<Attempt>)
    requires forall i :: 0 <= i < |attempts| ==> Within(attempts[i])
    ensures TotalRealized(attempts) <= TotalEstimated(attempts) + |attempts|
  {
    if attempts != [] {
      var n := |attempts| - 1;
      TotalIsBounded(attempts[..n]);
      var a := attempts[n];
      assert Within(a);
      MonotoneEstimateBounds(a.price, a.usage, a.input, a.output);
    }
  }
}
