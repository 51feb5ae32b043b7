/** The branch order pinned on each merge: the declared order of the parallel it joins. */
module MergeOrder {
  import opened Collections
  import opened Graph
  import opened Workflow

  /** An id without a node counts as producing. */
  predicate Producing(kinds: map<Id, Kind>, id: Id) {
    id !in kinds || ProducesValue(kinds[id])
  }

  /** The elements of `s` other than `merge` that produce a value, in order. */
  function Branches(kinds: map<Id, Kind>, merge: Id, s: seq<Id>): (r: seq<Id>)
    ensures forall x :: x in r <==> x in s && x != merge && Producing(kinds, x)
    ensures Distinct(s) ==> Distinct(r)
  {
    if s == [] then []
    else
      var n := |s| - 1;
      assert s == s[..n] + [s[n]];
      Branches(kinds, merge, s[..n]) + if s[n] != merge && Producing(kinds, s[n]) then [s[n]] else []
  }

  /** Every member of the parallel is the merge itself or one of its dependencies. */
  predicate Eligible(merge: Id, preds: set<Id>, members: seq<Id>) {
    members != [] && forall m :: m in members ==> m == merge || m in preds
  }

  function Cover(kinds: map<Id, Kind>, merge: Id, members: seq<Id>): nat {
    |Branches(kinds, merge, members)|
  }

  /** An eligible parallel covers at most `cap` branches. */
  ghost predicate CoversAtMost(kinds: map<Id, Kind>, merge: Id, preds: set<Id>, members: seq<Id>, cap: int) {
    Eligible(merge, preds, members) ==> Cover(kinds, merge, members) <= cap
  }

  /** `k` covers most branches among eligible parallels, and is the first authored to do so. */
  ghost predicate Paired(kinds: map<Id, Kind>, merge: Id, preds: set<Id>, parallels: seq<seq<Id>>, k: int) {
    if 0 <= k < |parallels| then
      && Eligible(merge, preds, parallels[k]) && Cover(kinds, merge, parallels[k]) > 0
      && Capped(kinds, merge, preds, parallels, k, Cover(kinds, merge, parallels[k]), |parallels|)
    else
      Capped(kinds, merge, preds, parallels, -1, 0, |parallels|)
  }

  /** Among the first `n` parallels none covers more than `best`, and none before `k` as many. */
  ghost predicate Capped(kinds: map<Id, Kind>, merge: Id, preds: set<Id>, parallels: seq<seq<Id>>, k: int, best: nat, n: nat)
    requires n <= |parallels|
  {
    forall j {:trigger parallels[j]} :: 0 <= j < n ==>
      CoversAtMost(kinds, merge, preds, parallels[j], if j < k then best - 1 else best)
  }

  // The same in the document's terms.

  /** Conditions route and parallels split; anything else carries a value. */
  ghost predicate CarriesValue(kinds: map<Id, Kind>, id: Id) {
    id in kinds ==> !kinds[id].Condition? && !kinds[id].Parallel?
  }

  /** The positions in `s` of branches with a value. */
  ghost function ValuePlaces(kinds: map<Id, Kind>, merge: Id, s: seq<Id>): set<int> {
    set i | 0 <= i < |s| && s[i] != merge && CarriesValue(kinds, s[i])
  }

  lemma PlacesNext(kinds: map<Id, Kind>, merge: Id, s: seq<Id>)
    requires s != []
    ensures var n := |s| - 1;
            |ValuePlaces(kinds, merge, s)| == |ValuePlaces(kinds, merge, s[..n])| + if s[n] != merge && CarriesValue(kinds, s[n]) then 1 else 0
  {
    var n := |s| - 1;
    assert ValuePlaces(kinds, merge, s) ==
             ValuePlaces(kinds, merge, s[..n]) + if s[n] != merge && CarriesValue(kinds, s[n]) then {n} else {};
  }

  lemma {:induction false} CoverIsCount(kinds: map<Id, Kind>, merge: Id, s: seq<Id>)
    ensures Cover(kinds, merge, s) == |ValuePlaces(kinds, merge, s)|
  {
    if s == [] {
      assert ValuePlaces(kinds, merge, s) == {};
    } else {
      CoverIsCount(kinds, merge, s[..|s|-1]);
      PlacesNext(kinds, merge, s);
    }
  }

  /** The parallel feeds nothing but this merge: each member is the merge or waited for by it. */
  ghost predicate Feeds(merge: Id, preds: set<Id>, s: seq<Id>) {
    s != [] && forall i :: 0 <= i < |s| ==> s[i] == merge || s[i] in preds
  }

  /** At most `cap` values come from a parallel that feeds the merge. */
  ghost predicate FeedsAtMost(kinds: map<Id, Kind>, merge: Id, preds: set<Id>, s: seq<Id>, cap: int) {
    Feeds(merge, preds, s) ==> |ValuePlaces(kinds, merge, s)| <= cap
  }

  /** The merge joins the parallel that feeds it most values, the first authored of those; or none, when none feeds it any. */
  ghost predicate Joins(kinds: map<Id, Kind>, merge: Id, preds: set<Id>, parallels: seq<seq<Id>>, k: int) {
    -1 <= k < |parallels|
    && if k >= 0 then
         var most := |ValuePlaces(kinds, merge, parallels[k])|;
         && Feeds(merge, preds, parallels[k]) && most > 0
         && forall j {:trigger parallels[j]} :: 0 <= j < |parallels| ==>
              FeedsAtMost(kinds, merge, preds, parallels[j], if j < k then most - 1 else most)
       else forall j {:trigger parallels[j]} :: 0 <= j < |parallels| ==> FeedsAtMost(kinds, merge, preds, parallels[j], 0)
  }

  lemma CapMeans(kinds: map<Id, Kind>, merge: Id, preds: set<Id>, s: seq<Id>, cap: int)
    ensures Eligible(merge, preds, s) <==> Feeds(merge, preds, s)
    ensures CoversAtMost(kinds, merge, preds, s, cap) <==> FeedsAtMost(kinds, merge, preds, s, cap)
  {
    CoverIsCount(kinds, merge, s);
  }

  lemma PairedJoins(kinds: map<Id, Kind>, merge: Id, preds: set<Id>, parallels: seq<seq<Id>>, k: int)
    requires -1 <= k < |parallels| && Paired(kinds, merge, preds, parallels, k)
    ensures Joins(kinds, merge, preds, parallels, k)
  {
    var most := if k >= 0 then Cover(kinds, merge, parallels[k]) else 0;
    if k >= 0 {
      CoverIsCount(kinds, merge, parallels[k]);
      CapMeans(kinds, merge, preds, parallels[k], most);
    }
    forall j {:trigger parallels[j]} | 0 <= j < |parallels|
      ensures FeedsAtMost(kinds, merge, preds, parallels[j], if j < k then most - 1 else most)
    {
      CapMeans(kinds, merge, preds, parallels[j], if j < k then most - 1 else most);
    }
  }

  /** `x` stands before `y` in `s`. */
  ghost predicate Precedes(s: seq<Id>, x: Id, y: Id) {
    exists i, j :: 0 <= i < j < |s| && s[i] == x && s[j] == y
  }

  /** `x` may stand before `y`: declared members first and as declared, then the others as authored. */
  ghost predicate InTurn(nodes: seq<Id>, members: seq<Id>, x: Id, y: Id) {
    if y in members then Precedes(members, x, y) else x in members || Precedes(nodes, x, y)
  }

  lemma PrecedesLonger(s: seq<Id>, t: seq<Id>, x: Id, y: Id)
    requires Precedes(s, x, y)
    ensures Precedes(s + t, x, y) && Precedes(t + s, x, y)
  {
    var i, j :| 0 <= i < j < |s| && s[i] == x && s[j] == y;
    assert (s + t)[i] == x && (s + t)[j] == y;
    assert (t + s)[|t|+i] == x && (t + s)[|t|+j] == y;
  }

  lemma {:induction false} BranchesFollow(kinds: map<Id, Kind>, merge: Id, s: seq<Id>, a: nat, b: nat)
    requires a < b < |Branches(kinds, merge, s)|
    ensures Precedes(s, Branches(kinds, merge, s)[a], Branches(kinds, merge, s)[b])
  {
    var n := |s| - 1;
    var r, q := Branches(kinds, merge, s), Branches(kinds, merge, s[..n]);
    assert s == s[..n] + [s[n]];
    if b < |q| {
      BranchesFollow(kinds, merge, s[..n], a, b);
      PrecedesLonger(s[..n], [s[n]], r[a], r[b]);
    } else {
      assert r[a] in q;
      var i :| 0 <= i < n && s[..n][i] == r[a];
      assert s[i] == r[a] && s[n] == r[b];
    }
  }

  lemma {:induction false} SortFollows(nodes: seq<Id>, s: set<Id>, a: nat, b: nat)
    requires a < b < |AuthoredSort(nodes, s)|
    ensures Precedes(nodes, AuthoredSort(nodes, s)[a], AuthoredSort(nodes, s)[b])
  {
    var r, q := AuthoredSort(nodes, s), AuthoredSort(nodes[1..], s);
    assert nodes == [nodes[0]] + nodes[1..];
    if nodes[0] !in s || a > 0 {
      var d := if nodes[0] in s then 1 else 0;
      SortFollows(nodes[1..], s, a - d, b - d);
      PrecedesLonger(nodes[1..], [nodes[0]], r[a], r[b]);
    } else {
      assert r[b] == q[b-1] && q[b-1] in Elems(q);
      var i :| 0 <= i < |nodes[1..]| && nodes[1..][i] == r[b];
      assert nodes[0] == r[a] && nodes[i+1] == r[b];
    }
  }

  lemma PrecedesIn(nodes: seq<Id>, s: set<Id>, kinds: map<Id, Kind>, merge: Id, a: nat, b: nat)
    requires a < b < |Branches(kinds, merge, AuthoredSort(nodes, s))|
    ensures Precedes(nodes, Branches(kinds, merge, AuthoredSort(nodes, s))[a], Branches(kinds, merge, AuthoredSort(nodes, s))[b])
  {
    var t := AuthoredSort(nodes, s);
    BranchesFollow(kinds, merge, t, a, b);
    var i, j :| 0 <= i < j < |t| && t[i] == Branches(kinds, merge, t)[a] && t[j] == Branches(kinds, merge, t)[b];
    SortFollows(nodes, s, i, j);
  }

  /** In `s` no element stands before one it should follow. */
  ghost predicate Along(s: seq<Id>, r: seq<Id>) {
    forall a, b :: 0 <= a < b < |r| ==> Precedes(s, r[a], r[b])
  }

  lemma DeclaredAlong(kinds: map<Id, Kind>, merge: Id, s: seq<Id>)
    ensures Along(s, Branches(kinds, merge, s))
  {
    var r := Branches(kinds, merge, s);
    forall a, b | 0 <= a < b < |r| ensures Precedes(s, r[a], r[b]) { BranchesFollow(kinds, merge, s, a, b); }
  }

  lemma ExtrasAlong(nodes: seq<Id>, s: set<Id>, kinds: map<Id, Kind>, merge: Id)
    ensures Along(nodes, Branches(kinds, merge, AuthoredSort(nodes, s)))
    ensures forall x :: x in Branches(kinds, merge, AuthoredSort(nodes, s)) ==> x in s
  {
    var t := AuthoredSort(nodes, s);
    var r := Branches(kinds, merge, t);
    forall a, b | 0 <= a < b < |r| ensures Precedes(nodes, r[a], r[b]) { PrecedesIn(nodes, s, kinds, merge, a, b); }
    forall x | x in r ensures x in s { assert x in Elems(t); }
  }

  /** Declared branches, then the others along the authored order, are all in turn. */
  lemma AllJoinInTurn(nodes: seq<Id>, members: seq<Id>, p: seq<Id>, q: seq<Id>)
    requires Along(members, p) && Along(nodes, q)
    requires (forall x :: x in p ==> x in members) && (forall x :: x in q ==> x !in members)
    ensures AllInTurn(nodes, members, p + q)
  {
    forall a, b | 0 <= a < b < |p + q| ensures InTurn(nodes, members, (p + q)[a], (p + q)[b]) {
      JoinInTurn(nodes, members, p, q, a, b);
    }
  }

  lemma JoinInTurn(nodes: seq<Id>, members: seq<Id>, p: seq<Id>, q: seq<Id>, a: nat, b: nat)
    requires a < b < |p| + |q| && (forall x :: x in p ==> x in members) && (forall x :: x in q ==> x !in members)
    requires b < |p| ==> Precedes(members, p[a], p[b])
    requires a >= |p| ==> Precedes(nodes, q[a-|p|], q[b-|p|])
    ensures InTurn(nodes, members, (p + q)[a], (p + q)[b])
  {
    if b < |p| {
      assert p[b] in p;
    } else {
      assert q[b-|p|] in q;
      if a < |p| { assert p[a] in p; }
    }
  }

  /** The whole order is in turn for the parallel the merge joins. */
  ghost predicate Pinned(nodes: seq<Id>, kinds: map<Id, Kind>, merge: Id, preds: set<Id>, parallels: seq<seq<Id>>, order: seq<Id>) {
    && Distinct(order) && (forall x :: x in order <==> x in preds && CarriesValue(kinds, x))
    && exists k :: Joins(kinds, merge, preds, parallels, k) && AllInTurn(nodes, if k < 0 then [] else parallels[k], order)
  }

  ghost predicate AllInTurn(nodes: seq<Id>, members: seq<Id>, order: seq<Id>) {
    forall a, b :: 0 <= a < b < |order| ==> InTurn(nodes, members, order[a], order[b])
  }

  method PairParallel(kinds: map<Id, Kind>, merge: Id, preds: set<Id>, parallels: seq<seq<Id>>) returns (paired: int)
    ensures -1 <= paired < |parallels| && Paired(kinds, merge, preds, parallels, paired)
  {
    paired := -1;
    var bestCover: nat := 0;
    for i := 0 to |parallels|
      invariant -1 <= paired < i
      invariant bestCover == if paired < 0 then 0 else Cover(kinds, merge, parallels[paired])
      invariant paired >= 0 ==> bestCover > 0 && Eligible(merge, preds, parallels[paired])
      invariant Capped(kinds, merge, preds, parallels, paired, bestCover, i)
    {
      var members := parallels[i];
      if Eligible(merge, preds, members) {
        var cover := Cover(kinds, merge, members);
        if cover > bestCover {
          CapRaised(kinds, merge, preds, parallels, paired, bestCover, i, cover);
          paired, bestCover := i, cover;
        } else {
          CapKept(kinds, merge, preds, parallels, paired, bestCover, i);
        }
      } else {
        CapKept(kinds, merge, preds, parallels, paired, bestCover, i);
      }
    }
  }

  lemma CapKept(kinds: map<Id, Kind>, merge: Id, preds: set<Id>, parallels: seq<seq<Id>>, k: int, best: nat, i: nat)
    requires i < |parallels| && Capped(kinds, merge, preds, parallels, k, best, i) && k < i
    requires CoversAtMost(kinds, merge, preds, parallels[i], best)
    ensures Capped(kinds, merge, preds, parallels, k, best, i + 1)
  {
  }

  lemma CapRaised(kinds: map<Id, Kind>, merge: Id, preds: set<Id>, parallels: seq<seq<Id>>, k: int, best: nat, i: nat, cover: nat)
    requires i < |parallels| && Capped(kinds, merge, preds, parallels, k, best, i) && k < i && best < cover
    requires cover == Cover(kinds, merge, parallels[i])
    ensures Capped(kinds, merge, preds, parallels, i, cover, i + 1)
  {
    forall j {:trigger parallels[j]} | 0 <= j < i
      ensures CoversAtMost(kinds, merge, preds, parallels[j], cover - 1)
    {
      CapWeakens(kinds, merge, preds, parallels[j], if j < k then best - 1 else best, cover - 1);
    }
  }

  lemma CapWeakens(kinds: map<Id, Kind>, merge: Id, preds: set<Id>, members: seq<Id>, cap: int, more: int)
    requires CoversAtMost(kinds, merge, preds, members, cap) && cap <= more
    ensures CoversAtMost(kinds, merge, preds, members, more)
  {
  }

  /** Exactly the value-producing dependencies, once each. */
  ghost predicate Exactly(kinds: map<Id, Kind>, preds: set<Id>, order: seq<Id>) {
    Distinct(order) && forall x :: x in order <==> x in preds && Producing(kinds, x)
  }

  /** The branches of the paired parallel in declared order, then the other dependencies in authored order. */
  ghost predicate Declared(nodes: seq<Id>, kinds: map<Id, Kind>, merge: Id, preds: set<Id>, parallels: seq<seq<Id>>,
                           paired: int, order: seq<Id>) {
    && -1 <= paired < |parallels| && Paired(kinds, merge, preds, parallels, paired)
    && var members := if paired < 0 then [] else parallels[paired];
       order == Branches(kinds, merge, members) + Branches(kinds, merge, AuthoredSort(nodes, preds - Elems(members)))
  }

  lemma AuthoredSortDistinct(nodes: seq<Id>, s: set<Id>)
    requires Distinct(nodes)
    ensures Distinct(AuthoredSort(nodes, s))
  {
    if nodes != [] {
      AuthoredSortDistinct(nodes[1..], s);
      assert Elems(AuthoredSort(nodes[1..], s)) == Elems(nodes[1..]) * s;
      assert nodes[0] !in nodes[1..];
      assert nodes[0] !in Elems(AuthoredSort(nodes[1..], s));
    }
  }

  lemma BranchesConcat(kinds: map<Id, Kind>, merge: Id, preds: set<Id>, a: seq<Id>, b: seq<Id>)
    requires merge !in preds && Distinct(a) && Distinct(b)
    requires forall x :: x in a ==> x == merge || x in preds
    requires forall x :: x in b <==> x in preds && x !in a
    ensures Exactly(kinds, preds, Branches(kinds, merge, a) + Branches(kinds, merge, b))
  {
    var p, q := Branches(kinds, merge, a), Branches(kinds, merge, b);
    DistinctJoin(p, q);
    forall x ensures x in p + q <==> x in preds && Producing(kinds, x) {
      assert x in p + q <==> x in p || x in q;
    }
  }

  /** A merge's branches; with no pairing, all value-producing dependencies in authored order. */
  method BranchOrder(nodes: seq<Id>, kinds: map<Id, Kind>, merge: Id, preds: set<Id>, parallels: seq<seq<Id>>)
    returns (order: seq<Id>, paired: int)
    requires Distinct(nodes) && preds <= Elems(nodes)
    requires forall i :: 0 <= i < |parallels| ==> Distinct(parallels[i])
    requires merge !in preds
    ensures Exactly(kinds, preds, order)
    ensures Pinned(nodes, kinds, merge, preds, parallels, order)
    ensures Declared(nodes, kinds, merge, preds, parallels, paired, order)
  {
    paired := PairParallel(kinds, merge, preds, parallels);
    var members := if paired < 0 then [] else parallels[paired];
    var extras := AuthoredSort(nodes, preds - Elems(members));
    AuthoredSortDistinct(nodes, preds - Elems(members));
    forall x ensures x in extras <==> x in preds && x !in members {
      assert x in extras <==> x in Elems(extras);
      assert x in members <==> x in Elems(members);
    }
    BranchesConcat(kinds, merge, preds, members, extras);
    order := Branches(kinds, merge, members) + Branches(kinds, merge, extras);
    PairedJoins(kinds, merge, preds, parallels, paired);
    DeclaredAlong(kinds, merge, members);
    ExtrasAlong(nodes, preds - Elems(members), kinds, merge);
    AllJoinInTurn(nodes, members, Branches(kinds, merge, members), Branches(kinds, merge, extras));
  }
}
