/** The binary min-heap of ready ids that Kahn's loop keeps, ordered by authored position. */
module ReadyHeap {
  import opened Collections
  import opened Graph

  function Parent(k: nat): nat
    requires k > 0
  {
    (k - 1) / 2
  }

  predicate Ranked(rank: map<Id, nat>, s: seq<Id>) {
    forall k :: 0 <= k < |s| ==> s[k] in rank
  }

  /** No element precedes its heap parent. */
  predicate Heap(rank: map<Id, nat>, s: seq<Id>)
    requires Ranked(rank, s)
  {
    forall k {:trigger Parent(k)} :: 0 < k < |s| ==> rank[s[Parent(k)]] <= rank[s[k]]
  }

  /** A heap except that the element at `at` may precede its parent; its children still respect that parent. */
  predicate HeapButUp(rank: map<Id, nat>, s: seq<Id>, at: nat)
    requires Ranked(rank, s)
  {
    && (forall k {:trigger Parent(k)} :: 0 < k < |s| && k != at ==> rank[s[Parent(k)]] <= rank[s[k]])
    && (forall k {:trigger Parent(k)} :: 0 < k < |s| && at > 0 && Parent(k) == at ==> rank[s[Parent(at)]] <= rank[s[k]])
  }

  /** A heap except that the element at `at` may follow its children, which still respect its parent. */
  predicate HeapButDown(rank: map<Id, nat>, s: seq<Id>, at: nat)
    requires Ranked(rank, s)
  {
    && (forall k {:trigger Parent(k)} :: 0 < k < |s| && Parent(k) != at ==> rank[s[Parent(k)]] <= rank[s[k]])
    && (forall k {:trigger Parent(k)} :: 0 < k < |s| && at > 0 && at < |s| && Parent(k) == at ==> rank[s[Parent(at)]] <= rank[s[k]])
  }

  /** The sequence with the elements at `i` and `j` exchanged. */
  function Swap(s: seq<Id>, i: nat, j: nat): (r: seq<Id>)
    requires i < |s| && j < |s|
    ensures |r| == |s| && multiset(r) == multiset(s)
  {
    s[i := s[j]][j := s[i]]
  }

  /** Moving the element at `j` into the hole at `i` moves the hole to `j`. */
  lemma HoleMoves(s: seq<Id>, i: nat, j: nat, x: Id)
    requires i < |s| && j < |s| && i != j
    ensures s[i := s[j]][j := x] == Swap(s[i := x], i, j)
  {
  }

  lemma SiftUpStep(rank: map<Id, nat>, s: seq<Id>, at: nat)
    requires Ranked(rank, s) && 0 < at < |s| && HeapButUp(rank, s, at)
    requires rank[s[at]] < rank[s[Parent(at)]]
    ensures Ranked(rank, Swap(s, at, Parent(at)))
    ensures HeapButUp(rank, Swap(s, at, Parent(at)), Parent(at))
  {
  }

  lemma SiftDownStep(rank: map<Id, nat>, s: seq<Id>, at: nat, child: nat)
    requires Ranked(rank, s) && 2 * at + 1 < |s| && HeapButDown(rank, s, at)
    requires child == LeastChild(rank, s, at) && rank[s[child]] < rank[s[at]]
    ensures Ranked(rank, Swap(s, at, child))
    ensures HeapButDown(rank, Swap(s, at, child), child)
  {
  }

  lemma SiftUpDone(rank: map<Id, nat>, s: seq<Id>, at: nat)
    requires Ranked(rank, s) && at < |s| && HeapButUp(rank, s, at)
    requires at > 0 ==> rank[s[Parent(at)]] <= rank[s[at]]
    ensures Heap(rank, s)
  {
  }

  lemma SiftDownDone(rank: map<Id, nat>, s: seq<Id>, at: nat)
    requires Ranked(rank, s) && at < |s| && HeapButDown(rank, s, at)
    requires 2 * at + 1 < |s| ==> rank[s[at]] <= rank[s[LeastChild(rank, s, at)]]
    ensures Heap(rank, s)
  {
  }

  function LeastChild(rank: map<Id, nat>, s: seq<Id>, at: nat): (child: nat)
    requires Ranked(rank, s) && 2 * at + 1 < |s|
    ensures 0 < child < |s| && Parent(child) == at
  {
    if 2 * at + 2 < |s| && rank[s[2 * at + 2]] < rank[s[2 * at + 1]] then 2 * at + 2 else 2 * at + 1
  }

  lemma {:induction false} RootIsLeast(rank: map<Id, nat>, s: seq<Id>, k: nat)
    requires Ranked(rank, s) && Heap(rank, s) && k < |s|
    ensures rank[s[0]] <= rank[s[k]]
    decreases k
  {
    if k > 0 {
      RootIsLeast(rank, s, Parent(k));
    }
  }

  /** Replacing the root by the last element leaves a heap except at the root. */
  lemma RootReplaced(rank: map<Id, nat>, s: seq<Id>)
    requires Ranked(rank, s) && Heap(rank, s) && |s| >= 2
    ensures var r := s[..|s|-1][0 := s[|s|-1]];
            && Ranked(rank, r) && HeapButDown(rank, r, 0)
            && multiset(r) + multiset{s[0]} == multiset(s)
  {
    var last := |s| - 1;
    var r := s[..last][0 := s[last]];
    forall k | 0 < k < |r| && Parent(k) != 0 ensures rank[r[Parent(k)]] <= rank[r[k]] {
      assert r[k] == s[k] && r[Parent(k)] == s[Parent(k)];
    }
    assert r == [s[last]] + s[1..last];
    assert s == [s[0]] + s[1..last] + [s[last]];
  }

  class BinaryHeap {
    const rank: map<Id, nat>
    var ready: seq<Id>

    ghost predicate Valid()
      reads this
    {
      Ranked(rank, ready) && Heap(rank, ready)
    }

    constructor (rank: map<Id, nat>)
      ensures Valid() && ready == [] && this.rank == rank
    {
      this.rank := rank;
      ready := [];
    }

    method Push(id: Id)
      requires Valid() && id in rank
      modifies this
      ensures Valid()
      ensures multiset(ready) == old(multiset(ready)) + multiset{id}
    {
      var index := |ready|;
      ready := ready + [id];
      // `hole` is the array with `id` written at the moving index.
      ghost var hole := ready;
      while index > 0
        invariant 0 <= index < |ready|
        invariant hole == ready[index := id]
        invariant Ranked(rank, hole) && HeapButUp(rank, hole, index)
        invariant multiset(hole) == old(multiset(ready)) + multiset{id}
      {
        var parent := (index - 1) / 2;
        var parentId := ready[parent];
        assert parent == Parent(index) && parentId == hole[parent] && id == hole[index];
        if rank[parentId] <= rank[id] {
          break;
        }
        SiftUpStep(rank, hole, index);
        HoleMoves(ready, index, parent, id);
        hole := Swap(hole, index, parent);
        ready := ready[index := parentId];
        index := parent;
      }
      SiftUpDone(rank, hole, index);
      ready := ready[index := id];
    }

    method Pop() returns (first: Id)
      requires Valid() && ready != []
      modifies this
      ensures Valid()
      ensures old(multiset(ready)) == multiset(ready) + multiset{first}
      ensures first in rank && forall x :: x in ready ==> x in rank && rank[first] <= rank[x]
    {
      first := ready[0];
      ghost var was := ready;
      var last := ready[|ready|-1];
      ready := ready[..|ready|-1];
      if ready == [] {
        assert was == [first];
        return;
      }
      RootReplaced(rank, was);
      SiftDown(last);
      forall x | x in ready ensures x in rank && rank[first] <= rank[x] {
        assert x in multiset(ready) && x in multiset(was);
        var k :| 0 <= k < |was| && was[k] == x;
        RootIsLeast(rank, was, k);
      }
    }

    /** Places `last` in the vacant root, moving the lesser child up until it fits. */
    method SiftDown(last: Id)
      requires ready != [] && Ranked(rank, ready[0 := last]) && HeapButDown(rank, ready[0 := last], 0)
      modifies this
      ensures Valid()
      ensures multiset(ready) == old(multiset(ready[0 := last]))
    {
      var index := 0;
      ghost var hole := ready[0 := last];
      while index * 2 + 1 < |ready|
        invariant 0 <= index < |ready|
        invariant hole == ready[index := last]
        invariant Ranked(rank, hole) && HeapButDown(rank, hole, index)
        invariant multiset(hole) == old(multiset(ready[0 := last]))
        decreases |ready| - index
      {
        var child := index * 2 + 1;
        assert hole[child] in rank && (child + 1 < |hole| ==> hole[child + 1] in rank);
        if child + 1 < |ready| && rank[ready[child + 1]] < rank[ready[child]] {
          child := child + 1;
        }
        assert child == LeastChild(rank, hole, index);
        var childId := ready[child];
        if rank[last] <= rank[childId] {
          break;
        }
        SiftDownStep(rank, hole, index, child);
        HoleMoves(ready, index, child, last);
        hole := Swap(hole, index, child);
        ready := ready[index := childId];
        index := child;
      }
      SiftDownDone(rank, hole, index);
      ready := ready[index := last];
    }
  }
}
