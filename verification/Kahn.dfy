/** Kahn's algorithm over the ready heap. */
module Kahn {
  import opened Collections
  import opened Graph
  import opened ReadyHeap

  /** `n` is not placed and all its dependencies are. */
  ghost predicate Ready(g: Dag, placed: set<Id>, n: Id) {
    n in g.deps && n !in placed && g.deps[n] <= placed
  }

  /** `n` is the authored-least node that may be placed next. */
  ghost predicate LeastReady(g: Dag, placed: set<Id>, n: Id) {
    && n in g.authored && Ready(g, placed, n)
    && forall m :: Ready(g, placed, m) ==> m in g.authored && g.authored[n] <= g.authored[m]
  }

  /** Every step places the authored-least ready node, and it stops only when none is ready. */
  ghost predicate Greedy(g: Dag, order: seq<Id>) {
    && (forall k {:trigger order[..k]} :: 0 <= k < |order| ==> LeastReady(g, Elems(order[..k]), order[k]))
    && (forall n :: !Ready(g, Elems(order), n))
  }

  /** The dependencies each node still waits for; a consumer in `owed` has not yet been told of `last`. */
  ghost predicate Waiting(g: Dag, placed: set<Id>, last: Id, owed: set<Id>, w: map<Id, set<Id>>) {
    forall c {:trigger w[c]} {:trigger c in w} ::
      c in g.deps ==> c in w && WaitsFor(g.deps[c], placed, last, c in owed, w[c])
  }

  ghost predicate WaitsFor(deps: set<Id>, placed: set<Id>, last: Id, owed: bool, w: set<Id>) {
    forall d :: d in w <==> d in deps && (d !in placed || (owed && d == last))
  }

  /** `remaining` counts what is waited for. */
  ghost predicate Counted(g: Dag, w: map<Id, set<Id>>, remaining: map<Id, int>) {
    forall c {:trigger remaining[c]} {:trigger c in remaining} ::
      c in g.deps ==> c in w && c in remaining && remaining[c] == |w[c]|
  }

  /** The heap holds, once each, the ready nodes outside `owed`. */
  ghost predicate Holds(heap: BinaryHeap, g: Dag, placed: set<Id>, owed: set<Id>)
    reads heap
  {
    && heap.Valid() && heap.rank == g.authored
    && forall n {:trigger multiset(heap.ready)[n]} ::
         multiset(heap.ready)[n] == if Ready(g, placed, n) && n !in owed then 1 else 0
  }

  lemma ZeroMeansReady(g: Dag, placed: set<Id>, last: Id, w: set<Id>, c: Id)
    requires c in g.deps && c !in placed && WaitsFor(g.deps[c], placed, last, false, w)
    ensures Ready(g, placed, c) <==> |w| == 0
  {
  }

  method SeedReady(g: Dag, ghost any: Id, remaining: map<Id, int>, heap: BinaryHeap)
    requires Numbered(g) && SameNodes(g) && Waiting(g, {}, any, {}, g.deps) && Counted(g, g.deps, remaining)
    requires heap.Valid() && heap.rank == g.authored && heap.ready == []
    modifies heap
    ensures Holds(heap, g, {}, {})
  {
    for i := 0 to |g.nodes|
      invariant heap.Valid() && heap.rank == g.authored
      invariant forall n {:trigger multiset(heap.ready)[n]} ::
        multiset(heap.ready)[n] == if Ready(g, {}, n) && n in g.authored && g.authored[n] < i then 1 else 0
    {
      var id := g.nodes[i];
      ZeroMeansReady(g, {}, any, g.deps[id], id);
      if remaining[id] == 0 {
        heap.Push(id);
      }
    }
  }

  /** One consumer's decrement, and its push when nothing is left to wait for. */
  method Tell(g: Dag, ghost placed: set<Id>, ghost id: Id, ghost owed: set<Id>, consumer: Id,
              ghost w: map<Id, set<Id>>, remaining: map<Id, int>, heap: BinaryHeap)
    returns (left: map<Id, int>, ghost w': map<Id, set<Id>>)
    requires consumer in g.deps && consumer in g.authored && id in g.deps[consumer] && id in placed
    requires consumer in owed && consumer !in placed
    requires Waiting(g, placed, id, owed, w) && Counted(g, w, remaining)
    requires Holds(heap, g, placed, owed)
    modifies heap
    ensures Waiting(g, placed, id, owed - {consumer}, w') && Counted(g, w', left)
    ensures Holds(heap, g, placed, owed - {consumer})
  {
    var next := remaining[consumer] - 1;
    left := remaining[consumer := next];
    w' := w[consumer := w[consumer] - {id}];
    ZeroMeansReady(g, placed, id, w'[consumer], consumer);
    if next == 0 {
      heap.Push(consumer);
    }
  }

  /** The inner loop: the consumers are visited in any order, each exactly once. */
  method Release(g: Dag, ghost placed: set<Id>, id: Id, ghost w: map<Id, set<Id>>, remaining: map<Id, int>, heap: BinaryHeap)
    returns (left: map<Id, int>, ghost w': map<Id, set<Id>>)
    requires id in g.outs && id in placed
    requires forall c :: c in g.outs[id] ==> c !in placed && c in g.deps && c in g.authored && id in g.deps[c]
    requires Waiting(g, placed, id, g.outs[id], w) && Counted(g, w, remaining)
    requires Holds(heap, g, placed, g.outs[id])
    modifies heap
    ensures Waiting(g, placed, id, {}, w') && Counted(g, w', left)
    ensures Holds(heap, g, placed, {})
  {
    left, w' := remaining, w;
    var owed := g.outs[id];
    while owed != {}
      invariant owed <= g.outs[id]
      invariant Waiting(g, placed, id, owed, w') && Counted(g, w', left)
      invariant Holds(heap, g, placed, owed)
      decreases owed
    {
      var consumer :| consumer in owed;
      left, w' := Tell(g, placed, id, owed, consumer, w', left, heap);
      owed := owed - {consumer};
    }
  }

  lemma PlacedOne(g: Dag, placed: set<Id>, id: Id, any: Id, w: map<Id, set<Id>>)
    requires SameNodes(g) && Symmetric(g) && Ready(g, placed, id) && Waiting(g, placed, any, {}, w)
    ensures Waiting(g, placed + {id}, id, g.outs[id], w)
  {
  }

  /** Only consumers of `id` become ready when it is placed. */
  lemma OthersUnchanged(g: Dag, placed: set<Id>, id: Id, n: Id)
    requires SameNodes(g) && Symmetric(g) && Ready(g, placed, id)
    ensures Ready(g, placed, n) && n != id <==> Ready(g, placed + {id}, n) && n !in g.outs[id]
  {
  }

  /** Placed nodes have only placed dependencies. */
  ghost predicate Closed(g: Dag, placed: set<Id>) {
    forall n :: n in placed ==> n in g.deps && g.deps[n] <= placed
  }

  method PopReady(g: Dag, heap: BinaryHeap, ghost placed: set<Id>) returns (id: Id)
    requires SameNodes(g) && Symmetric(g) && Holds(heap, g, placed, {}) && heap.ready != []
    modifies heap
    ensures LeastReady(g, placed, id)
    ensures id in g.outs && Holds(heap, g, placed + {id}, g.outs[id])
  {
    ghost var was := multiset(heap.ready);
    id := heap.Pop();
    assert was[id] == multiset(heap.ready)[id] + 1;
    assert Ready(g, placed, id);
    forall m | Ready(g, placed, m) ensures m in g.authored && g.authored[id] <= g.authored[m] {
      assert was[m] == 1;
      if m != id { assert multiset(heap.ready)[m] == 1; assert m in heap.ready; }
    }
    forall n ensures multiset(heap.ready)[n] == if Ready(g, placed + {id}, n) && n !in g.outs[id] then 1 else 0 {
      OthersUnchanged(g, placed, id, n);
      assert was[n] == if Ready(g, placed, n) then 1 else 0;
    }
  }

  method Emit(g: Dag, ghost placed: set<Id>, ghost any: Id, ghost w: map<Id, set<Id>>, remaining: map<Id, int>, heap: BinaryHeap)
    returns (id: Id, left: map<Id, int>, ghost w': map<Id, set<Id>>)
    requires SameNodes(g) && Symmetric(g) && Closed(g, placed) && heap.ready != []
    requires Waiting(g, placed, any, {}, w) && Counted(g, w, remaining)
    requires Holds(heap, g, placed, {})
    modifies heap
    ensures LeastReady(g, placed, id)
    ensures Closed(g, placed + {id})
    ensures Waiting(g, placed + {id}, id, {}, w') && Counted(g, w', left)
    ensures Holds(heap, g, placed + {id}, {})
  {
    id := PopReady(g, heap, placed);
    PlacedOne(g, placed, id, any, w);
    left, w' := Release(g, placed + {id}, id, w, remaining, heap);
  }

  lemma PrefixStep(order: seq<Id>, id: Id)
    ensures Elems(order + [id]) == Elems(order) + {id}
    ensures forall k :: 0 <= k <= |order| ==> (order + [id])[..k] == order[..k]
  {
  }

  method Order(g: Dag) returns (order: seq<Id>)
    requires Wired(g)
    ensures Greedy(g, order)
  {
    var remaining: map<Id, int> := map n | n in g.deps :: |g.deps[n]|;
    var heap := new BinaryHeap(g.authored);
    ghost var w, any, placed: set<Id> := g.deps, Id(""), {};
    SeedReady(g, any, remaining, heap);
    order := [];
    while heap.ready != []
      invariant placed == Elems(order) && Closed(g, placed)
      invariant forall k {:trigger order[..k]} :: 0 <= k < |order| ==> LeastReady(g, Elems(order[..k]), order[k])
      invariant Waiting(g, placed, any, {}, w) && Counted(g, w, remaining)
      invariant Holds(heap, g, placed, {})
      decreases g.deps.Keys - placed
    {
      var id;
      id, remaining, w := Emit(g, placed, any, w, remaining, heap);
      any := id;
      PrefixStep(order, id);
      order := order + [id];
      placed := placed + {id};
    }
    forall n ensures !Ready(g, Elems(order), n) {
      assert multiset(heap.ready)[n] == 0;
    }
  }
}
