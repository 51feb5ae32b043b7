/** Request data as an object graph, and the depth-first walk the copier makes over it. */
module ObjectGraph {

  /** A leaf a request may carry, a leaf it may not (function, symbol, bigint), or another container. */
  datatype Value = Scalar(bits: int) | Unsupported | Ref(o: Obj)

  datatype Prop = Prop(key: string, value: Value)

  datatype Shape = ArrayShape | RecordShape

  /** A container: `inert` tells whether its descriptors, prototype and brand pass inspection. */
  class Obj {
    const shape: Shape
    const inert: bool
    var props: seq<Prop>
    var frozen: bool

    constructor (shape: Shape)
      ensures this.shape == shape && inert && props == [] && !frozen
    {
      this.shape := shape;
      inert := true;
      props := [];
      frozen := false;
    }
  }

  /** The properties of every object of the finite heap the walk may meet. */
  type Heap = map<Obj, seq<Prop>>

  ghost predicate Closed(h: Heap) {
    forall o, k {:trigger h[o][k]} :: o in h && 0 <= k < |h[o]| && h[o][k].value.Ref? ==> h[o][k].value.o in h
  }

  ghost predicate Child(h: Heap, o: Obj, c: Obj) {
    o in h && exists k {:trigger h[o][k]} :: 0 <= k < |h[o]| && h[o][k].value == Ref(c)
  }

  ghost predicate Step(h: Heap, p: seq<Obj>, i: nat) {
    0 < i < |p| ==> Child(h, p[i-1], p[i])
  }

  ghost predicate Walk(h: Heap, p: seq<Obj>) {
    forall i: nat :: Step(h, p, i)
  }

  ghost predicate WalkFrom(h: Heap, older p: seq<Obj>, a: Obj, b: Obj) {
    && p != [] && p[0] == a && p[|p|-1] == b && Walk(h, p)
    && forall i :: 0 <= i < |p| - 1 ==> p[i] in h
  }

  ghost predicate Reach(h: Heap, a: Obj, b: Obj) {
    exists p :: WalkFrom(h, p, a, b)
  }

  /** `o` reaches itself along at least one property. */
  ghost predicate OnCycle(h: Heap, o: Obj) {
    exists p :: WalkFrom(h, p, o, o) && |p| >= 2
  }

  ghost predicate Supported(ps: seq<Prop>) {
    forall k :: 0 <= k < |ps| ==> !ps[k].value.Unsupported?
  }

  /** The inputs the copier promises to accept: nothing reachable is foreign, unsupported or cyclic. */
  ghost predicate Copyable(h: Heap, root: Obj) {
    forall o :: o in h && Reach(h, root, o) ==> o.inert && Supported(h[o]) && !OnCycle(h, o)
  }

  lemma ReachSelf(h: Heap, a: Obj)
    ensures Reach(h, a, a)
  {
    assert WalkFrom(h, [a], a, a);
  }

  lemma ReachChild(h: Heap, a: Obj, b: Obj, c: Obj)
    requires Reach(h, a, b) && Child(h, b, c)
    ensures Reach(h, a, c)
  {
    var p :| WalkFrom(h, p, a, b);
    WalkExtends(h, p, a, b, c);
  }

  lemma WalkExtends(h: Heap, p: seq<Obj>, a: Obj, b: Obj, c: Obj)
    requires WalkFrom(h, p, a, b) && Child(h, b, c)
    ensures WalkFrom(h, p + [c], a, c)
  {
    var q := p + [c];
    forall i: nat ensures Step(h, q, i) {
      assert Step(h, p, i);
    }
  }

  // The walk: a stack of frames over sources still being copied, and the sources finished so far.

  datatype Frame = Frame(source: Obj, target: Obj, next: nat)

  ghost predicate OnStack(frames: seq<Frame>, o: Obj) {
    exists i {:trigger frames[i]} :: 0 <= i < |frames| && frames[i].source == o
  }

  /** Each frame is below the one its last property opened; no source is open twice. */
  ghost predicate Stacked(h: Heap, frames: seq<Frame>) {
    && (forall i {:trigger frames[i]} :: 0 <= i < |frames| ==> frames[i].source in h && frames[i].next <= |h[frames[i].source]|)
    && (forall i, j {:trigger frames[i], frames[j]} :: 0 <= i < j < |frames| ==> frames[i].source != frames[j].source)
    && (forall i: nat :: Opened(h, frames, i))
  }

  /** Frame `i` was opened by the property its parent frame passed last. */
  ghost predicate Opened(h: Heap, frames: seq<Frame>, i: nat) {
    0 < i < |frames| ==>
      && frames[i-1].source in h && 0 < frames[i-1].next <= |h[frames[i-1].source]|
      && h[frames[i-1].source][frames[i-1].next - 1].value == Ref(frames[i].source)
  }

  ghost predicate Settled(v: Value, done: seq<Obj>) {
    v.Scalar? || (v.Ref? && v.o in done)
  }

  /** The properties a frame has passed are settled, except the one whose frame is open above it. */
  ghost predicate Passed(h: Heap, frames: seq<Frame>, done: seq<Obj>) {
    forall i, k {:trigger h[frames[i].source][k]} ::
      (&& 0 <= i < |frames| && frames[i].source in h && 0 <= k < frames[i].next && k < |h[frames[i].source]|
       && (i == |frames| - 1 || k < frames[i].next - 1)) ==> Settled(h[frames[i].source][k].value, done)
  }

  /** Finished sources come after everything they hold, and are fit to copy. */
  ghost predicate Finished(h: Heap, done: seq<Obj>) {
    && (forall j :: 0 <= j < |done| ==> done[j] in h && done[j].inert)
    && (forall i, j :: 0 <= i < j < |done| ==> done[i] != done[j])
    && (forall j, k {:trigger h[done[j]][k]} ::
          0 <= j < |done| && done[j] in h && 0 <= k < |h[done[j]]| ==> Settled(h[done[j]][k].value, done[..j]))
  }

  ghost predicate Fit(h: Heap, root: Obj, frames: seq<Frame>, done: seq<Obj>) {
    && (forall i {:trigger frames[i]} :: 0 <= i < |frames| ==> frames[i].source.inert)
    && (forall i :: 0 <= i < |done| ==> Reach(h, root, done[i]) && !OnStack(frames, done[i]))
    && (frames != [] ==> frames[0].source == root)
    && (frames == [] ==> root in done)
  }

  ghost predicate DfsInv(h: Heap, root: Obj, frames: seq<Frame>, done: seq<Obj>) {
    Stacked(h, frames) && Passed(h, frames, done) && Finished(h, done) && Fit(h, root, frames, done)
  }

  /** The open sources form a walk, so each is reachable and each reaches those above it. */
  lemma {:induction false} StackWalk(h: Heap, frames: seq<Frame>, i: nat, j: nat) returns (p: seq<Obj>)
    requires Stacked(h, frames) && i <= j < |frames|
    ensures WalkFrom(h, p, frames[i].source, frames[j].source) && |p| == j - i + 1
  {
    if i == j {
      p := [frames[i].source];
    } else {
      var q := StackWalk(h, frames, i, j - 1);
      p := q + [frames[j].source];
      assert Opened(h, frames, j);
      WalkExtends(h, q, frames[i].source, frames[j-1].source, frames[j].source);
    }
  }

  lemma StackReach(h: Heap, root: Obj, frames: seq<Frame>, done: seq<Obj>, i: nat)
    requires Stacked(h, frames) && Fit(h, root, frames, done) && i < |frames|
    ensures Reach(h, root, frames[i].source)
  {
    var p := StackWalk(h, frames, 0, i);
  }

  /** Meeting an open source again closes a cycle. */
  lemma ActiveChildIsCycle(h: Heap, frames: seq<Frame>, i: nat, c: Obj)
    requires Stacked(h, frames) && i < |frames| && frames[i].source == c
    requires Child(h, frames[|frames|-1].source, c)
    ensures OnCycle(h, c)
  {
    var p := StackWalk(h, frames, i, |frames| - 1);
    WalkExtends(h, p, c, frames[|frames|-1].source, c);
  }

  ghost predicate Top(frames: seq<Frame>, f: Frame) {
    frames != [] && frames[|frames|-1] == f
  }

  /** All properties of the top frame have been passed: its source is finished. */
  lemma PopStep(h: Heap, root: Obj, frames: seq<Frame>, done: seq<Obj>, f: Frame)
    requires DfsInv(h, root, frames, done) && Top(frames, f) && f.next == |h[f.source]|
    ensures DfsInv(h, root, frames[..|frames|-1], done + [f.source])
  {
    var n := |frames| - 1;
    var rest, more := frames[..n], done + [f.source];
    StackReach(h, root, frames, done, n);
    assert f.source !in done;
    assert Stacked(h, rest) by {
      forall i: nat ensures Opened(h, rest, i) { assert Opened(h, frames, i); }
    }
    PopPassed(h, frames, done, f);
    PopFinished(h, frames, done, f);
  }

  lemma PopPassed(h: Heap, frames: seq<Frame>, done: seq<Obj>, f: Frame)
    requires Stacked(h, frames) && Passed(h, frames, done) && Top(frames, f)
    ensures Passed(h, frames[..|frames|-1], done + [f.source])
  {
    var n := |frames| - 1;
    var rest, more := frames[..n], done + [f.source];
    assert Opened(h, frames, n);
    forall i, k | 0 <= i < n && rest[i].source in h && 0 <= k < rest[i].next && k < |h[rest[i].source]| && (i == n - 1 || k < rest[i].next - 1)
      ensures Settled(h[rest[i].source][k].value, more)
    {
      assert rest[i] == frames[i];
      if k < frames[i].next - 1 { assert Settled(h[frames[i].source][k].value, done); }
    }
  }

  lemma PopFinished(h: Heap, frames: seq<Frame>, done: seq<Obj>, f: Frame)
    requires Passed(h, frames, done) && Finished(h, done) && Top(frames, f)
    requires f.source in h && f.source.inert && f.source !in done && f.next == |h[f.source]|
    ensures Finished(h, done + [f.source])
  {
    var n, more := |frames| - 1, done + [f.source];
    forall j, k | 0 <= j < |more| && more[j] in h && 0 <= k < |h[more[j]]| ensures Settled(h[more[j]][k].value, more[..j]) {
      if j < |done| {
        assert Settled(h[done[j]][k].value, done[..j]) && more[..j] == done[..j];
      } else {
        assert Settled(h[frames[n].source][k].value, done) && more[..j] == done;
      }
    }
  }

  /** The top frame passes a property that needs no new frame. */
  lemma PassStep(h: Heap, root: Obj, frames: seq<Frame>, done: seq<Obj>, f: Frame)
    requires DfsInv(h, root, frames, done) && Top(frames, f) && f.next < |h[f.source]|
    requires Settled(h[f.source][f.next].value, done)
    ensures DfsInv(h, root, frames[|frames|-1 := f.(next := f.next + 1)], done)
  {
    var n := |frames| - 1;
    var r := frames[n := f.(next := f.next + 1)];
    forall i: nat ensures Opened(h, r, i) { assert Opened(h, frames, i); }
    forall i, k | 0 <= i <= n && r[i].source in h && 0 <= k < r[i].next && k < |h[r[i].source]| && (i == n || k < r[i].next - 1)
      ensures Settled(h[r[i].source][k].value, done)
    {
      assert r[i].source == frames[i].source;
      if !(i == n && k == f.next) { assert Settled(h[frames[i].source][k].value, done); }
    }
    forall x | x in done ensures !OnStack(r, x) { StackSame(frames, r, x); }
  }

  lemma StackSame(a: seq<Frame>, b: seq<Frame>, x: Obj)
    requires |a| == |b| && forall i {:trigger b[i]} :: 0 <= i < |a| ==> a[i].source == b[i].source
    ensures OnStack(b, x) ==> OnStack(a, x)
  {
  }

  /** The top frame meets a new object and opens it. */
  lemma PushStep(h: Heap, root: Obj, frames: seq<Frame>, done: seq<Obj>, f: Frame, c: Obj, target: Obj)
    requires DfsInv(h, root, frames, done) && Top(frames, f) && f.next < |h[f.source]|
    requires h[f.source][f.next].value == Ref(c) && c in h && c.inert && c !in done && !OnStack(frames, c)
    ensures DfsInv(h, root, frames[|frames|-1 := f.(next := f.next + 1)] + [Frame(c, target, 0)], done)
  {
    var n := |frames| - 1;
    var r := frames[n := f.(next := f.next + 1)] + [Frame(c, target, 0)];
    forall i: nat ensures Opened(h, r, i) { assert Opened(h, frames, i); }
    forall i, k | 0 <= i < |r| && r[i].source in h && 0 <= k < r[i].next && k < |h[r[i].source]| && (i == |r| - 1 || k < r[i].next - 1)
      ensures Settled(h[r[i].source][k].value, done)
    {
      assert r[i].source == frames[i].source;
      assert Settled(h[frames[i].source][k].value, done);
    }
    assert forall i {:trigger frames[i]} :: 0 <= i < |frames| ==> frames[i].source != c;
    forall x | x in done ensures !OnStack(r, x) {
      forall i {:trigger r[i]} | 0 <= i < |r| ensures r[i].source != x {
        if i <= n { assert frames[i].source == r[i].source; }
      }
    }
  }

  /** Once finished sources hold only finished sources, a walk from one never leaves them. */
  lemma {:induction false} WalkStaysDone(h: Heap, done: seq<Obj>, p: seq<Obj>, j: nat, k: nat) returns (i: nat)
    requires Finished(h, done) && Walk(h, p) && k < |p| && j < |done| && p[0] == done[j]
    ensures i < |done| && done[i] == p[k] && (if k == 0 then i == j else i < j)
  {
    if k == 0 {
      i := j;
    } else {
      var m := WalkStaysDone(h, done, p, j, k - 1);
      assert Step(h, p, k) && Child(h, p[k-1], p[k]);
      var x :| 0 <= x < |h[p[k-1]]| && h[p[k-1]][x].value == Ref(p[k]);
      assert Settled(h[done[m]][x].value, done[..m]);
      i :| 0 <= i < m && done[..m][i] == p[k];
    }
  }

  /** When the stack is empty the finished sources are the reachable ones, and all are fit to copy. */
  lemma FinishedIsCopyable(h: Heap, root: Obj, done: seq<Obj>)
    requires DfsInv(h, root, [], done)
    ensures Copyable(h, root)
    ensures forall o :: o in h ==> (Reach(h, root, o) <==> o in done)
  {
    var j :| 0 <= j < |done| && done[j] == root;
    forall o | o in h && Reach(h, root, o) ensures o in done && o.inert && Supported(h[o]) && !OnCycle(h, o) {
      var p :| WalkFrom(h, p, root, o);
      var i := WalkStaysDone(h, done, p, j, |p| - 1);
      forall k | 0 <= k < |h[o]| ensures !h[o][k].value.Unsupported? { assert Settled(h[done[i]][k].value, done[..i]); }
      forall q | WalkFrom(h, q, o, o) ensures |q| < 2 {
        if |q| >= 2 {
          var m := WalkStaysDone(h, done, q, i, |q| - 1);
          assert false;
        }
      }
    }
  }
}
