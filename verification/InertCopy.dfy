/** The copier: a stack of frames over the sources being copied, with a memo from each source to its copy. */
module InertCopy {
  import opened ObjectGraph

  datatype Outcome = Copied(value: Value) | Refused

  /** `w` is the image of `v`: scalars are kept, a container becomes its one copy. */
  ghost predicate Image(memo: map<Obj, Obj>, v: Value, w: Value) {
    match v
    case Scalar(_) => w == v
    case Unsupported => false
    case Ref(c) => c in memo && w == Ref(memo[c])
  }

  /** `qs` is the copy of the first `|qs|` properties of `ps`: same keys, image values. */
  ghost predicate CopyOf(memo: map<Obj, Obj>, ps: seq<Prop>, qs: seq<Prop>) {
    && |qs| <= |ps|
    && forall k :: 0 <= k < |qs| ==> qs[k].key == ps[k].key && Image(memo, ps[k].value, qs[k].value)
  }

  ghost predicate Injective(memo: map<Obj, Obj>) {
    forall a, b {:trigger memo[a], memo[b]} :: a in memo && b in memo && a != b ==> memo[a] != memo[b]
  }

  /** Each copy holds what `built` says, and has its source's shape. */
  ghost predicate Mirrors(memo: map<Obj, Obj>, built: map<Obj, seq<Prop>>)
    reads memo.Values
  {
    forall o {:trigger memo[o]} :: o in memo ==>
      o in built && memo[o].props == built[o] && memo[o].shape == o.shape
  }

  ghost predicate AllCopies(h: Heap, memo: map<Obj, Obj>, built: map<Obj, seq<Prop>>) {
    forall o {:trigger built[o]} {:trigger o in memo} :: o in memo ==> o in h && o in built && CopyOf(memo, h[o], built[o])
  }

  /** Memo and active set agree with the walk, and each open copy is as long as its frame says. */
  ghost predicate Tracks(h: Heap, frames: seq<Frame>, done: seq<Obj>, memo: map<Obj, Obj>, built: map<Obj, seq<Prop>>) {
    && (forall o {:trigger o in memo} :: o in memo ==> OnStack(frames, o) || o in done)
    && (forall i {:trigger frames[i]} :: 0 <= i < |frames| ==>
          && frames[i].source in memo && frames[i].source in built
          && frames[i].target == memo[frames[i].source] && |built[frames[i].source]| == frames[i].next)
    && (forall i :: 0 <= i < |done| ==> done[i] in memo && done[i] in h && done[i] in built && |built[done[i]]| == |h[done[i]]|)
  }

  /** Extends one open copy by one property, whose image the memo already knows. */
  lemma CopyExtends(h: Heap, memo: map<Obj, Obj>, built: map<Obj, seq<Prop>>, o: Obj, q: Prop)
    requires AllCopies(h, memo, built) && o in memo && o in h && o in built && |built[o]| < |h[o]|
    requires q.key == h[o][|built[o]|].key && Image(memo, h[o][|built[o]|].value, q.value)
    ensures AllCopies(h, memo, built[o := built[o] + [q]])
  {
  }

  /** Registers a fresh empty copy. */
  lemma CopyRegistered(h: Heap, memo: map<Obj, Obj>, built: map<Obj, seq<Prop>>, c: Obj, t: Obj)
    requires AllCopies(h, memo, built) && c !in memo && c in h
    ensures AllCopies(h, memo[c := t], built[c := []])
  {
  }

  lemma PopTracks(h: Heap, frames: seq<Frame>, done: seq<Obj>, memo: map<Obj, Obj>, built: map<Obj, seq<Prop>>)
    requires Tracks(h, frames, done, memo, built) && frames != []
    requires var f := frames[|frames|-1]; f.source in h && f.next == |h[f.source]|
    ensures Tracks(h, frames[..|frames|-1], done + [frames[|frames|-1].source], memo, built)
  {
  }

  lemma PassTracks(h: Heap, frames: seq<Frame>, done: seq<Obj>, memo: map<Obj, Obj>, built: map<Obj, seq<Prop>>, q: Prop)
    requires Tracks(h, frames, done, memo, built) && frames != [] && Stacked(h, frames)
    requires forall i :: 0 <= i < |done| ==> done[i] != frames[|frames|-1].source
    ensures var f := frames[|frames|-1];
            Tracks(h, frames[|frames|-1 := f.(next := f.next + 1)], done, memo, built[f.source := built[f.source] + [q]])
  {
    var n := |frames| - 1;
    var f := frames[n];
    var r := frames[n := f.(next := f.next + 1)];
    forall o | o in memo ensures OnStack(r, o) || o in done {
      StackSame(r, frames, o);
    }
    assert forall i {:trigger frames[i]} :: 0 <= i < n ==> frames[i].source != frames[n].source;
  }

  lemma PushTracks(h: Heap, frames: seq<Frame>, done: seq<Obj>, memo: map<Obj, Obj>, built: map<Obj, seq<Prop>>, c: Obj, t: Obj)
    requires Tracks(h, frames, done, memo, built) && c !in memo
    ensures Tracks(h, frames + [Frame(c, t, 0)], done, memo[c := t], built[c := []])
  {
    var r := frames + [Frame(c, t, 0)];
    forall o | o in memo[c := t] ensures OnStack(r, o) || o in done {
      if o == c {
        assert r[|frames|].source == c;
      } else if OnStack(frames, o) {
        var i :| 0 <= i < |frames| && frames[i].source == o;
        assert r[i].source == o;
      }
    }
    forall i {:trigger r[i]} | 0 <= i < |r|
      ensures r[i].source in memo[c := t] && r[i].target == memo[c := t][r[i].source]
      ensures r[i].source in built[c := []] && |built[c := []][r[i].source]| == r[i].next
    {
      if i < |frames| { assert frames[i].source in memo; }
    }
    forall i | 0 <= i < |done| ensures done[i] in built[c := []] && |built[c := []][done[i]]| == |h[done[i]]| {
      assert done[i] in memo;
    }
  }

  /** The active set is the set of open sources. */
  ghost predicate Active(h: Heap, frames: seq<Frame>, active: set<Obj>) {
    forall o {:trigger o in active} :: o in h ==> (o in active <==> OnStack(frames, o))
  }

  /** Copies are new objects, one per source. */
  ghost predicate Separate(h: Heap, memo: map<Obj, Obj>) {
    Injective(memo) && forall o {:trigger memo[o]} :: o in memo ==> memo[o] !in h
  }

  ghost predicate Intact(h: Heap)
    reads h.Keys
  {
    forall o {:trigger h[o]} :: o in h ==> o.props == h[o]
  }

  /** The part of the invariant that does not read the heap. */
  ghost predicate Logical(h: Heap, root: Obj, frames: seq<Frame>, done: seq<Obj>, active: set<Obj>,
                          memo: map<Obj, Obj>, built: map<Obj, seq<Prop>>) {
    && DfsInv(h, root, frames, done) && Active(h, frames, active)
    && Tracks(h, frames, done, memo, built) && Separate(h, memo) && AllCopies(h, memo, built)
  }

  /** Everything the loop keeps. */
  ghost predicate CopyInv(h: Heap, root: Obj, freeze: bool, frames: seq<Frame>, done: seq<Obj>, active: set<Obj>,
                          memo: map<Obj, Obj>, built: map<Obj, seq<Prop>>)
    reads h.Keys, memo.Values
  {
    && Intact(h) && Logical(h, root, frames, done, active, memo, built)
    && Mirrors(memo, built) && FrozenWhenDone(freeze, frames, done, memo)
  }

  /** Open copies are writable; finished ones are frozen when freezing was asked for. */
  ghost predicate FrozenWhenDone(freeze: bool, frames: seq<Frame>, done: seq<Obj>, memo: map<Obj, Obj>)
    reads memo.Values
  {
    && (forall i :: 0 <= i < |done| ==> done[i] in memo && memo[done[i]].frozen == freeze)
    && (forall i {:trigger frames[i]} :: 0 <= i < |frames| ==> frames[i].source in memo && !memo[frames[i].source].frozen)
  }

  /** A finished frame: freeze its copy and close it. */
  method CloseFrame(ghost h: Heap, ghost root: Obj, freeze: bool, frames: seq<Frame>, ghost done: seq<Obj>, active: set<Obj>,
                    memo: map<Obj, Obj>, ghost built: map<Obj, seq<Prop>>)
    returns (frames': seq<Frame>, ghost done': seq<Obj>, active': set<Obj>)
    requires CopyInv(h, root, freeze, frames, done, active, memo, built)
    requires frames != [] && frames[|frames|-1].next == |h[frames[|frames|-1].source]|
    modifies memo.Values
    ensures CopyInv(h, root, freeze, frames', done', active', memo, built)
    ensures |frames'| == |frames| - 1
  {
    var n := |frames| - 1;
    var frame := frames[n];
    PopLogical(h, root, frames, done, active, memo, built);
    if freeze {
      frame.target.frozen := true;
    }
    active' := active - {frame.source};
    frames', done' := frames[..n], done + [frame.source];
  }

  lemma PopLogical(h: Heap, root: Obj, frames: seq<Frame>, done: seq<Obj>, active: set<Obj>,
                   memo: map<Obj, Obj>, built: map<Obj, seq<Prop>>)
    requires Logical(h, root, frames, done, active, memo, built)
    requires frames != [] && frames[|frames|-1].next == |h[frames[|frames|-1].source]|
    ensures var f := frames[|frames|-1];
            Logical(h, root, frames[..|frames|-1], done + [f.source], active - {f.source}, memo, built)
  {
    var n := |frames| - 1;
    var f, rest := frames[n], frames[..n];
    PopStep(h, root, frames, done, f);
    PopTracks(h, frames, done, memo, built);
    forall o | o in h ensures o in active - {f.source} <==> OnStack(rest, o) {
      if OnStack(rest, o) {
        var i :| 0 <= i < |rest| && rest[i].source == o;
        assert frames[i].source == o;
      }
      if OnStack(frames, o) && o != f.source {
        var i :| 0 <= i < |frames| && frames[i].source == o;
        assert rest[i].source == o;
      }
    }
  }

  /** Properties the top frame has still to pass. */
  ghost function Left(h: Heap, frames: seq<Frame>): nat {
    if frames == [] then 0
    else
      var f := frames[|frames|-1];
      if f.source in h && f.next <= |h[f.source]| then |h[f.source]| - f.next else 0
  }

  /** A turn discovers an object, or else closes a frame or passes a property. */
  ghost predicate Progress(h: Heap, frames: seq<Frame>, memo: map<Obj, Obj>, frames': seq<Frame>, memo': map<Obj, Obj>) {
    || h.Keys - memo'.Keys < h.Keys - memo.Keys
    || (memo' == memo && |frames'| < |frames|)
    || (memo' == memo && |frames'| == |frames| && Left(h, frames') < Left(h, frames))
  }

  lemma PassProgress(h: Heap, frames: seq<Frame>, memo: map<Obj, Obj>, f: Frame)
    requires frames != [] && f == frames[|frames|-1] && f.source in h && f.next < |h[f.source]|
    ensures Progress(h, frames, memo, frames[|frames|-1 := f.(next := f.next + 1)], memo)
  {
  }

  /** The top frame defines one property whose value needs no new frame. */
  method DefineProperty(ghost h: Heap, ghost root: Obj, ghost freeze: bool, frames: seq<Frame>, ghost done: seq<Obj>,
                        ghost active: set<Obj>, memo: map<Obj, Obj>, ghost built: map<Obj, seq<Prop>>, key: string, copied: Value)
    returns (frames': seq<Frame>, ghost built': map<Obj, seq<Prop>>)
    requires CopyInv(h, root, freeze, frames, done, active, memo, built)
    requires frames != []
    requires var f := frames[|frames|-1];
             && f.next < |h[f.source]| && Settled(h[f.source][f.next].value, done)
             && key == h[f.source][f.next].key && Image(memo, h[f.source][f.next].value, copied)
    modifies memo.Values
    ensures CopyInv(h, root, freeze, frames', done, active, memo, built')
    ensures Progress(h, frames, memo, frames', memo)
  {
    var n := |frames| - 1;
    var frame := frames[n];
    var q := Prop(key, copied);
    PassProgress(h, frames, memo, frame);
    PassLogical(h, root, frames, done, active, memo, built, q);
    PassFrozen(freeze, frames, done, memo, frame.(next := frame.next + 1));
    frames' := frames[n := frame.(next := frame.next + 1)];
    Append(h, memo, built, frame.source, frame.target, q);
    built' := built[frame.source := built[frame.source] + [q]];
  }

  /** Adds one property to the open copy of `source`. */
  method Append(ghost h: Heap, memo: map<Obj, Obj>, ghost built: map<Obj, seq<Prop>>, ghost source: Obj, target: Obj, q: Prop)
    requires Intact(h) && target !in h
    requires Mirrors(memo, built) && Injective(memo) && source in memo && memo[source] == target
    modifies target
    ensures Intact(h) && Mirrors(memo, built[source := built[source] + [q]])
    ensures target.frozen == old(target.frozen)
  {
    target.props := target.props + [q];
  }

  lemma PassFrozen(freeze: bool, frames: seq<Frame>, done: seq<Obj>, memo: map<Obj, Obj>, f: Frame)
    requires FrozenWhenDone(freeze, frames, done, memo) && frames != [] && f.source == frames[|frames|-1].source
    ensures FrozenWhenDone(freeze, frames[|frames|-1 := f], done, memo)
  {
  }

  lemma PassLogical(h: Heap, root: Obj, frames: seq<Frame>, done: seq<Obj>, active: set<Obj>,
                    memo: map<Obj, Obj>, built: map<Obj, seq<Prop>>, q: Prop)
    requires Logical(h, root, frames, done, active, memo, built) && frames != []
    requires var f := frames[|frames|-1];
             && f.next < |h[f.source]| && Settled(h[f.source][f.next].value, done)
             && q.key == h[f.source][f.next].key && Image(memo, h[f.source][f.next].value, q.value)
    ensures var f := frames[|frames|-1];
            Logical(h, root, frames[|frames|-1 := f.(next := f.next + 1)], done, active, memo,
                    built[f.source := built[f.source] + [q]])
  {
    var n := |frames| - 1;
    PassStep(h, root, frames, done, frames[n]);
    assert forall i :: 0 <= i < |done| ==> done[i] != frames[n].source;
    PassTracks(h, frames, done, memo, built, q);
    CopyExtends(h, memo, built, frames[n].source, q);
    StackKeepsActive(h, frames, frames[n := frames[n].(next := frames[n].next + 1)], active);
  }

  lemma StackKeepsActive(h: Heap, frames: seq<Frame>, r: seq<Frame>, active: set<Obj>)
    requires Active(h, frames, active) && |r| == |frames|
    requires forall i {:trigger r[i]} {:trigger frames[i]} :: 0 <= i < |r| ==> r[i].source == frames[i].source
    ensures Active(h, r, active)
  {
  }

  lemma OpenActive(h: Heap, frames: seq<Frame>, active: set<Obj>, c: Obj, t: Obj)
    requires Active(h, frames, active)
    ensures Active(h, frames + [Frame(c, t, 0)], active + {c})
  {
    var r := frames + [Frame(c, t, 0)];
    forall o | o in h ensures o in active + {c} <==> OnStack(r, o) {
      if OnStack(frames, o) {
        var i :| 0 <= i < |frames| && frames[i].source == o;
        assert r[i].source == o;
      }
      if OnStack(r, o) {
        var i :| 0 <= i < |r| && r[i].source == o;
        if i < |frames| { assert frames[i].source == o; }
      }
      if o == c { assert r[|frames|].source == c; }
    }
  }

  lemma OpenLogical(h: Heap, root: Obj, frames: seq<Frame>, done: seq<Obj>, active: set<Obj>,
                    memo: map<Obj, Obj>, built: map<Obj, seq<Prop>>, c: Obj, t: Obj, q: Prop)
    requires Logical(h, root, frames, done, active, memo, built) && frames != []
    requires var f := frames[|frames|-1];
             && f.next < |h[f.source]| && h[f.source][f.next].value == Ref(c) && q == Prop(h[f.source][f.next].key, Ref(t))
    requires c in h && c.inert && c !in memo && t !in h && forall o :: o in memo ==> memo[o] != t
    ensures var f := frames[|frames|-1];
            Logical(h, root, frames[|frames|-1 := f.(next := f.next + 1)] + [Frame(c, t, 0)], done, active + {c},
                    memo[c := t], built[f.source := built[f.source] + [q]][c := []])
  {
    var n := |frames| - 1;
    var f := frames[n];
    assert c !in done && !OnStack(frames, c) by {
      forall i {:trigger frames[i]} | 0 <= i < |frames| ensures frames[i].source != c { assert frames[i].source in memo; }
    }
    PushStep(h, root, frames, done, f, c, t);
    assert forall i :: 0 <= i < |done| ==> done[i] != f.source;
    OpenTracks(h, frames, done, memo, built, c, t, q);
    StackKeepsActive(h, frames, frames[n := f.(next := f.next + 1)], active);
    OpenActive(h, frames[n := f.(next := f.next + 1)], active, c, t);
    OpenCopies(h, memo, built, f.source, c, t, q);
  }

  lemma OpenTracks(h: Heap, frames: seq<Frame>, done: seq<Obj>, memo: map<Obj, Obj>, built: map<Obj, seq<Prop>>, c: Obj, t: Obj, q: Prop)
    requires Tracks(h, frames, done, memo, built) && frames != [] && Stacked(h, frames) && c !in memo
    requires forall i :: 0 <= i < |done| ==> done[i] != frames[|frames|-1].source
    ensures var f := frames[|frames|-1];
            Tracks(h, frames[|frames|-1 := f.(next := f.next + 1)] + [Frame(c, t, 0)], done, memo[c := t],
                   built[f.source := built[f.source] + [q]][c := []])
  {
    var f := frames[|frames|-1];
    PassTracks(h, frames, done, memo, built, q);
    PushTracks(h, frames[|frames|-1 := f.(next := f.next + 1)], done, memo, built[f.source := built[f.source] + [q]], c, t);
  }

  lemma OpenCopies(h: Heap, memo: map<Obj, Obj>, built: map<Obj, seq<Prop>>, o: Obj, c: Obj, t: Obj, q: Prop)
    requires AllCopies(h, memo, built) && c !in memo && c in h && o in memo && o in h && o in built && |built[o]| < |h[o]|
    requires h[o][|built[o]|].value == Ref(c) && q == Prop(h[o][|built[o]|].key, Ref(t))
    ensures AllCopies(h, memo[c := t], built[o := built[o] + [q]][c := []])
  {
    CopyRegistered(h, memo, built, c, t);
    CopyExtends(h, memo[c := t], built[c := []], o, q);
    assert built[c := []][o := built[o] + [q]] == built[o := built[o] + [q]][c := []];
  }

  /** Allocates the child's copy and defines it as a property of the open copy of `source`. */
  method Attach(ghost h: Heap, memo: map<Obj, Obj>, ghost built: map<Obj, seq<Prop>>, ghost source: Obj, target: Obj, key: string, child: Obj)
    returns (copied: Obj)
    requires Intact(h) && target !in h
    requires Mirrors(memo, built) && Injective(memo) && source in memo && memo[source] == target && child !in memo
    modifies target
    ensures Intact(h) && fresh(copied) && !copied.frozen
    ensures Mirrors(memo[child := copied], built[source := built[source] + [Prop(key, Ref(copied))]][child := []])
    ensures target.frozen == old(target.frozen)
  {
    copied := new Obj(child.shape);
    target.props := target.props + [Prop(key, Ref(copied))];
  }

  lemma OpenFrozen(freeze: bool, frames: seq<Frame>, done: seq<Obj>, memo: map<Obj, Obj>, f: Frame, c: Obj, t: Obj)
    requires FrozenWhenDone(freeze, frames, done, memo) && frames != [] && c !in memo && !t.frozen
    requires f.source == frames[|frames|-1].source
    ensures FrozenWhenDone(freeze, frames[|frames|-1 := f] + [Frame(c, t, 0)], done, memo[c := t])
  {
  }

  /** The top frame meets an object for the first time: allocate its copy, define the property, open a frame. */
  method OpenFrame(ghost h: Heap, ghost root: Obj, ghost freeze: bool, frames: seq<Frame>, ghost done: seq<Obj>, active: set<Obj>,
                   memo: map<Obj, Obj>, ghost built: map<Obj, seq<Prop>>, key: string, child: Obj)
    returns (frames': seq<Frame>, active': set<Obj>, memo': map<Obj, Obj>, ghost built': map<Obj, seq<Prop>>)
    requires CopyInv(h, root, freeze, frames, done, active, memo, built) && frames != []
    requires var f := frames[|frames|-1];
             f.next < |h[f.source]| && h[f.source][f.next] == Prop(key, Ref(child))
    requires child in h && child.inert && child !in memo
    modifies memo.Values
    ensures CopyInv(h, root, freeze, frames', done, active', memo', built')
    ensures forall o :: o in memo ==> o in memo' && memo'[o] == memo[o]
    ensures forall t :: t in memo'.Values ==> t in memo.Values || fresh(t)
    ensures Progress(h, frames, memo, frames', memo')
  {
    var n := |frames| - 1;
    var frame := frames[n];
    var copied := Attach(h, memo, built, frame.source, frame.target, key, child);
    ghost var q := Prop(key, Ref(copied));
    OpenLogical(h, root, frames, done, active, memo, built, child, copied, q);
    var passed := frame.(next := frame.next + 1);
    OpenFrozen(freeze, frames, done, memo, passed, child, copied);
    memo' := memo[child := copied];
    active' := active + {child};
    built' := built[frame.source := built[frame.source] + [q]][child := []];
    frames' := frames[n := passed] + [Frame(child, copied, 0)];
  }

  /** The copy is a fresh graph isomorphic to what is reachable from the root. */
  ghost predicate Isomorphic(h: Heap, root: Obj, freeze: bool, memo: map<Obj, Obj>)
    reads memo.Values
  {
    && (forall o :: o in h ==> (o in memo <==> Reach(h, root, o)))
    && Injective(memo)
    && (forall o {:trigger memo[o]} :: o in memo ==>
          && o in h && memo[o] !in h && memo[o].shape == o.shape && memo[o].frozen == freeze
          && |memo[o].props| == |h[o]| && CopyOf(memo, h[o], memo[o].props))
  }

  lemma FinishedIsIsomorphic(h: Heap, root: Obj, freeze: bool, done: seq<Obj>, active: set<Obj>,
                             memo: map<Obj, Obj>, built: map<Obj, seq<Prop>>)
    requires CopyInv(h, root, freeze, [], done, active, memo, built)
    ensures Copyable(h, root) && Isomorphic(h, root, freeze, memo)
    ensures forall o :: o in memo <==> o in done
    ensures forall i, j :: 0 <= i < j < |done| ==> done[i] != done[j]
  {
    FinishedIsCopyable(h, root, done);
    forall o | o in memo ensures o in done { assert !OnStack([], o); }
  }

  /** A refusal names a reason that makes the input uncopyable. */
  lemma RefusalIsJust(h: Heap, root: Obj, frames: seq<Frame>, done: seq<Obj>, v: Value)
    requires Closed(h) && DfsInv(h, root, frames, done) && frames != []
    requires var f := frames[|frames|-1]; f.next < |h[f.source]| && h[f.source][f.next].value == v
    requires v.Unsupported? || (v.Ref? && (OnStack(frames, v.o) || !v.o.inert))
    ensures !Copyable(h, root)
  {
    var n := |frames| - 1;
    var f := frames[n];
    StackReach(h, root, frames, done, n);
    if v.Ref? {
      assert Child(h, f.source, v.o);
      ReachChild(h, root, f.source, v.o);
      if OnStack(frames, v.o) {
        var i :| 0 <= i < |frames| && frames[i].source == v.o;
        ActiveChildIsCycle(h, frames, i, v.o);
      }
    }
  }

  /** One turn of the loop: close the top frame, define its next property, open a new frame, or refuse. */
  method Visit(ghost h: Heap, ghost root: Obj, freeze: bool, frames: seq<Frame>, ghost done: seq<Obj>, active: set<Obj>,
               memo: map<Obj, Obj>, ghost built: map<Obj, seq<Prop>>)
    returns (refused: bool, frames': seq<Frame>, ghost done': seq<Obj>, active': set<Obj>, memo': map<Obj, Obj>,
             ghost built': map<Obj, seq<Prop>>)
    requires Closed(h) && CopyInv(h, root, freeze, frames, done, active, memo, built) && frames != []
    modifies memo.Values
    ensures refused ==> !Copyable(h, root)
    ensures !refused ==> CopyInv(h, root, freeze, frames', done', active', memo', built')
    ensures forall o :: o in memo ==> o in memo' && memo'[o] == memo[o]
    ensures forall t :: t in memo'.Values ==> t in memo.Values || fresh(t)
    ensures refused || Progress(h, frames, memo, frames', memo')
  {
    refused, frames', done', active', memo', built' := false, frames, done, active, memo, built;
    var frame := frames[|frames|-1];
    assert frame.source in h && frame.source.props == h[frame.source];
    if frame.next == |frame.source.props| {
      frames', done', active' := CloseFrame(h, root, freeze, frames, done, active, memo, built);
      return;
    }
    var property := frame.source.props[frame.next];
    if property.value.Unsupported?
       || (property.value.Ref? && (property.value.o in active || (property.value.o !in memo && !property.value.o.inert))) {
      RefusalIsJust(h, root, frames, done, property.value);
      refused := true;
    } else {
      frames', active', memo', built' := Advance(h, root, freeze, frames, done, active, memo, built, property);
    }
  }

  /** Defines the top frame's next property: a scalar, an alias of a finished copy, or a newly opened copy. */
  method Advance(ghost h: Heap, ghost root: Obj, ghost freeze: bool, frames: seq<Frame>, ghost done: seq<Obj>, active: set<Obj>,
                 memo: map<Obj, Obj>, ghost built: map<Obj, seq<Prop>>, property: Prop)
    returns (frames': seq<Frame>, active': set<Obj>, memo': map<Obj, Obj>, ghost built': map<Obj, seq<Prop>>)
    requires Closed(h) && CopyInv(h, root, freeze, frames, done, active, memo, built) && frames != []
    requires var f := frames[|frames|-1]; f.next < |h[f.source]| && h[f.source][f.next] == property
    requires !property.value.Unsupported?
    requires property.value.Ref? ==> property.value.o !in active && (property.value.o in memo || property.value.o.inert)
    modifies memo.Values
    ensures CopyInv(h, root, freeze, frames', done, active', memo', built')
    ensures forall o :: o in memo ==> o in memo' && memo'[o] == memo[o]
    ensures forall t :: t in memo'.Values ==> t in memo.Values || fresh(t)
    ensures Progress(h, frames, memo, frames', memo')
  {
    frames', active', memo', built' := frames, active, memo, built;
    if property.value.Scalar? {
      frames', built' := DefineProperty(h, root, freeze, frames, done, active, memo, built, property.key, property.value);
    } else if property.value.o in memo {
      AliasIsDone(h, root, frames, done, active, memo, built, property.value.o);
      frames', built' := DefineProperty(h, root, freeze, frames, done, active, memo, built, property.key, Ref(memo[property.value.o]));
    } else {
      frames', active', memo', built' := OpenFrame(h, root, freeze, frames, done, active, memo, built, property.key, property.value.o);
    }
  }

  /** A known object that is not active has been finished. */
  lemma AliasIsDone(h: Heap, root: Obj, frames: seq<Frame>, done: seq<Obj>, active: set<Obj>,
                    memo: map<Obj, Obj>, built: map<Obj, seq<Prop>>, c: Obj)
    requires Logical(h, root, frames, done, active, memo, built) && c in h && c in memo && c !in active
    ensures c in done
  {
  }

  lemma StartInv(h: Heap, root: Obj, freeze: bool, target: Obj)
    requires Intact(h) && root in h && root.inert
    requires target !in h && target.props == [] && !target.frozen && target.shape == root.shape
    ensures CopyInv(h, root, freeze, [Frame(root, target, 0)], [], {root}, map[root := target], map[root := []])
  {
  }

  /**
   * Copies everything reachable from `root`, or refuses. It refuses exactly the inputs with a reachable
   * cycle, foreign container or unsupported leaf; otherwise `memo` is the isomorphism onto the copy and
   * `done` lists the expanded sources, each once. No existing object changes.
   */
  method CopyContainer(root: Obj, freeze: bool, ghost h: Heap)
    returns (r: Outcome, ghost memo: map<Obj, Obj>, ghost done: seq<Obj>)
    requires Closed(h) && Intact(h) && root in h
    ensures r.Refused? <==> !Copyable(h, root)
    ensures r.Copied? ==> Isomorphic(h, root, freeze, memo) && root in memo && r.value == Ref(memo[root])
    ensures r.Copied? ==> forall t :: t in memo.Values ==> fresh(t)
    ensures r.Copied? ==> (forall i, j :: 0 <= i < j < |done| ==> done[i] != done[j]) && forall o :: o in memo <==> o in done
    ensures Intact(h)
  {
    memo, done := map[], [];
    if !root.inert {
      ReachSelf(h, root);
      return Refused, memo, done;
    }
    var target := new Obj(root.shape);
    StartInv(h, root, freeze, target);
    var refused;
    refused, memo, done := Drain(h, root, freeze, target);
    if refused {
      return Refused, map[], [];
    }
    r := Copied(Ref(target));
  }

  /** The loop over the frame stack, until it is empty or an object is refused. */
  method Drain(ghost h: Heap, root: Obj, freeze: bool, target: Obj)
    returns (refused: bool, ghost memo: map<Obj, Obj>, ghost done: seq<Obj>)
    requires Closed(h) && root in h
    requires CopyInv(h, root, freeze, [Frame(root, target, 0)], [], {root}, map[root := target], map[root := []])
    modifies target
    ensures refused <==> !Copyable(h, root)
    ensures !refused ==> Isomorphic(h, root, freeze, memo) && root in memo && memo[root] == target
    ensures !refused ==> forall t :: t in memo.Values ==> t == target || fresh(t)
    ensures !refused ==> forall o :: o in memo <==> o in done
    ensures !refused ==> forall i, j :: 0 <= i < j < |done| ==> done[i] != done[j]
  {
    var copies: map<Obj, Obj>, active := map[root := target], {root};
    var frames := [Frame(root, target, 0)];
    ghost var built: map<Obj, seq<Prop>> := map[root := []];
    refused, memo, done := false, map[], [];
    while frames != []
      invariant CopyInv(h, root, freeze, frames, done, active, copies, built)
      invariant root in copies && copies[root] == target
      invariant forall t :: t in copies.Values ==> t == target || fresh(t)
      decreases h.Keys - copies.Keys, |frames|, Left(h, frames)
    {
      refused, frames, done, active, copies, built := Visit(h, root, freeze, frames, done, active, copies, built);
      if refused {
        return;
      }
    }
    memo := copies;
    FinishedIsIsomorphic(h, root, freeze, done, active, memo, built);
  }

  /** The entry point: a leaf is returned as it is unless unsupported, a container is copied. */
  method CopyInertData(value: Value, freeze: bool, ghost h: Heap)
    returns (r: Outcome, ghost memo: map<Obj, Obj>)
    requires Closed(h) && Intact(h) && (value.Ref? ==> value.o in h)
    ensures r.Refused? <==> value.Unsupported? || (value.Ref? && !Copyable(h, value.o))
    ensures r.Copied? ==> Image(memo, value, r.value)
    ensures r.Copied? && value.Ref? ==> Isomorphic(h, value.o, freeze, memo) && forall t :: t in memo.Values ==> fresh(t)
    ensures Intact(h)
  {
    memo := map[];
    match value {
      case Unsupported => r := Refused;
      case Scalar(_) => r := Copied(value);
      case Ref(o) =>
        ghost var done;
        r, memo, done := CopyContainer(o, freeze, h);
    }
  }
}
