/** Media objects and their references: admission, reference counting, terminal sweep and grace-window reclaim. */
module MediaReferences {
  import opened Collections

  type Handle = nat

  datatype ScopeKind = RunScope | NodeScope | SessionScope | WorkspaceScope

  datatype Reference = Reference(handle: Handle, kind: ScopeKind, scope: nat)

  /** What a descriptor says about the bytes; `mime` is the canonical type. */
  datatype Meta = Meta(handle: Handle, mime: nat, modality: nat, byteLength: nat, duration: Option<nat>)

  datatype Object = Object(mime: nat, modality: nat, byteLength: nat, duration: Option<nat>, touched: int, deleted: Option<int>)

  datatype Store = Store(objects: map<Handle, Object>, references: set<Reference>)

  const CHUNK := 900

  predicate Conflicts(o: Object, m: Meta) {
    || o.mime != m.mime || o.modality != m.modality || o.byteLength != m.byteLength
    || (o.duration.Some? && m.duration.Some? && o.duration != m.duration)
  }

  /** One descriptor: a new row, a conflict, or a refresh that may supply a missing duration. */
  function AdmitOne(objects: map<Handle, Object>, m: Meta, ts: int): Option<map<Handle, Object>> {
    if m.handle !in objects then
      Some(objects[m.handle := Object(m.mime, m.modality, m.byteLength, m.duration, ts, None)])
    else if Conflicts(objects[m.handle], m) then None
    else
      var o := objects[m.handle];
      Some(objects[m.handle := o.(touched := ts, deleted := None, duration := if o.duration.None? then m.duration else o.duration)])
  }

  function AdmitAll(objects: map<Handle, Object>, batch: seq<Meta>, ts: int): Option<map<Handle, Object>> {
    if batch == [] then Some(objects)
    else
      var before := AdmitAll(objects, batch[..|batch|-1], ts);
      if before.None? then None else AdmitOne(before.value, batch[|batch|-1], ts)
  }

  predicate IsReferenced(s: Store, h: Handle) {
    exists r :: r in s.references && r.handle == h
  }

  /** A live object nobody references, last touched at or before the cutoff. */
  predicate Expired(s: Store, cutoff: int, h: Handle) {
    h in s.objects && s.objects[h].deleted.None? && s.objects[h].touched <= cutoff && !IsReferenced(s, h)
  }

  predicate HeldByRun(s: Store, run: nat, h: Handle) {
    Reference(h, RunScope, run) in s.references
  }

  datatype Op =
    | Admit(batch: seq<Meta>, ts: int)
    | AddReference(reference: Reference, ts: int)
    | RemoveRun(run: nat, ts: int)
    | Reclaim(grace: nat, ts: int)

  function Apply(s: Store, op: Op): Store {
    match op
    case Admit(batch, ts) =>
      var all := AdmitAll(s.objects, batch, ts);
      if all.None? then s else s.(objects := all.value)
    case AddReference(r, ts) =>
      if r.handle !in s.objects then s
      else Store(s.objects[r.handle := s.objects[r.handle].(touched := ts)], s.references + {r})
    case RemoveRun(run, ts) =>
      Store(map h | h in s.objects :: if HeldByRun(s, run, h) then s.objects[h].(touched := ts) else s.objects[h],
            set r | r in s.references && !(r.kind == RunScope && r.scope == run))
    case Reclaim(grace, ts) =>
      s.(objects := map h | h in s.objects ::
           if Expired(s, ts - grace, h) then s.objects[h].(deleted := Some(ts)) else s.objects[h])
  }

  /** The store after the first `n` operations. */
  function At(s: Store, ops: seq<Op>, n: nat): Store
    requires n <= |ops|
  {
    if n == 0 then s else Apply(At(s, ops, n - 1), ops[n-1])
  }

  class ReferenceStore {
    var objects: map<Handle, Object>
    var references: set<Reference>

    ghost function Value(): Store
      reads this
    {
      Store(objects, references)
    }

    constructor ()
      ensures Value() == Store(map[], {})
    {
      objects, references := map[], {};
    }

    /** The whole batch, if no descriptor contradicts the store or another, or nothing. */
    method AdmitBatch(batch: seq<Meta>, ts: int) returns (admitted: bool)
      modifies `objects
      ensures admitted <==> Consistent(old(objects), batch)
      ensures admitted ==> forall k :: 0 <= k < |batch| ==> Holds(objects, batch[k], ts)
      ensures forall h :: !(admitted && Mentions(batch, h)) ==> (h in objects <==> h in old(objects)) && (h in objects ==> objects[h] == old(objects)[h])
      ensures Value() == Apply(old(Value()), Admit(batch, ts))
      ensures admitted <==> AdmitAll(old(objects), batch, ts).Some?
    {
      AdmissionIffConsistent(objects, batch, ts);
      AdmissionHolds(objects, batch, ts);
      var work := objects;
      for i := 0 to |batch|
        invariant objects == old(objects) && AdmitAll(objects, batch[..i], ts) == Some(work)
      {
        var m := batch[i];
        assert batch[..i+1][..i] == batch[..i];
        if m.handle !in work {
          work := work[m.handle := Object(m.mime, m.modality, m.byteLength, m.duration, ts, None)];
        } else {
          var existing := work[m.handle];
          if Conflicts(existing, m) {
            ConflictPropagates(objects, batch, ts, i + 1);
            return false;
          }
          work := work[m.handle := existing.(touched := ts, deleted := None,
                                             duration := if existing.duration.None? then m.duration else existing.duration)];
        }
      }
      assert batch[..|batch|] == batch;
      objects := work;
      admitted := true;
    }

    /** Adding a reference that is already there only moves the cursor; a handle without an object is refused. */
    method AddReference(r: Reference, ts: int) returns (added: bool)
      modifies this
      ensures added <==> r.handle in old(objects)
      ensures references == if added then old(references) + {r} else old(references)
      ensures objects.Keys == old(objects).Keys
      ensures forall h :: h in objects ==> objects[h] == if h == r.handle then old(objects)[h].(touched := ts) else old(objects)[h]
      ensures Value() == Apply(old(Value()), Op.AddReference(r, ts))
    {
      if r.handle !in objects {
        return false;
      }
      references := references + {r};
      objects := objects[r.handle := objects[r.handle].(touched := ts)];
      added := true;
    }

    /** Moves the cursor of every listed row, in bounded batches. */
    method TouchAll(handles: seq<Handle>, ts: int)
      modifies `objects
      ensures objects == map h | h in old(objects) :: if h in handles then old(objects)[h].(touched := ts) else old(objects)[h]
    {
      var i := 0;
      while i < |handles|
        invariant 0 <= i <= |handles|
        invariant objects == map h | h in old(objects) :: if h in handles[..i] then old(objects)[h].(touched := ts) else old(objects)[h]
      {
        var upTo := if i + CHUNK < |handles| then i + CHUNK else |handles|;
        var chunk := handles[i..upTo];
        objects := map h | h in objects :: if h in chunk then objects[h].(touched := ts) else objects[h];
        assert handles[..upTo] == handles[..i] + chunk;
        i := upTo;
      }
      assert handles[..|handles|] == handles;
    }

    /** Soft-deletes every listed row, in bounded batches. */
    method MarkDeleted(handles: seq<Handle>, ts: int)
      modifies `objects
      ensures objects == map h | h in old(objects) :: if h in handles then old(objects)[h].(deleted := Some(ts)) else old(objects)[h]
    {
      var i := 0;
      while i < |handles|
        invariant 0 <= i <= |handles|
        invariant objects == map h | h in old(objects) :: if h in handles[..i] then old(objects)[h].(deleted := Some(ts)) else old(objects)[h]
      {
        var upTo := if i + CHUNK < |handles| then i + CHUNK else |handles|;
        var chunk := handles[i..upTo];
        objects := map h | h in objects :: if h in chunk then objects[h].(deleted := Some(ts)) else objects[h];
        assert handles[..upTo] == handles[..i] + chunk;
        i := upTo;
      }
      assert handles[..|handles|] == handles;
    }

    /** Drops the run's references, and starts the grace window of everything the run referenced. */
    method RemoveRunReferences(run: nat, ts: int)
      modifies this
      ensures forall r :: r in references <==> r in old(references) && !(r.kind == RunScope && r.scope == run)
      ensures objects.Keys == old(objects).Keys
      ensures forall h :: h in objects ==>
                objects[h] == if Reference(h, RunScope, run) in old(references) then old(objects)[h].(touched := ts) else old(objects)[h]
      ensures Value() == Apply(old(Value()), RemoveRun(run, ts))
    {
      var affected := Listed(set h | h in objects && Reference(h, RunScope, run) in references);
      references := set r | r in references && !(r.kind == RunScope && r.scope == run);
      TouchAll(affected, ts);
    }

    /** Soft-deletes the live objects without a reference that nothing has touched for the grace window. */
    method ReclaimExpired(grace: nat, ts: int) returns (handles: seq<Handle>)
      modifies `objects
      ensures forall h :: h in handles <==>
                h in old(objects) && old(objects)[h].deleted == None && old(objects)[h].touched <= ts - grace && forall r :: r in references ==> r.handle != h
      ensures objects.Keys == old(objects).Keys
      ensures forall h :: h in objects ==> objects[h] == if h in handles then old(objects)[h].(deleted := Some(ts)) else old(objects)[h]
      ensures Value() == Apply(old(Value()), Reclaim(grace, ts))
      ensures forall h :: h in handles <==> Expired(old(Value()), ts - grace, h)
    {
      var cutoff := ts - grace;
      var referenced := set r | r in references :: r.handle;
      handles := Listed(set h | h in objects && objects[h].deleted.None? && objects[h].touched <= cutoff && h !in referenced);
      MarkDeleted(handles, ts);
    }
  }

  /** The rows of a query, in some order. */
  method Listed(s: set<Handle>) returns (r: seq<Handle>)
    ensures forall h :: h in r <==> h in s
  {
    r := [];
    var todo := s;
    while todo != {}
      invariant todo <= s
      invariant forall h :: h in r <==> h in s && h !in todo
      decreases todo
    {
      var h :| h in todo;
      r, todo := r + [h], todo - {h};
    }
  }

  // What a batch does, in terms of its descriptors.

  ghost predicate Mentions(batch: seq<Meta>, h: Handle) {
    exists k :: 0 <= k < |batch| && batch[k].handle == h
  }

  /** Two accounts of the same bytes that can both be true. */
  ghost predicate Agree(a: Meta, b: Meta) {
    && a.mime == b.mime && a.modality == b.modality && a.byteLength == b.byteLength
    && (a.duration.None? || b.duration.None? || a.duration.value == b.duration.value)
  }

  /** What the store says of a handle, as a descriptor. */
  function Described(h: Handle, o: Object): Meta {
    Meta(h, o.mime, o.modality, o.byteLength, o.duration)
  }

  /** No descriptor contradicts the store, deleted rows included, or another descriptor of its handle. */
  ghost predicate Consistent(objects: map<Handle, Object>, batch: seq<Meta>) {
    && (forall k :: 0 <= k < |batch| && batch[k].handle in objects ==> Agree(Described(batch[k].handle, objects[batch[k].handle]), batch[k]))
    && (forall j, k :: 0 <= j < k < |batch| && batch[j].handle == batch[k].handle ==> Agree(batch[j], batch[k]))
  }

  /** The handle's row is live, touched now and says what the descriptor says. */
  ghost predicate Holds(objects: map<Handle, Object>, m: Meta, ts: int) {
    && m.handle in objects && objects[m.handle].touched == ts && objects[m.handle].deleted == None
    && objects[m.handle].mime == m.mime && objects[m.handle].modality == m.modality && objects[m.handle].byteLength == m.byteLength
    && (m.duration.Some? ==> objects[m.handle].duration == m.duration)
  }

  lemma AgreeUnlessConflict(o: Object, m: Meta)
    ensures Conflicts(o, m) <==> !Agree(Described(m.handle, o), m)
  {
  }

  /** A row after a batch has some known duration: the store's, or that of some descriptor. */
  ghost predicate FromBatch(objects: map<Handle, Object>, batch: seq<Meta>, h: Handle, o: Object) {
    && (h in objects ==> Agree(Described(h, objects[h]), Described(h, o)) && (o.duration.None? ==> objects[h].duration.None?))
    && (forall k :: 0 <= k < |batch| && batch[k].handle == h ==> Agree(Described(h, o), batch[k]) && (o.duration.None? ==> batch[k].duration.None?))
    && (h !in objects ==> Mentions(batch, h))
    && (o.duration.Some? ==> (h in objects && objects[h].duration == o.duration)
                             || exists k :: 0 <= k < |batch| && batch[k].handle == h && batch[k].duration == o.duration)
  }

  lemma {:induction false} AdmittedFromBatch(objects: map<Handle, Object>, batch: seq<Meta>, ts: int, h: Handle)
    requires AdmitAll(objects, batch, ts).Some? && h in AdmitAll(objects, batch, ts).value
    ensures FromBatch(objects, batch, h, AdmitAll(objects, batch, ts).value[h])
  {
    if batch != [] {
      var n := |batch| - 1;
      var before, after := AdmitAll(objects, batch[..n], ts).value, AdmitAll(objects, batch, ts).value;
      if h in before { AdmittedFromBatch(objects, batch[..n], ts, h); }
      if batch[n].handle == h {
        if h in before { AgreeUnlessConflict(before[h], batch[n]); } else { UnadmittedIsNew(objects, batch[..n], ts, h); }
        FromBatchNext(objects, batch, h, if h in before then Some(before[h]) else None, after[h]);
      } else {
        FromBatchSkips(objects, batch, h, after[h]);
      }
    }
  }

  lemma FromBatchSkips(objects: map<Handle, Object>, batch: seq<Meta>, h: Handle, o: Object)
    requires batch != [] && batch[|batch|-1].handle != h && FromBatch(objects, batch[..|batch|-1], h, o)
    ensures FromBatch(objects, batch, h, o)
  {
    var n := |batch| - 1;
    assert forall k :: 0 <= k < n ==> batch[..n][k] == batch[k];
  }

  lemma FromBatchNext(objects: map<Handle, Object>, batch: seq<Meta>, h: Handle, before: Option<Object>, o: Object)
    requires batch != [] && batch[|batch|-1].handle == h
    requires before.None? ==> h !in objects && !Mentions(batch[..|batch|-1], h)
    requires before.None? ==> o.mime == batch[|batch|-1].mime && o.modality == batch[|batch|-1].modality
                              && o.byteLength == batch[|batch|-1].byteLength && o.duration == batch[|batch|-1].duration
    requires before.Some? ==> FromBatch(objects, batch[..|batch|-1], h, before.value) && Agree(Described(h, before.value), batch[|batch|-1])
    requires before.Some? ==> o.mime == before.value.mime && o.modality == before.value.modality && o.byteLength == before.value.byteLength
                              && o.duration == if before.value.duration.None? then batch[|batch|-1].duration else before.value.duration
    ensures FromBatch(objects, batch, h, o)
  {
    var n := |batch| - 1;
    forall k | 0 <= k < n && batch[k].handle == h ensures Agree(Described(h, o), batch[k]) && (o.duration.None? ==> batch[k].duration.None?) {
      assert batch[..n][k] == batch[k];
    }
    if before.Some? && before.value.duration.Some? && !(h in objects && objects[h].duration == before.value.duration) {
      var k :| 0 <= k < n && batch[..n][k].handle == h && batch[..n][k].duration == before.value.duration;
      assert batch[k].handle == h;
    }
  }

  lemma {:induction false} UnadmittedIsNew(objects: map<Handle, Object>, batch: seq<Meta>, ts: int, h: Handle)
    requires AdmitAll(objects, batch, ts).Some? && h !in AdmitAll(objects, batch, ts).value
    ensures h !in objects && !Mentions(batch, h)
  {
    if batch != [] {
      var n := |batch| - 1;
      UnadmittedIsNew(objects, batch[..n], ts, h);
      forall k | 0 <= k < |batch| ensures batch[k].handle != h { if k < n { assert batch[..n][k] == batch[k]; } }
    }
  }

  lemma ConsistentNext(objects: map<Handle, Object>, batch: seq<Meta>, o: Option<Object>)
    requires batch != [] && Consistent(objects, batch[..|batch|-1])
    requires o.Some? ==> FromBatch(objects, batch[..|batch|-1], batch[|batch|-1].handle, o.value)
    requires o.None? ==> batch[|batch|-1].handle !in objects && !Mentions(batch[..|batch|-1], batch[|batch|-1].handle)
    ensures Consistent(objects, batch) <==> (o.Some? ==> Agree(Described(batch[|batch|-1].handle, o.value), batch[|batch|-1]))
  {
    var n, m := |batch| - 1, batch[|batch|-1];
    assert forall k :: 0 <= k < n ==> batch[..n][k] == batch[k];
    if o.Some? && Agree(Described(m.handle, o.value), m) {
      forall k | 0 <= k < n && batch[k].handle == m.handle ensures Agree(batch[k], m) { assert Agree(Described(m.handle, o.value), batch[..n][k]); }
    }
    if o.Some? && Consistent(objects, batch) {
      if m.handle in objects {
        assert Agree(Described(m.handle, objects[m.handle]), m);
      } else {
        var k :| 0 <= k < n && batch[..n][k].handle == m.handle;
        assert Agree(batch[k], m);
      }
      if o.value.duration.Some? && !(m.handle in objects && objects[m.handle].duration == o.value.duration) {
        var k :| 0 <= k < n && batch[..n][k].handle == m.handle && batch[..n][k].duration == o.value.duration;
        assert Agree(batch[k], m);
      }
    }
  }

  /** A batch is admitted exactly when it is consistent. */
  lemma {:induction false} AdmissionIffConsistent(objects: map<Handle, Object>, batch: seq<Meta>, ts: int)
    ensures AdmitAll(objects, batch, ts).Some? <==> Consistent(objects, batch)
  {
    if batch != [] {
      var n, m := |batch| - 1, batch[|batch|-1];
      AdmissionIffConsistent(objects, batch[..n], ts);
      if AdmitAll(objects, batch[..n], ts).Some? {
        var before := AdmitAll(objects, batch[..n], ts).value;
        if m.handle in before {
          AdmittedFromBatch(objects, batch[..n], ts, m.handle);
          AgreeUnlessConflict(before[m.handle], m);
          ConsistentNext(objects, batch, Some(before[m.handle]));
        } else {
          UnadmittedIsNew(objects, batch[..n], ts, m.handle);
          ConsistentNext(objects, batch, None);
        }
      } else {
        PrefixConsistent(objects, batch, n);
      }
    }
  }

  lemma PrefixConsistent(objects: map<Handle, Object>, batch: seq<Meta>, n: nat)
    requires n <= |batch|
    ensures Consistent(objects, batch) ==> Consistent(objects, batch[..n])
  {
    assert forall k :: 0 <= k < n ==> batch[..n][k] == batch[k];
  }

  /** Every admitted descriptor is what the store now says, and nothing else changes. */
  lemma AdmissionHolds(objects: map<Handle, Object>, batch: seq<Meta>, ts: int)
    ensures AdmitAll(objects, batch, ts).Some? ==> forall k :: 0 <= k < |batch| ==> Holds(AdmitAll(objects, batch, ts).value, batch[k], ts)
    ensures AdmitAll(objects, batch, ts).Some? ==> forall h :: !Mentions(batch, h) ==>
              var r := AdmitAll(objects, batch, ts).value;
              (h in r <==> h in objects) && (h in r ==> r[h] == objects[h])
  {
    if AdmitAll(objects, batch, ts).Some? {
      var r := AdmitAll(objects, batch, ts).value;
      forall k | 0 <= k < |batch| ensures Holds(r, batch[k], ts) {
        AdmittedIsTouched(objects, batch, ts, batch[k].handle);
        AdmittedFromBatch(objects, batch, ts, batch[k].handle);
      }
      forall h | !Mentions(batch, h) ensures (h in r <==> h in objects) && (h in r ==> r[h] == objects[h]) {
        if h in objects { UnmentionedIsUntouched(objects, batch, ts, h); }
        if h in r { AdmittedFromBatch(objects, batch, ts, h); }
      }
    }
  }

  lemma {:induction false} ConflictPropagates(objects: map<Handle, Object>, batch: seq<Meta>, ts: int, k: nat)
    requires k <= |batch| && AdmitAll(objects, batch[..k], ts).None?
    ensures AdmitAll(objects, batch, ts).None?
  {
    if k < |batch| {
      var n := |batch| - 1;
      assert batch[..n][..k] == batch[..k];
      ConflictPropagates(objects, batch[..n], ts, k);
    } else {
      assert batch[..k] == batch;
    }
  }

  /** Same bytes: type, modality and length agree, and a known duration stays known. */
  ghost predicate SameIdentity(o: Object, p: Object) {
    o.mime == p.mime && o.modality == p.modality && o.byteLength == p.byteLength && (o.duration.Some? ==> p.duration == o.duration)
  }

  lemma {:induction false} AdmissionKeepsIdentity(objects: map<Handle, Object>, batch: seq<Meta>, ts: int, h: Handle)
    requires h in objects && AdmitAll(objects, batch, ts).Some?
    ensures var r := AdmitAll(objects, batch, ts).value;
            h in r && SameIdentity(objects[h], r[h]) && (r[h].touched == ts || r[h] == objects[h])
  {
    if batch != [] {
      AdmissionKeepsIdentity(objects, batch[..|batch|-1], ts, h);
    }
  }

  /** A handle's identity never changes, through soft deletion, resurrection and enrichment. */
  lemma {:induction false} IdentityIsImmutable(s: Store, ops: seq<Op>, n: nat, h: Handle)
    requires n <= |ops| && h in s.objects
    ensures h in At(s, ops, n).objects && SameIdentity(s.objects[h], At(s, ops, n).objects[h])
  {
    if n > 0 {
      IdentityIsImmutable(s, ops, n - 1, h);
      var t, op := At(s, ops, n - 1), ops[n-1];
      if op.Admit? && AdmitAll(t.objects, op.batch, op.ts).Some? {
        AdmissionKeepsIdentity(t.objects, op.batch, op.ts, h);
      }
    }
  }

  ghost predicate Backed(s: Store) {
    forall r :: r in s.references ==> r.handle in s.objects
  }

  lemma BackedStep(s: Store, op: Op)
    requires Backed(s)
    ensures Backed(Apply(s, op))
  {
    if op.Admit? && AdmitAll(s.objects, op.batch, op.ts).Some? {
      forall r | r in s.references ensures r.handle in Apply(s, op).objects {
        AdmissionKeepsIdentity(s.objects, op.batch, op.ts, r.handle);
      }
    }
  }

  /** Every reference names a recorded object. */
  lemma {:induction false} ReferencesAreBacked(s: Store, ops: seq<Op>, n: nat)
    requires n <= |ops| && s.references == {}
    ensures Backed(At(s, ops, n))
  {
    if n > 0 {
      ReferencesAreBacked(s, ops, n - 1);
      BackedStep(At(s, ops, n - 1), ops[n-1]);
    }
  }

  /** The operation records the handle, references it, or drops a run's reference to it. */
  ghost predicate Touches(s: Store, op: Op, h: Handle) {
    match op
    case Admit(batch, ts) =>
      AdmitAll(s.objects, batch, ts).Some? && exists k :: 0 <= k < |batch| && batch[k].handle == h
    case AddReference(r, _) => r.handle == h && h in s.objects
    case RemoveRun(run, _) => h in s.objects && HeldByRun(s, run, h)
    case Reclaim(_, _) => false
  }

  lemma {:induction false} AdmittedIsTouched(objects: map<Handle, Object>, batch: seq<Meta>, ts: int, h: Handle)
    requires AdmitAll(objects, batch, ts).Some? && exists k :: 0 <= k < |batch| && batch[k].handle == h
    ensures h in AdmitAll(objects, batch, ts).value && AdmitAll(objects, batch, ts).value[h].touched == ts
    ensures AdmitAll(objects, batch, ts).value[h].deleted.None?
  {
    var n := |batch| - 1;
    if batch[n].handle != h {
      var k :| 0 <= k < |batch| && batch[k].handle == h;
      assert batch[..n][k].handle == h;
      AdmittedIsTouched(objects, batch[..n], ts, h);
    }
  }

  /** The cursor only moves to an operation's own time, and every touch moves it. */
  lemma CursorStep(s: Store, op: Op, h: Handle)
    ensures Touches(s, op, h) ==> h in Apply(s, op).objects && Apply(s, op).objects[h].touched == op.ts
    ensures h in s.objects ==> h in Apply(s, op).objects && (Apply(s, op).objects[h].touched == op.ts || Apply(s, op).objects[h].touched == s.objects[h].touched)
  {
    if op.Admit? && AdmitAll(s.objects, op.batch, op.ts).Some? {
      if Touches(s, op, h) { AdmittedIsTouched(s.objects, op.batch, op.ts, h); }
      if h in s.objects { AdmissionKeepsIdentity(s.objects, op.batch, op.ts, h); }
    }
  }

  lemma {:induction false} UnmentionedIsUntouched(objects: map<Handle, Object>, batch: seq<Meta>, ts: int, h: Handle)
    requires AdmitAll(objects, batch, ts).Some? && h in objects && forall k :: 0 <= k < |batch| ==> batch[k].handle != h
    ensures h in AdmitAll(objects, batch, ts).value && AdmitAll(objects, batch, ts).value[h] == objects[h]
  {
    if batch != [] {
      UnmentionedIsUntouched(objects, batch[..|batch|-1], ts, h);
    }
  }

  /** A soft-deleted handle comes back exactly by being admitted again: a new reference moves its cursor only. */
  lemma OnlyAdmissionRevives(s: Store, op: Op, h: Handle)
    requires h in s.objects && s.objects[h].deleted.Some?
    ensures h in Apply(s, op).objects
    ensures Apply(s, op).objects[h].deleted.None? <==> op.Admit? && Touches(s, op, h)
  {
    if op.Admit? && AdmitAll(s.objects, op.batch, op.ts).Some? {
      if Touches(s, op, h) {
        AdmittedIsTouched(s.objects, op.batch, op.ts, h);
      } else {
        UnmentionedIsUntouched(s.objects, op.batch, op.ts, h);
      }
    }
  }

  ghost predicate ClockAdvances(ops: seq<Op>, n: nat) {
    forall i, j :: 0 <= i < j < n && j < |ops| ==> ops[i].ts <= ops[j].ts
  }

  /** Under a non-decreasing clock, the cursor is never older than any touch. */
  lemma {:induction false} CursorCoversTouches(s: Store, ops: seq<Op>, n: nat, k: nat, h: Handle)
    requires k < n <= |ops| && ClockAdvances(ops, n) && Touches(At(s, ops, k), ops[k], h)
    ensures h in At(s, ops, n).objects && At(s, ops, n).objects[h].touched >= ops[k].ts
  {
    CursorStep(At(s, ops, n - 1), ops[n-1], h);
    if k < n - 1 {
      CursorCoversTouches(s, ops, n - 1, k, h);
    }
  }

  /**
   * A reclaimed handle has no reference, and nothing recorded, referenced or released it during the grace
   * window before the reclaim.
   */
  lemma ReclaimRespectsGrace(s: Store, ops: seq<Op>, n: nat, grace: nat, ts: int, h: Handle, k: nat)
    requires k < n <= |ops| && ClockAdvances(ops, n) && Touches(At(s, ops, k), ops[k], h)
    requires h in At(s, ops, n).objects && At(s, ops, n).objects[h].deleted.None?
    requires Apply(At(s, ops, n), Reclaim(grace, ts)).objects[h].deleted.Some?
    ensures !IsReferenced(At(s, ops, n), h) && ops[k].ts <= ts - grace
  {
    CursorCoversTouches(s, ops, n, k, h);
  }

  /** Every referenced object is live. */
  ghost predicate Live(s: Store) {
    forall r :: r in s.references ==> r.handle in s.objects && s.objects[r.handle].deleted.None?
  }

  /** The operation does not reference a soft-deleted object. */
  ghost predicate RefersToLive(s: Store, op: Op) {
    op.AddReference? && op.reference.handle in s.objects ==> s.objects[op.reference.handle].deleted.None?
  }

  lemma AdmissionKeepsLive(s: Store, batch: seq<Meta>, ts: int)
    requires Live(s) && AdmitAll(s.objects, batch, ts).Some?
    ensures Live(Apply(s, Admit(batch, ts)))
  {
    forall r | r in s.references
      ensures r.handle in AdmitAll(s.objects, batch, ts).value && AdmitAll(s.objects, batch, ts).value[r.handle].deleted.None?
    {
      if exists k :: 0 <= k < |batch| && batch[k].handle == r.handle {
        AdmittedIsTouched(s.objects, batch, ts, r.handle);
      } else {
        UnmentionedIsUntouched(s.objects, batch, ts, r.handle);
      }
    }
  }

  /** One operation keeps referenced objects live exactly when it references nothing soft-deleted. */
  lemma LiveStep(s: Store, op: Op)
    requires Live(s)
    ensures Live(Apply(s, op)) <==> RefersToLive(s, op)
  {
    match op
    case Admit(batch, ts) => if AdmitAll(s.objects, batch, ts).Some? { AdmissionKeepsLive(s, batch, ts); }
    case AddReference(r, _) => if r.handle in s.objects { assert r in Apply(s, op).references; }
    case RemoveRun(_, _) =>
    case Reclaim(_, _) =>
  }

  ghost predicate LiveAt(s: Store, ops: seq<Op>, k: nat) {
    k <= |ops| ==> Live(At(s, ops, k))
  }

  ghost predicate RefersToLiveAt(s: Store, ops: seq<Op>, k: nat) {
    k < |ops| ==> RefersToLive(At(s, ops, k), ops[k])
  }

  /**
   * The collector never takes bytes from under a reference: over every run, with every sweep and reclaim in it, all
   * referenced objects stay live exactly as long as references are only added to live ones.
   */
  lemma {:induction false} ReferencedStaysLive(s: Store, ops: seq<Op>, n: nat)
    requires n <= |ops| && Live(s)
    ensures (forall k: nat :: k <= n ==> LiveAt(s, ops, k)) <==> forall k: nat :: k < n ==> RefersToLiveAt(s, ops, k)
  {
    if n > 0 {
      ReferencedStaysLive(s, ops, n - 1);
      if forall k: nat :: k <= n - 1 ==> LiveAt(s, ops, k) {
        assert LiveAt(s, ops, n - 1);
        LiveStep(At(s, ops, n - 1), ops[n-1]);
        assert LiveAt(s, ops, n) <==> RefersToLiveAt(s, ops, n - 1);
      }
    }
  }
}
