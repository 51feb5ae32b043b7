/**
 * What the copier reads of one container before walking it: which descriptors, prototypes and brands it accepts,
 * and which properties it then lists.
 */
module Inspection {
  import opened Collections
  import opened ObjectGraph

  const MAX_LENGTH: int := 0xffff_ffff

  /** A leaf like any other, named because the serializer shadow holds it. */
  const UNDEFINED: Value := Scalar(0)

  /** An array index in canonical decimal, any other text, or a symbol. */
  datatype Key = Index(n: nat) | Text(name: string) | Symbol

  datatype Content = Accessor | Callable | Data(value: Value)

  /** One own property with its descriptor. */
  datatype Slot = Slot(key: Key, enumerable: bool, content: Content)

  datatype Proto = ArrayProto | ObjectProto | NullProto | MapProto | SetProto | ForeignProto

  /** `generated` marks a container this module allocated; `serializer` an inherited `toJSON` that is callable or an accessor. */
  datatype Raw = Raw(shape: Shape, proto: Proto, branded: bool, serializer: bool, generated: bool, length: int, slots: seq<Slot>)

  /** One listed property. */
  datatype Listed = Listed(key: Key, value: Value)

  const LENGTH := Text("length")
  const TO_JSON := Text("toJSON")
  const PROTO := Text("__proto__")

  function ValueOf(c: Content): Value {
    match c
    case Data(v) => v
    case _ => Unsupported
  }

  /** Neither an array's length nor the serializer shadow the copier itself put on an array is a property. */
  predicate Skipped(raw: Raw, s: Slot) {
    raw.shape.ArrayShape?
    && (s.key == LENGTH || (raw.generated && s.key == TO_JSON && !s.enumerable && s.content == Data(UNDEFINED)))
  }

  predicate Fit(raw: Raw, s: Slot) {
    && !s.key.Symbol? && s.key != PROTO && !s.content.Accessor?
    && (!Skipped(raw, s) ==>
          && s.enumerable && !(s.key == TO_JSON && s.content.Callable?)
          && (raw.shape.ArrayShape? ==> s.key.Index? && s.key.n < raw.length))
  }

  predicate FitProto(raw: Raw) {
    if raw.shape.ArrayShape? then raw.proto.ArrayProto? else !raw.proto.ArrayProto? && !raw.proto.ForeignProto?
  }

  predicate FitHeader(raw: Raw) {
    && FitProto(raw)
    && (raw.shape.RecordShape? && !raw.generated ==> !raw.branded)
    && ((forall s :: s in raw.slots ==> s.key != TO_JSON) ==> !raw.serializer)
    && (raw.shape.ArrayShape? ==> 0 <= raw.length <= MAX_LENGTH)
  }

  /** The properties among the slots, in order. */
  function Kept(raw: Raw, slots: seq<Slot>): (ps: seq<Listed>)
    ensures |ps| <= |slots|
  {
    if slots == [] then []
    else
      var s := slots[|slots|-1];
      Kept(raw, slots[..|slots|-1]) + if Skipped(raw, s) then [] else [Listed(s.key, ValueOf(s.content))]
  }

  /** The container carries plain data and nothing else; an array has as many properties as its length says. */
  ghost predicate Inert(raw: Raw) {
    && FitHeader(raw) && (forall s :: s in raw.slots ==> Fit(raw, s))
    && (raw.shape.ArrayShape? ==> |Kept(raw, raw.slots)| == raw.length)
  }

  method Properties(raw: Raw) returns (r: Option<seq<Listed>>)
    ensures r.Some? <==> PlainRecord(raw) || PlainArray(raw)
    ensures r == if Inert(raw) then Some(Kept(raw, raw.slots)) else None
  {
    InertMeansPlain(raw);
    if !FitHeader(raw) {
      return None;
    }
    var result: seq<Listed> := [];
    for i := 0 to |raw.slots|
      invariant result == Kept(raw, raw.slots[..i])
      invariant forall s :: s in raw.slots[..i] ==> Fit(raw, s)
    {
      var s := raw.slots[i];
      assert raw.slots[..i+1] == raw.slots[..i] + [s];
      if !Fit(raw, s) {
        return None;
      }
      if !Skipped(raw, s) {
        result := result + [Listed(s.key, ValueOf(s.content))];
      }
    }
    assert raw.slots[..|raw.slots|] == raw.slots;
    if raw.shape.ArrayShape? && |result| != raw.length {
      return None;
    }
    r := Some(result);
  }

  // An accepted array is dense and has nothing but its elements.

  ghost predicate DistinctKeys(slots: seq<Slot>) {
    forall i, j :: 0 <= i < j < |slots| ==> slots[i].key != slots[j].key
  }

  ghost function Indices(ps: seq<Listed>): set<nat> {
    set p | p in ps && p.key.Index? :: p.key.n
  }

  lemma {:induction false} KeptSource(raw: Raw, slots: seq<Slot>, p: Listed)
    requires p in Kept(raw, slots)
    ensures exists s :: s in slots && !Skipped(raw, s) && s.key == p.key
  {
    var n := |slots| - 1;
    if p in Kept(raw, slots[..n]) {
      KeptSource(raw, slots[..n], p);
      var s :| s in slots[..n] && !Skipped(raw, s) && s.key == p.key;
      assert s in slots;
    } else {
      assert slots[n] in slots;
    }
  }

  lemma {:induction false} KeptIndices(raw: Raw, slots: seq<Slot>)
    requires raw.shape.ArrayShape? && DistinctKeys(slots) && forall s :: s in slots ==> Fit(raw, s)
    ensures |Indices(Kept(raw, slots))| == |Kept(raw, slots)|
    ensures forall n :: n in Indices(Kept(raw, slots)) ==> n < raw.length
  {
    if slots == [] {
      assert Indices(Kept(raw, slots)) == {};
    } else {
      var n, s := |slots| - 1, slots[|slots|-1];
      var rest := Kept(raw, slots[..n]);
      KeptIndices(raw, slots[..n]);
      if !Skipped(raw, s) {
        assert Fit(raw, s);
        assert Indices(Kept(raw, slots)) == Indices(rest) + {s.key.n};
        if s.key.n in Indices(rest) {
          var p :| p in rest && p.key == s.key;
          KeptSource(raw, slots[..n], p);
        }
      }
    }
  }

  /** The numbers below `n`. */
  ghost function Below(n: nat): set<nat> {
    if n == 0 then {} else Below(n - 1) + {n - 1}
  }

  lemma {:induction false} BelowCount(n: nat)
    ensures |Below(n)| == n && forall x: nat :: x in Below(n) <==> x < n
  {
    if n > 0 { BelowCount(n - 1); }
  }

  /** Every index below an accepted array's length is there: a hole or an extra property is refused. */
  lemma AcceptedArrayIsDense(raw: Raw, n: nat)
    requires Inert(raw) && raw.shape.ArrayShape? && DistinctKeys(raw.slots)
    ensures n < raw.length <==> exists p :: p in Kept(raw, raw.slots) && p.key == Index(n)
    ensures forall p :: p in Kept(raw, raw.slots) ==> p.key.Index?
  {
    var ps := Kept(raw, raw.slots);
    KeptIndices(raw, raw.slots);
    BelowCount(raw.length);
    SubsetCardinality(Indices(ps), Below(raw.length));
    if n < raw.length { assert n in Indices(ps); }
    if p :| p in ps && p.key == Index(n) { assert n in Indices(ps); }
    forall p | p in ps ensures p.key.Index? {
      KeptSource(raw, raw.slots, p);
    }
  }

  // What the copier allocates and fills passes the same inspection.

  function Slots(ps: seq<Listed>): (s: seq<Slot>)
    ensures |s| == |ps| && forall i :: 0 <= i < |s| ==> s[i] == Slot(ps[i].key, true, Data(ps[i].value))
  {
    seq(|ps|, i requires 0 <= i < |ps| => Slot(ps[i].key, true, Data(ps[i].value)))
  }

  /** The container after all its properties are defined: an array shadows the inherited serializer, a record has no prototype. */
  function Copied(shape: Shape, ps: seq<Listed>): Raw {
    if shape.ArrayShape? then
      Raw(shape, ArrayProto, false, true, true, |ps|, [Slot(TO_JSON, false, Data(UNDEFINED))] + Slots(ps))
    else Raw(shape, NullProto, false, false, true, 0, Slots(ps))
  }

  lemma {:induction false} KeptSlots(raw: Raw, ps: seq<Listed>)
    requires raw.shape.ArrayShape? ==> forall p :: p in ps ==> p.key.Index?
    ensures Kept(raw, Slots(ps)) == ps
  {
    if ps != [] {
      var n := |ps| - 1;
      KeptSlots(raw, ps[..n]);
      assert Slots(ps)[..n] == Slots(ps[..n]);
      assert Slots(ps)[n] == Slot(ps[n].key, true, Data(ps[n].value)) && ps[n] in ps;
      assert ps == ps[..n] + [ps[n]];
    }
  }

  lemma {:induction false} KeptAfterShadow(raw: Raw, s: Slot, slots: seq<Slot>)
    requires Skipped(raw, s)
    ensures Kept(raw, [s] + slots) == Kept(raw, slots)
  {
    var all := [s] + slots;
    if slots == [] {
      assert all[..0] == [];
    } else {
      var n := |slots| - 1;
      assert all[..|all|-1] == [s] + slots[..n];
      KeptAfterShadow(raw, s, slots[..n]);
    }
  }

  /** Reading a copy lists the properties it was given, so a copy can be copied again. */
  lemma CopyReadsBack(raw: Raw, ps: seq<Listed>)
    requires Inert(raw) && |ps| == |Kept(raw, raw.slots)|
    requires forall i :: 0 <= i < |ps| ==> ps[i].key == Kept(raw, raw.slots)[i].key
    ensures Inert(Copied(raw.shape, ps)) && Kept(Copied(raw.shape, ps), Copied(raw.shape, ps).slots) == ps
  {
    var c, kept := Copied(raw.shape, ps), Kept(raw, raw.slots);
    forall i | 0 <= i < |ps|
      ensures Fit(c, Slots(ps)[i]) && (raw.shape.ArrayShape? ==> ps[i].key.Index?)
    {
      assert kept[i] in kept;
      KeptSource(raw, raw.slots, kept[i]);
    }
    KeptSlots(c, ps);
    if raw.shape.ArrayShape? {
      assert c.slots[0].key == TO_JSON;
      KeptAfterShadow(c, c.slots[0], Slots(ps));
    }
  }

  // What is accepted, spelled out.

  /** A plain data property: a string key other than `__proto__`, enumerable, and not a callable `toJSON`. */
  ghost predicate PlainProperty(s: Slot) {
    && s.key != Symbol && s.key != Text("__proto__") && s.enumerable
    && (s.content.Data? || (s.content.Callable? && s.key != Text("toJSON")))
  }

  /** The length of an array, or the shadow that keeps one of the copier's own arrays from inheriting a serializer. */
  ghost predicate ArrayFurniture(raw: Raw, s: Slot) {
    || (s.key == Text("length") && !s.content.Accessor?)
    || (raw.generated && s == Slot(Text("toJSON"), false, Data(UNDEFINED)))
  }

  ghost predicate InheritsSerializer(raw: Raw) {
    raw.serializer && forall s :: s in raw.slots ==> s.key != Text("toJSON")
  }

  /** An ordinary record: no class of its own, no boxed value behind it, nothing but plain properties. */
  ghost predicate PlainRecord(raw: Raw) {
    && raw.shape.RecordShape? && (raw.proto.NullProto? || raw.proto.ObjectProto? || raw.proto.MapProto? || raw.proto.SetProto?)
    && (raw.generated || !raw.branded) && !InheritsSerializer(raw)
    && forall s :: s in raw.slots ==> PlainProperty(s)
  }

  /** An ordinary array: elements below its length, as many as its length, and its furniture. */
  ghost predicate PlainArray(raw: Raw) {
    && raw.shape.ArrayShape? && raw.proto.ArrayProto? && 0 <= raw.length <= 4294967295 && !InheritsSerializer(raw)
    && (forall s :: s in raw.slots && !ArrayFurniture(raw, s) ==> PlainProperty(s) && s.key.Index? && s.key.n < raw.length)
    && |Elements(raw)| == raw.length
  }

  /** The positions of an array's elements among its slots. */
  ghost function Elements(raw: Raw): set<int> {
    ElementsUpTo(raw, |raw.slots|)
  }

  ghost function ElementsUpTo(raw: Raw, n: nat): set<int>
    requires n <= |raw.slots|
  {
    set i | 0 <= i < n && !ArrayFurniture(raw, raw.slots[i])
  }

  lemma FurnitureIsSkipped(raw: Raw, s: Slot)
    requires raw.shape.ArrayShape? && !s.content.Accessor?
    ensures Skipped(raw, s) <==> ArrayFurniture(raw, s)
  {
  }

  lemma {:induction false} KeptCount(raw: Raw, n: nat)
    requires raw.shape.ArrayShape? && n <= |raw.slots| && forall s :: s in raw.slots ==> !s.content.Accessor?
    ensures |Kept(raw, raw.slots[..n])| == |ElementsUpTo(raw, n)|
  {
    if n == 0 {
      assert ElementsUpTo(raw, 0) == {};
    } else {
      KeptCount(raw, n - 1);
      assert raw.slots[..n][..n-1] == raw.slots[..n-1];
      FurnitureIsSkipped(raw, raw.slots[n-1]);
      assert ElementsUpTo(raw, n) == ElementsUpTo(raw, n - 1) + if ArrayFurniture(raw, raw.slots[n-1]) then {} else {n - 1};
    }
  }

  lemma RecordSlotFits(raw: Raw, s: Slot)
    requires raw.shape.RecordShape?
    ensures Fit(raw, s) <==> PlainProperty(s)
  {
  }

  lemma ArraySlotFits(raw: Raw, s: Slot)
    requires raw.shape.ArrayShape?
    ensures Fit(raw, s) <==> ArrayFurniture(raw, s) || (PlainProperty(s) && s.key.Index? && s.key.n < raw.length)
  {
  }

  /** What passes inspection is exactly the ordinary records and arrays. */
  lemma InertMeansPlain(raw: Raw)
    ensures Inert(raw) <==> PlainRecord(raw) || PlainArray(raw)
  {
    if raw.shape.RecordShape? {
      forall s ensures Fit(raw, s) <==> PlainProperty(s) { RecordSlotFits(raw, s); }
    } else {
      forall s ensures Fit(raw, s) <==> ArrayFurniture(raw, s) || (PlainProperty(s) && s.key.Index? && s.key.n < raw.length) {
        ArraySlotFits(raw, s);
      }
      if forall s :: s in raw.slots ==> Fit(raw, s) {
        forall s | s in raw.slots ensures !s.content.Accessor? { assert Fit(raw, s); }
        KeptCount(raw, |raw.slots|);
        assert raw.slots[..|raw.slots|] == raw.slots;
      }
    }
  }
}
