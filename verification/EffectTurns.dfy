/**
 * Effect-turn keys of one session: when a reserved key is above every key any effect scope has named, and which
 * journal writes keep it so.
 */
module EffectTurns {
  import EffectJournal

  /** The address of an effect's journal row. */
  type Eid = EffectJournal.Identity

  const MAX_SAFE: nat := 9007199254740991

  /** What an assistant message says about its turn; a corrupt one cannot be read at all. */
  datatype Message = Completed | Unfinished | Corrupt

  /** The turn suffix of an effect scope, as stored. */
  datatype Suffix = Key(turn: nat) | Malformed

  /** A session with a row: its mark, tombstone, assistant messages, and the effects filed under its scopes. */
  datatype Session = Session(mark: nat, deleted: bool, messages: seq<Message>, effects: map<Eid, Suffix>)

  datatype Error = SessionMissing | HistoryInvalid | KeyExhausted | TransactionActive

  datatype Result<T> = Ok(value: T) | Err(error: Error)

  predicate Readable(s: Session) {
    && (forall i :: 0 <= i < |s.messages| ==> s.messages[i] != Corrupt)
    && (forall e :: e in s.effects ==> s.effects[e].Key? && s.effects[e].turn <= MAX_SAFE)
    && CompletedTurns(s.messages) <= MAX_SAFE
  }

  function CompletedTurns(messages: seq<Message>): nat {
    if messages == [] then 0
    else CompletedTurns(messages[..|messages|-1]) + (if messages[|messages|-1] == Completed then 1 else 0)
  }

  lemma {:induction false} CompletedIsCount(messages: seq<Message>)
    ensures CompletedTurns(messages) == multiset(messages)[Completed]
  {
    if messages != [] {
      var n := |messages| - 1;
      CompletedIsCount(messages[..n]);
      assert messages == messages[..n] + [messages[n]];
    }
  }

  predicate HasEvidence(s: Session) {
    |s.messages| > 0 || s.effects.Keys != {}
  }

  /** `floor` is the larger of the completed turns and every key named by an effect. */
  ghost predicate IsFloor(s: Session, floor: nat) {
    && CompletedTurns(s.messages) <= floor
    && (forall e :: e in s.effects && s.effects[e].Key? ==> s.effects[e].turn <= floor)
    && (floor == CompletedTurns(s.messages) || exists e :: e in s.effects && s.effects[e] == Key(floor))
  }

  /** `k` is the largest of the number of completed messages and the turns the effects name. */
  ghost predicate Proves(s: Session, k: nat) {
    && multiset(s.messages)[Completed] <= k && (forall e :: e in s.effects ==> s.effects[e].Key? && s.effects[e].turn <= k)
    && (multiset(s.messages)[Completed] == k || exists e :: e in s.effects && s.effects[e] == Key(k))
  }

  lemma FloorIsProved(s: Session, k: nat)
    requires Readable(s)
    ensures IsFloor(s, k) <==> Proves(s, k)
  {
    CompletedIsCount(s.messages);
  }

  /** The store's operations on the session. A refused operation rolls back, so it changes nothing. */
  class TurnKeys {
    var mark: nat
    var deleted: bool
    var messages: seq<Message>
    var effects: map<Eid, Suffix>

    ghost function Value(): Session
      reads this
    {
      Session(mark, deleted, messages, effects)
    }

    constructor (s: Session)
      ensures Value() == s
    {
      mark, deleted, messages, effects := s.mark, s.deleted, s.messages, s.effects;
    }

    method CountCompleted() returns (r: Result<nat>)
      ensures r.Ok? <==> forall i :: 0 <= i < |messages| ==> messages[i] != Corrupt
      ensures r.Ok? ==> r.value == CompletedTurns(messages) == multiset(messages)[Completed]
      ensures r.Err? ==> r.error == HistoryInvalid
    {
      CompletedIsCount(messages);
      var count := 0;
      for i := 0 to |messages|
        invariant count == CompletedTurns(messages[..i])
        invariant forall k :: 0 <= k < i ==> messages[k] != Corrupt
      {
        if messages[i] == Corrupt {
          return Err(HistoryInvalid);
        }
        assert messages[..i+1][..i] == messages[..i];
        if messages[i] == Completed {
          count := count + 1;
        }
      }
      assert messages[..|messages|] == messages;
      r := Ok(count);
    }

    /** The mark when it is set; otherwise the floor of the evidence, written to the mark. */
    method SeedLegacyKey() returns (r: Result<nat>)
      modifies this`mark
      ensures r.Ok? <==> old(mark) <= MAX_SAFE && (old(mark) > 0 || Readable(old(Value())))
      ensures r.Ok? ==> mark == r.value && if old(mark) > 0 then mark == old(mark) else IsFloor(old(Value()), mark) && mark <= MAX_SAFE
      ensures r.Err? ==> mark == old(mark) && r.error == HistoryInvalid
      ensures r.Ok? ==> mark <= MAX_SAFE
    {
      if mark > MAX_SAFE {
        return Err(HistoryInvalid);
      }
      if mark > 0 {
        return Ok(mark);
      }
      var counted := CountCompleted();
      if counted.Err? {
        return Err(HistoryInvalid);
      }
      var floor := counted.value;
      var todo := effects.Keys;
      while todo != {}
        invariant todo <= effects.Keys
        invariant forall e :: e in effects && e !in todo ==> effects[e].Key? && effects[e].turn <= floor && effects[e].turn <= MAX_SAFE
        invariant CompletedTurns(messages) <= floor
        invariant floor == CompletedTurns(messages) || exists e :: e in effects && effects[e] == Key(floor) && floor <= MAX_SAFE
        decreases todo
      {
        var e :| e in todo;
        todo := todo - {e};
        if effects[e].Malformed? || effects[e].turn > MAX_SAFE {
          return Err(HistoryInvalid);
        }
        if effects[e].turn > floor {
          floor := effects[e].turn;
        }
      }
      if floor > MAX_SAFE {
        return Err(HistoryInvalid);
      }
      mark := floor;
      r := Ok(floor);
    }

    /** One more than the mark; while no mark is set, one more than everything the history proves. */
    method Reserve(inTransaction: bool) returns (r: Result<nat>)
      modifies this`mark
      ensures r.Ok? <==> !inTransaction && !deleted && CanReserve(old(Value()))
      ensures r.Ok? ==> mark == r.value <= 9007199254740991
      ensures r.Ok? && old(mark) > 0 ==> r.value == old(mark) + 1
      ensures r.Ok? && old(mark) == 0 ==> r.value > 0 && Proves(old(Value()), r.value - 1)
      ensures r.Ok? ==> Reserved(old(Value()), Value(), r.value)
      ensures r.Err? ==> Value() == old(Value())
      ensures r.Err? ==> match r.error
                case TransactionActive => inTransaction
                case SessionMissing => deleted
                case HistoryInvalid => mark > MAX_SAFE || (mark == 0 && !Readable(Value()))
                case KeyExhausted => Seeded(Value(), Value().(mark := MAX_SAFE))
    {
      CompletedIsCount(messages);
      if inTransaction {
        return Err(TransactionActive);
      }
      if deleted {
        return Err(SessionMissing);
      }
      var before := mark;
      ghost var was := Value();
      var seeded := SeedLegacyKey();
      if seeded.Err? {
        return Err(seeded.error);
      }
      if seeded.value == MAX_SAFE {
        mark := before;
        return Err(KeyExhausted);
      }
      if was.mark == 0 { FloorIsProved(was, seeded.value); }
      mark := seeded.value + 1;
      r := Ok(mark);
    }

    /** Erases captured effects, after preserving what they prove; unreadable evidence refuses the sweep. */
    method Sweep(captured: set<Eid>) returns (r: Result<()>)
      modifies this`mark, this`effects
      ensures r.Err? <==> captured != {} && (old(mark) > MAX_SAFE || (old(mark) == 0 && !Readable(old(Value()))))
      ensures r.Ok? ==> Swept(old(Value()), Value(), captured) && effects == old(effects) - captured
      ensures r.Err? ==> Value() == old(Value())
    {
      if captured != {} {
        var seeded := SeedLegacyKey();
        if seeded.Err? {
          return Err(seeded.error);
        }
      }
      effects := effects - captured;
      r := Ok(());
    }

    /** Open-time backfill: a session whose history cannot be read keeps its evidence and a zero mark. */
    method Initialize()
      modifies this`mark
      ensures if old(mark) == 0 && Readable(old(Value())) && HasEvidence(old(Value()))
              then Seeded(old(Value()), Value())
              else Value() == old(Value())
    {
      if mark == 0 && (|messages| > 0 || effects.Keys != {}) {
        var _ := SeedLegacyKey();
      }
    }
  }

  /** A key is left to hand out, and while no mark is set the whole history can be read. */
  ghost predicate CanReserve(s: Session) {
    if s.mark > 0 then s.mark < 9007199254740991
    else
      && Corrupt !in s.messages && multiset(s.messages)[Completed] < 9007199254740991
      && forall e :: e in s.effects ==> s.effects[e].Key? && s.effects[e].turn < 9007199254740991
  }

  // What each operation does, as relations on the session.

  ghost predicate Seeded(s: Session, t: Session) {
    && t == s.(mark := t.mark) && t.mark <= MAX_SAFE
    && if s.mark > 0 then t.mark == s.mark else Readable(s) && IsFloor(s, t.mark)
  }

  ghost predicate Reserved(s: Session, t: Session, key: nat) {
    !s.deleted && key > 0 && t == s.(mark := key) && key <= MAX_SAFE && Seeded(s, s.(mark := key - 1))
  }

  ghost predicate Swept(s: Session, t: Session, captured: set<Eid>) {
    if captured == {} then t == s
    else exists m :: Seeded(s, s.(mark := m)) && t == s.(mark := m, effects := s.effects - captured)
  }

  // Runs: a session's life, with the keys handed out and the keys ever named by its scopes.

  datatype World = World(s: Session, issued: seq<nat>, named: set<nat>)

  datatype Op =
    | Reserve(key: nat)
    | Backfill
    | Sweep(captured: set<Eid>)
    | FileEffect(id: Eid, suffix: Suffix)
    | DropClaim(id: Eid)
    | AddMessage(message: Message)
    | Tombstone
    | Refused

  /** Any effect may be filed and any filed claim dropped, whatever the mark says. */
  ghost predicate Next(w: World, op: Op, w': World) {
    match op
    case Reserve(key) => Reserved(w.s, w'.s, key) && w'.issued == w.issued + [key] && w'.named == w.named
    case Backfill => (w'.s == w.s || Seeded(w.s, w'.s)) && w'.issued == w.issued && w'.named == w.named
    case Sweep(captured) => Swept(w.s, w'.s, captured) && w'.issued == w.issued && w'.named == w.named
    case FileEffect(id, suffix) =>
      && id !in w.s.effects && w'.s == w.s.(effects := w.s.effects[id := suffix])
      && w'.issued == w.issued && w'.named == w.named + if suffix.Key? then {suffix.turn} else {}
    case DropClaim(id) =>
      && id in w.s.effects && w'.s == w.s.(effects := w.s.effects - {id})
      && w'.issued == w.issued && w'.named == w.named
    case AddMessage(m) => w' == w.(s := w.s.(messages := w.s.messages + [m]))
    case Tombstone => w' == w.(s := w.s.(deleted := true))
    case Refused => w' == w
  }

  /** A resumable session as created, with whatever effects were already filed under its id; or a one-shot. */
  ghost predicate Init(w: World) {
    || (w.s.mark == 0 && w.issued == [] && forall k :: k in w.named <==> exists e :: e in w.s.effects && w.s.effects[e] == Key(k))
    || (w.s.mark == 1 && w.s.deleted && w.s.effects == map[] && w.issued == [1] && w.named == {})
  }

  /** What every life keeps, whoever writes the journal. */
  ghost predicate Sound(w: World) {
    && (forall e :: e in w.s.effects && w.s.effects[e].Key? ==> w.s.effects[e].turn in w.named)
    && (forall i :: 0 <= i < |w.issued| ==> w.issued[i] <= w.s.mark)
    && (forall i, j :: 0 <= i < j < |w.issued| ==> w.issued[i] < w.issued[j])
    && w.s.mark <= MAX_SAFE
  }

  /** The next seeding will find at least `k`: it is under the mark, or the mark is unset and the evidence shows it. */
  ghost predicate Covered(s: Session, k: nat) {
    k <= s.mark || (s.mark == 0 && Evidenced(s, k))
  }

  ghost predicate Evidenced(s: Session, k: nat) {
    k <= CompletedTurns(s.messages) || exists e :: e in s.effects && s.effects[e].Key? && s.effects[e].turn >= k
  }

  ghost predicate AllCovered(w: World) {
    forall k :: k in w.named ==> Covered(w.s, k)
  }

  /** Once a mark is set, a filed effect names a key already reserved. */
  ghost predicate MayFile(s: Session, suffix: Suffix) {
    s.mark == 0 || suffix.Malformed? || suffix.turn <= s.mark
  }

  /** A dropped claim's key is under the mark, or other evidence for it remains. */
  ghost predicate MayDrop(s: Session, id: Eid)
    requires id in s.effects
  {
    s.effects[id].Malformed? || Covered(s.(effects := s.effects - {id}), s.effects[id].turn)
  }

  /** The two rules a journal writer has to keep. */
  ghost predicate Lawful(s: Session, op: Op) {
    match op
    case FileEffect(_, suffix) => MayFile(s, suffix)
    case DropClaim(id) => id in s.effects ==> MayDrop(s, id)
    case _ => true
  }

  lemma SeedCovers(s: Session, t: Session, k: nat)
    requires Seeded(s, t)
    ensures s.mark <= t.mark && (k <= t.mark <==> Covered(s, k))
  {
  }

  /** The key handed out is above exactly the keys that are covered. */
  lemma NextKeyIsExact(s: Session, t: Session, key: nat, k: nat)
    requires Reserved(s, t, key)
    ensures k < key <==> Covered(s, k)
  {
    SeedCovers(s, s.(mark := key - 1), k);
  }

  lemma SoundStep(w: World, op: Op, w': World)
    requires Sound(w) && Next(w, op, w')
    ensures Sound(w')
  {
  }

  lemma CompletedGrows(messages: seq<Message>, m: Message)
    ensures CompletedTurns(messages) <= CompletedTurns(messages + [m])
  {
    assert (messages + [m])[..|messages|] == messages;
  }

  /** Filing keeps every named key covered exactly when it obeys its rule. */
  lemma FileStep(w: World, id: Eid, suffix: Suffix, w': World)
    requires AllCovered(w) && Next(w, FileEffect(id, suffix), w')
    ensures AllCovered(w') <==> MayFile(w.s, suffix)
  {
    forall k | k in w.named ensures Covered(w'.s, k) {
      if e :| e in w.s.effects && w.s.effects[e].Key? && w.s.effects[e].turn >= k {
        assert w'.s.effects[e] == w.s.effects[e];
      }
    }
    assert w'.s.effects[id] == suffix;
    if suffix.Key? { assert suffix.turn in w'.named; }
  }

  /** Dropping keeps every named key covered exactly when it obeys its rule. */
  lemma DropStep(w: World, id: Eid, w': World)
    requires Sound(w) && AllCovered(w) && Next(w, DropClaim(id), w')
    ensures AllCovered(w') <==> MayDrop(w.s, id)
  {
    if MayDrop(w.s, id) {
      forall k | k in w.named ensures Covered(w'.s, k) { DropCovers(w.s, w'.s, id, k); }
    }
  }

  lemma DropCovers(s: Session, t: Session, id: Eid, k: nat)
    requires id in s.effects && t == s.(effects := s.effects - {id}) && MayDrop(s, id) && Covered(s, k)
    ensures Covered(t, k)
  {
    if e :| s.mark == 0 && e in s.effects && s.effects[e].Key? && s.effects[e].turn >= k {
      if e != id { assert t.effects[e] == s.effects[e]; }
    }
  }

  /** One step keeps every named key covered exactly when it is lawful. */
  lemma CoverStep(w: World, op: Op, w': World)
    requires Sound(w) && AllCovered(w) && Next(w, op, w')
    ensures AllCovered(w') <==> Lawful(w.s, op)
  {
    match op
    case Reserve(key) =>
      forall k | k in w.named ensures Covered(w'.s, k) { SeedCovers(w.s, w.s.(mark := key - 1), k); }
    case Backfill =>
      if w'.s != w.s {
        forall k | k in w.named ensures Covered(w'.s, k) { SeedCovers(w.s, w'.s, k); }
      }
    case Sweep(captured) =>
      if captured != {} {
        var m :| Seeded(w.s, w.s.(mark := m)) && w'.s == w.s.(mark := m, effects := w.s.effects - captured);
        SweepCovers(w, w', m);
      }
    case FileEffect(id, suffix) => FileStep(w, id, suffix, w');
    case DropClaim(id) => DropStep(w, id, w');
    case AddMessage(m) => CompletedGrows(w.s.messages, m);
    case Tombstone =>
    case Refused =>
  }

  lemma SweepCovers(w: World, w': World, m: nat)
    requires AllCovered(w) && Seeded(w.s, w.s.(mark := m)) && w'.s.mark == m && w'.named == w.named
    ensures AllCovered(w')
  {
    forall k | k in w.named ensures Covered(w'.s, k) { SeedCovers(w.s, w.s.(mark := m), k); }
  }

  ghost predicate Life(ws: seq<World>, ops: seq<Op>) {
    |ws| == |ops| + 1 && Init(ws[0]) && forall i {:trigger ops[i]} :: 0 <= i < |ops| ==> Next(ws[i], ops[i], ws[i+1])
  }

  lemma {:induction false} LifeIsSound(ws: seq<World>, ops: seq<Op>, n: nat)
    requires Life(ws, ops) && n < |ws|
    ensures Sound(ws[n])
  {
    if n > 0 {
      LifeIsSound(ws, ops, n - 1);
      SoundStep(ws[n-1], ops[n-1], ws[n]);
    }
  }

  /** The first `n` operations keep the rules. */
  ghost predicate LawfulLife(ws: seq<World>, ops: seq<Op>, n: nat) {
    forall i {:trigger ops[i]} :: 0 <= i < n && i < |ops| && i < |ws| ==> Lawful(ws[i].s, ops[i])
  }

  /** Every named key stays covered at every moment exactly when every operation is lawful. */
  lemma {:induction false} CoveredIffLawful(ws: seq<World>, ops: seq<Op>, n: nat)
    requires Life(ws, ops) && n < |ws|
    ensures (forall m :: 0 <= m <= n ==> AllCovered(ws[m])) <==> LawfulLife(ws, ops, n)
  {
    if n > 0 {
      CoveredIffLawful(ws, ops, n - 1);
      if AllCovered(ws[n-1]) {
        LifeIsSound(ws, ops, n - 1);
        CoverStep(ws[n-1], ops[n-1], ws[n]);
      }
      assert LawfulLife(ws, ops, n) <==> LawfulLife(ws, ops, n - 1) && Lawful(ws[n-1].s, ops[n-1]);
    }
  }

  /**
   * Every reserved key is above all keys reserved before it, in every life. It is above the keys ever named by a
   * scope, swept or dropped since or not, exactly when those are covered at that moment.
   */
  lemma ReservedKeyIsNew(ws: seq<World>, ops: seq<Op>, n: nat)
    requires Life(ws, ops) && n < |ops| && ops[n].Reserve?
    ensures forall i :: 0 <= i < |ws[n].issued| ==> ws[n].issued[i] < ops[n].key
    ensures (forall k :: k in ws[n].named ==> k < ops[n].key) <==> AllCovered(ws[n])
    ensures LawfulLife(ws, ops, n) ==> forall k :: k in ws[n].named ==> k < ops[n].key
  {
    LifeIsSound(ws, ops, n);
    CoveredIffLawful(ws, ops, n);
    assert Next(ws[n], ops[n], ws[n+1]);
    forall k: nat ensures k < ops[n].key <==> Covered(ws[n].s, k) {
      NextKeyIsExact(ws[n].s, ws[n+1].s, ops[n].key, k);
    }
    SeedCovers(ws[n].s, ws[n].s.(mark := ops[n].key - 1), 0);
  }

  /** On a session whose mark is set, the next key is above a filed key if and only if the filing obeyed its rule. */
  lemma FilingRuleIsExact(s: Session, t: Session, id: Eid, k: nat, key: nat)
    requires s.mark > 0 && t == s.(effects := s.effects[id := Key(k)])
    requires Reserved(t, t.(mark := key), key)
    ensures key > k <==> MayFile(s, Key(k))
  {
    NextKeyIsExact(t, t.(mark := key), key, k);
  }

  /** After a claim is dropped, the next key is above its key if and only if the dropping obeyed its rule. */
  lemma DropRuleIsExact(s: Session, t: Session, id: Eid, k: nat, key: nat)
    requires id in s.effects && s.effects[id] == Key(k) && t == s.(effects := s.effects - {id})
    requires Reserved(t, t.(mark := key), key)
    ensures key > k <==> MayDrop(s, id)
  {
    NextKeyIsExact(t, t.(mark := key), key, k);
  }

  /** The rule is needed: dropping the only evidence of key 5 before a mark is set lets key 1 be handed out after it. */
  lemma DroppedEvidenceIsForgotten(id: Eid)
    ensures var s := Session(0, false, [], map[id := Key(5)]);
            var t := s.(effects := s.effects - {id});
            !MayDrop(s, id) && Reserved(t, t.(mark := 1), 1)
  {
    var s := Session(0, false, [], map[id := Key(5)]);
    assert s.effects - {id} == map[];
  }
}
