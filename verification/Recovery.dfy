/**
 * Recoveries of one abandoned claim directory, run by any number of processes at once. They share only the
 * directory: exclusive marker creation, listing, unlink and rmdir are the atomic steps, and a probe calls an
 * owner absent only when that owner is dead. A process may die between any two steps.
 */
module Recovery {

  /** One recovery attempt; its id is also the name of its marker. */
  type Rid = nat

  datatype Pc =
    | Idle
    | Marked
    | Scanning(seen: set<Rid>, todo: set<Rid>)
    | Stale(seen: set<Rid>, todo: set<Rid>, other: Rid)
    | Destroying(seen: set<Rid>)
    | Cleaning
    | Unmarked
    | SawEmpty
    | Done(removed: bool)

  datatype Attempt = Attempt(pc: Pc, alive: bool)

  datatype State = State(dir: bool, blob: bool, markers: set<Rid>, attempts: map<Rid, Attempt>)

  datatype Action =
    | Begin | Crash
    | CreateMarker | AcquireFails | List
    | FindAbsent(other: Rid) | FindPresent(other: Rid)
    | UnlinkStale | ScanFails | ScanEnds
    | UnlinkBlob | KeepBlob
    | Unmark | UnmarkFails | ListAgain | RemoveDir

  ghost predicate Moved(s: State, s': State, r: Rid, pc: Pc) {
    r in s.attempts && s'.attempts == s.attempts[r := s.attempts[r].(pc := pc)]
  }

  ghost predicate SameDir(s: State, s': State) {
    s'.dir == s.dir && s'.blob == s.blob && s'.markers == s.markers
  }

  /** Steps of a running attempt `r`, one atomic filesystem operation or probe each. */
  ghost predicate Runs(s: State, r: Rid, a: Action, s': State)
    requires r in s.attempts
  {
    var pc := s.attempts[r].pc;
    match a
    case CreateMarker =>
      pc.Idle? && if s.dir
        then Moved(s, s', r, Marked) && s'.dir && s'.blob == s.blob && s'.markers == s.markers + {r}
        else Moved(s, s', r, Done(false)) && SameDir(s, s')
    case AcquireFails =>
      pc.Marked? && Moved(s, s', r, Done(false)) && s'.dir == s.dir && s'.blob == s.blob && s'.markers == s.markers - {r}
    case List =>
      pc.Marked? && Moved(s, s', r, Scanning(s.markers, s.markers - {r})) && SameDir(s, s')
    case FindAbsent(m) =>
      && pc.Scanning? && m in pc.todo && m in s.attempts && !s.attempts[m].alive
      && Moved(s, s', r, Stale(pc.seen, pc.todo, m)) && SameDir(s, s')
    case FindPresent(m) =>
      pc.Scanning? && m in pc.todo && Moved(s, s', r, Cleaning) && SameDir(s, s')
    case UnlinkStale =>
      && pc.Stale? && Moved(s, s', r, Scanning(pc.seen, pc.todo - {pc.other}))
      && s'.dir == s.dir && s'.blob == s.blob && s'.markers == s.markers - {pc.other}
    case ScanFails =>
      (pc.Scanning? || pc.Stale?) && Moved(s, s', r, Cleaning) && SameDir(s, s')
    case ScanEnds =>
      pc.Scanning? && pc.todo == {} && Moved(s, s', r, Destroying(pc.seen)) && SameDir(s, s')
    case UnlinkBlob =>
      && pc.Destroying? && Moved(s, s', r, Cleaning)
      && s'.dir == s.dir && s'.markers == s.markers && !s'.blob
    case KeepBlob =>
      pc.Destroying? && Moved(s, s', r, Cleaning) && SameDir(s, s')
    case Unmark =>
      && pc.Cleaning? && r in s.markers && Moved(s, s', r, Unmarked)
      && s'.dir == s.dir && s'.blob == s.blob && s'.markers == s.markers - {r}
    case UnmarkFails =>
      pc.Cleaning? && Moved(s, s', r, Done(false)) && SameDir(s, s')
    case ListAgain =>
      && pc.Unmarked? && SameDir(s, s')
      && Moved(s, s', r, if s.dir && s.markers == {} && !s.blob then SawEmpty else Done(false))
    case RemoveDir =>
      pc.SawEmpty? && if s.dir && s.markers == {} && !s.blob
        then Moved(s, s', r, Done(true)) && !s'.dir && s'.blob == s.blob && s'.markers == s.markers
        else Moved(s, s', r, Done(false)) && SameDir(s, s')
    case Begin => false
    case Crash => false
  }

  ghost predicate Next(s: State, r: Rid, a: Action, s': State) {
    match a
    case Begin => r !in s.attempts && SameDir(s, s') && s'.attempts == s.attempts[r := Attempt(Idle, true)]
    case Crash => r in s.attempts && SameDir(s, s') && s'.attempts == s.attempts[r := s.attempts[r].(alive := false)]
    case _ => r in s.attempts && s.attempts[r].alive && Runs(s, r, a, s')
  }

  ghost predicate Init(s: State) {
    s.dir && s.markers == {} && s.attempts == map[]
  }

  /** The marker is on disk and this attempt has not retired it. */
  predicate Holding(pc: Pc) {
    pc.Marked? || pc.Scanning? || pc.Stale? || pc.Destroying? || pc.Cleaning?
  }

  /** The attempt has listed the directory and still relies on the listing. */
  predicate Listed(pc: Pc) {
    pc.Scanning? || pc.Stale? || pc.Destroying?
  }

  ghost predicate Running(s: State, r: Rid) {
    r in s.attempts && s.attempts[r].alive
  }

  ghost predicate MarkersKept(s: State) {
    && (forall r {:trigger s.attempts[r]} :: Running(s, r) && Holding(s.attempts[r].pc) ==> r in s.markers)
    && (forall r {:trigger r in s.markers} :: r in s.markers ==> r in s.attempts && s.dir && !s.attempts[r].pc.Idle?)
    && (s.blob ==> s.dir)
  }

  ghost predicate ScansListing(s: State) {
    forall r {:trigger s.attempts[r]} :: r in s.attempts ==>
      match s.attempts[r].pc
      case Scanning(seen, todo) => todo <= seen && r !in todo
      case Stale(seen, todo, other) => todo <= seen && r !in todo && other in todo
      case _ => true
  }

  /** `m` was listed by this attempt and has been dealt with. */
  predicate Cleared(pc: Pc, r: Rid, m: Rid) {
    match pc
    case Scanning(seen, todo) => m in seen && m != r && m !in todo
    case Stale(seen, todo, other) => m in seen && m != r && (m !in todo || m == other)
    case Destroying(seen) => m in seen && m != r
    case _ => false
  }

  ghost predicate ClearedAreDead(s: State) {
    forall r, m {:trigger Cleared(s.attempts[r].pc, r, m)} ::
      r in s.attempts && Cleared(s.attempts[r].pc, r, m) ==> m in s.attempts && !s.attempts[m].alive
  }

  ghost predicate Saw(s: State, a: Rid, b: Rid)
    requires a in s.attempts && Listed(s.attempts[a].pc)
  {
    b in s.attempts[a].pc.seen
  }

  /** Of two running attempts that have both listed the directory, one saw the other's marker. */
  ghost predicate OneSawTheOther(s: State) {
    forall a, b {:trigger Facing(s, a, b)} :: a != b && Facing(s, a, b) ==> Saw(s, a, b) || Saw(s, b, a)
  }

  ghost predicate Facing(s: State, a: Rid, b: Rid) {
    Running(s, a) && Running(s, b) && Listed(s.attempts[a].pc) && Listed(s.attempts[b].pc)
  }

  ghost predicate ReportedOnce(s: State) {
    && (forall r {:trigger s.attempts[r]} :: r in s.attempts && s.attempts[r].pc == Done(true) ==> !s.dir)
    && (forall a, b {:trigger s.attempts[a], s.attempts[b]} ::
          a in s.attempts && b in s.attempts && s.attempts[a].pc == s.attempts[b].pc == Done(true) ==> a == b)
  }

  ghost predicate Inv(s: State) {
    MarkersKept(s) && ScansListing(s) && ClearedAreDead(s) && OneSawTheOther(s) && ReportedOnce(s)
  }

  lemma InvInit(s: State)
    requires Init(s)
    ensures Inv(s)
  {
  }

  lemma MarkersKeptStep(s: State, r: Rid, a: Action, s': State)
    requires Inv(s) && Next(s, r, a, s')
    ensures MarkersKept(s') && ScansListing(s')
  {
    if a.UnlinkStale? {
      assert Cleared(s.attempts[r].pc, r, s.attempts[r].pc.other);
    }
  }

  lemma ClearedStep(s: State, r: Rid, a: Action, s': State)
    requires Inv(s) && Next(s, r, a, s')
    ensures ClearedAreDead(s')
  {
    forall q, m | q in s'.attempts && Cleared(s'.attempts[q].pc, q, m)
      ensures m in s'.attempts && !s'.attempts[m].alive
    {
      if q in s.attempts { assert Cleared(s.attempts[q].pc, q, m) || q == r; }
    }
  }

  /** Listing is where the argument turns: every running holder's marker is in the listing. */
  lemma SawStep(s: State, r: Rid, a: Action, s': State)
    requires Inv(s) && Next(s, r, a, s')
    ensures OneSawTheOther(s')
  {
    forall x, y | x != y && Facing(s', x, y) ensures Saw(s', x, y) || Saw(s', y, x) {
      assert Facing(s, x, y) || (a.List? && (x == r || y == r));
    }
  }

  lemma ReportedStep(s: State, r: Rid, a: Action, s': State)
    requires Inv(s) && Next(s, r, a, s')
    ensures ReportedOnce(s')
  {
  }

  lemma InvStep(s: State, r: Rid, a: Action, s': State)
    requires Inv(s) && Next(s, r, a, s')
    ensures Inv(s')
  {
    MarkersKeptStep(s, r, a, s');
    ClearedStep(s, r, a, s');
    SawStep(s, r, a, s');
    ReportedStep(s, r, a, s');
  }

  /** A schedule: any interleaving of steps of any attempts, starting from a claim nobody is recovering. */
  ghost predicate Schedule(ss: seq<State>, who: seq<Rid>, what: seq<Action>) {
    && |ss| == |who| + 1 == |what| + 1 && Init(ss[0])
    && forall i {:trigger who[i]} {:trigger what[i]} :: 0 <= i < |who| ==> Next(ss[i], who[i], what[i], ss[i+1])
  }

  lemma {:induction false} ScheduleKeepsInv(ss: seq<State>, who: seq<Rid>, what: seq<Action>, i: nat)
    requires Schedule(ss, who, what) && i < |ss|
    ensures Inv(ss[i])
  {
    if i == 0 {
      InvInit(ss[0]);
    } else {
      ScheduleKeepsInv(ss, who, what, i - 1);
      InvStep(ss[i-1], who[i-1], what[i-1], ss[i]);
    }
  }

  /** Two live recoveries are never both past their marker scan. */
  lemma DestructionIsExclusive(ss: seq<State>, who: seq<Rid>, what: seq<Action>, i: nat, a: Rid, b: Rid)
    requires Schedule(ss, who, what) && i < |ss|
    requires Running(ss[i], a) && ss[i].attempts[a].pc.Destroying?
    requires Running(ss[i], b) && ss[i].attempts[b].pc.Destroying?
    ensures a == b
  {
    ScheduleKeepsInv(ss, who, what, i);
    var s := ss[i];
    var mine, theirs := s.attempts[a].pc, s.attempts[b].pc;
    assert Facing(s, a, b);
    assert a != b ==> Cleared(mine, a, b) || Cleared(theirs, b, a);
  }

  lemma {:induction false} DoneIsFinal(ss: seq<State>, who: seq<Rid>, what: seq<Action>, i: nat, j: nat, r: Rid)
    requires Schedule(ss, who, what) && i <= j < |ss|
    requires r in ss[i].attempts && ss[i].attempts[r].pc.Done?
    ensures r in ss[j].attempts && ss[j].attempts[r].pc == ss[i].attempts[r].pc
    decreases j
  {
    if i < j {
      DoneIsFinal(ss, who, what, i, j - 1, r);
      assert Next(ss[j-1], who[j-1], what[j-1], ss[j]);
    }
  }

  /** Over a whole schedule at most one recovery reports the claim removed, and it is gone for good. */
  lemma RemovalIsReportedOnce(ss: seq<State>, who: seq<Rid>, what: seq<Action>, i: nat, j: nat, a: Rid, b: Rid)
    requires Schedule(ss, who, what) && i <= j < |ss|
    requires a in ss[i].attempts && ss[i].attempts[a].pc == Done(true)
    requires b in ss[j].attempts && ss[j].attempts[b].pc == Done(true)
    ensures a == b && !ss[j].dir && !ss[j].blob && ss[j].markers == {}
  {
    DoneIsFinal(ss, who, what, i, j, a);
    ScheduleKeepsInv(ss, who, what, j);
    assert forall r :: r !in ss[j].markers;
  }

  /** A live recovery that has to retire its marker always finds it. */
  lemma OwnMarkerIsPresent(ss: seq<State>, who: seq<Rid>, what: seq<Action>, i: nat, r: Rid)
    requires Schedule(ss, who, what) && i < |ss| && Running(ss[i], r) && Holding(ss[i].attempts[r].pc)
    ensures r in ss[i].markers && ss[i].dir
  {
    ScheduleKeepsInv(ss, who, what, i);
  }

  // Progress: a recovery that nobody alive stands in the way of removes the claim.

  /** `ss` is what `r` does on its own. */
  ghost predicate Solo(ss: seq<State>, r: Rid, what: seq<Action>) {
    |ss| == |what| + 1 && forall i {:trigger what[i]} :: 0 <= i < |what| ==> Next(ss[i], r, what[i], ss[i+1])
  }

  ghost predicate Leads(s: State, r: Rid, t: State) {
    exists ss, what :: Solo(ss, r, what) && ss[0] == s && ss[|what|] == t
  }

  lemma LeadsToSelf(s: State, r: Rid)
    ensures Leads(s, r, s)
  {
    assert Solo([s], r, []);
  }

  lemma LeadsByStep(s: State, r: Rid, a: Action, u: State, t: State)
    requires Next(s, r, a, u) && Leads(u, r, t)
    ensures Leads(s, r, t)
  {
    var ss, what :| Solo(ss, r, what) && ss[0] == u && ss[|what|] == t;
    var more, acts := [s] + ss, [a] + what;
    forall i {:trigger acts[i]} | 0 <= i < |acts| ensures Next(more[i], r, acts[i], more[i+1]) {
      if i > 0 { assert Next(ss[i-1], r, what[i-1], ss[i]); }
    }
    assert Solo(more, r, acts);
  }

  /** The state with `r` at `pc` and this directory. */
  function Put(s: State, r: Rid, pc: Pc, dir: bool, blob: bool, markers: set<Rid>): State
    requires r in s.attempts
  {
    State(dir, blob, markers, s.attempts[r := s.attempts[r].(pc := pc)])
  }

  /** The claim is gone and `r` reports it. */
  function Removed(s: State, r: Rid): State
    requires r in s.attempts
  {
    Put(s, r, Done(true), false, false, {})
  }

  lemma CleaningFinishes(s: State, r: Rid)
    requires Running(s, r) && s.attempts[r].pc == Cleaning && s.dir && !s.blob && s.markers == {r}
    ensures Leads(s, r, Removed(s, r))
  {
    var u, v := Put(s, r, Unmarked, true, false, {}), Put(s, r, SawEmpty, true, false, {});
    LeadsToSelf(Removed(s, r), r);
    LeadsByStep(v, r, RemoveDir, Removed(s, r), Removed(s, r));
    LeadsByStep(u, r, ListAgain, v, Removed(s, r));
    assert s.markers - {r} == {};
    LeadsByStep(s, r, Unmark, u, Removed(s, r));
  }

  lemma DestructionFinishes(s: State, r: Rid)
    requires Running(s, r) && s.attempts[r].pc.Scanning? && s.attempts[r].pc.todo == {} && s.dir && s.markers == {r}
    ensures Leads(s, r, Removed(s, r))
  {
    var d, c := Put(s, r, Destroying(s.attempts[r].pc.seen), true, s.blob, {r}), Put(s, r, Cleaning, true, false, {r});
    CleaningFinishes(c, r);
    LeadsByStep(d, r, if s.blob then UnlinkBlob else KeepBlob, c, Removed(s, r));
    LeadsByStep(s, r, ScanEnds, d, Removed(s, r));
  }

  lemma {:induction false} ScanFinishes(s: State, r: Rid)
    requires Running(s, r) && s.attempts[r].pc.Scanning? && s.dir
    requires s.markers == s.attempts[r].pc.todo + {r} && r !in s.attempts[r].pc.todo
    requires forall m :: m in s.attempts[r].pc.todo ==> m in s.attempts && !s.attempts[m].alive
    ensures Leads(s, r, Removed(s, r))
    decreases s.attempts[r].pc.todo
  {
    var seen, todo := s.attempts[r].pc.seen, s.attempts[r].pc.todo;
    if todo == {} {
      DestructionFinishes(s, r);
    } else {
      var m :| m in todo;
      var f := Put(s, r, Stale(seen, todo, m), true, s.blob, s.markers);
      var u := Put(s, r, Scanning(seen, todo - {m}), true, s.blob, s.markers - {m});
      ScanFinishes(u, r);
      LeadsByStep(f, r, UnlinkStale, u, Removed(s, r));
      LeadsByStep(s, r, FindAbsent(m), f, Removed(s, r));
    }
  }

  /**
   * A live recovery that starts on a claim where only dead recoveries have left markers can always run to the end:
   * it clears their markers, deletes the blob, removes the directory and reports the claim removed.
   */
  lemma LoneRecoverySucceeds(s: State, r: Rid)
    requires Running(s, r) && s.attempts[r].pc == Idle && s.dir && r !in s.markers
    requires forall m :: m in s.markers ==> m in s.attempts && !s.attempts[m].alive
    ensures Leads(s, r, Removed(s, r))
  {
    var all := s.markers + {r};
    var marked, scanning := Put(s, r, Marked, true, s.blob, all), Put(s, r, Scanning(all, s.markers), true, s.blob, all);
    ScanFinishes(scanning, r);
    assert all - {r} == s.markers;
    LeadsByStep(marked, r, List, scanning, Removed(s, r));
    LeadsByStep(s, r, CreateMarker, marked, Removed(s, r));
  }

  /** On a claim that is already gone it ends without a report and without leaving anything behind. */
  lemma LateRecoveryDeclines(s: State, r: Rid)
    requires Running(s, r) && s.attempts[r].pc == Idle && !s.dir
    ensures Leads(s, r, Put(s, r, Done(false), false, s.blob, s.markers))
  {
    var t := Put(s, r, Done(false), false, s.blob, s.markers);
    LeadsToSelf(t, r);
    LeadsByStep(s, r, CreateMarker, t, t);
  }
}
