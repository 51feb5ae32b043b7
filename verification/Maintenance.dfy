/**
 * Producers publishing media and operators pruning legacy temporaries, in one store root. A producer announces
 * itself with its temporary and then looks for maintenance markers; a prune announces itself with a marker and
 * then looks for temporaries and markers. Listing, exclusive creation, unlink and rename are the atomic steps;
 * a probe calls an owner absent only when that owner is dead; any process may die between two steps.
 */
module Maintenance {

  /** One publication or prune; the id is also the unique name of the file it announces itself with. */
  type Pid = nat

  datatype Role = Producer | Prune

  datatype Pc =
    | Idle
    | Prechecking(todo: set<Pid>)
    | Admitted
    | Announced
    | Checking(seen: set<Pid>, todo: set<Pid>)
    | Working(seen: set<Pid>)
    | Retreating
    | Done(checked: bool)

  datatype Proc = Proc(role: Role, pc: Pc, alive: bool)

  /** `files` are the announcing files on disk, `legacy` the temporaries a prune is for, `published` what was renamed into place. */
  datatype State = State(files: set<Pid>, legacy: set<nat>, published: set<Pid>, procs: map<Pid, Proc>)

  datatype Action =
    | Begin(role: Role) | Crash
    | ListFirst | ClearFirst(other: Pid) | Refuse | Admit
    | Create | CreateFails
    | List | Clear(other: Pid) | CheckEnds
    | DeleteCandidate(file: nat)
    | Retire | RetireFails
    | SweepAway(other: Pid)

  /** A producer yields only to prunes; a prune yields to everyone. */
  predicate Conflicts(mine: Role, other: Role) {
    mine.Prune? || other.Prune?
  }

  ghost function Rivals(s: State, p: Pid): set<Pid>
    requires p in s.procs
  {
    set m | m in s.files && m != p && m in s.procs && Conflicts(s.procs[p].role, s.procs[m].role)
  }

  ghost predicate Moved(s: State, s': State, p: Pid, pc: Pc) {
    p in s.procs && s'.procs == s.procs[p := s.procs[p].(pc := pc)]
  }

  /** What lets a check pass over a listed file: it is gone, or its owner is reported absent. */
  ghost predicate Passable(s: State, m: Pid) {
    m !in s.files || (m in s.procs && !s.procs[m].alive)
  }

  ghost predicate Runs(s: State, p: Pid, a: Action, s': State)
    requires p in s.procs
  {
    var pc := s.procs[p].pc;
    match a
    case ListFirst =>
      s.procs[p].role.Producer? && pc.Idle? && Moved(s, s', p, Prechecking(Rivals(s, p))) && s'.files == s.files
    case ClearFirst(m) =>
      && pc.Prechecking? && m in pc.todo && Passable(s, m)
      && Moved(s, s', p, Prechecking(pc.todo - {m})) && s'.files == s.files
    case Admit =>
      && (if s.procs[p].role.Producer? then pc.Prechecking? && pc.todo == {} else pc.Idle?)
      && Moved(s, s', p, Admitted) && s'.files == s.files
    case Create => pc.Admitted? && Moved(s, s', p, Announced) && s'.files == s.files + {p}
    case CreateFails => pc.Admitted? && Moved(s, s', p, Done(false)) && s'.files == s.files
    case List => pc.Announced? && Moved(s, s', p, Checking(Rivals(s, p), Rivals(s, p))) && s'.files == s.files
    case Clear(m) =>
      && pc.Checking? && m in pc.todo && Passable(s, m)
      && Moved(s, s', p, Checking(pc.seen, pc.todo - {m})) && s'.files == s.files
    case CheckEnds => pc.Checking? && pc.todo == {} && Moved(s, s', p, Working(pc.seen)) && s'.files == s.files
    case DeleteCandidate(f) =>
      && s.procs[p].role.Prune? && pc.Working? && p in s.files && f in s.legacy
      && s' == s.(legacy := s.legacy - {f})
    case Refuse =>
      && (pc.Prechecking? || pc.Announced? || pc.Checking?) && s'.files == s.files
      && Moved(s, s', p, if pc.Prechecking? then Done(false) else Retreating)
    case Retire =>
      && (pc.Working? || pc.Retreating?) && p in s.files && Moved(s, s', p, Done(pc.Working?)) && s'.files == s.files - {p}
      && s'.published == if pc.Working? && s.procs[p].role.Producer? then s.published + {p} else s.published
    case RetireFails => (pc.Working? || pc.Retreating?) && Moved(s, s', p, Done(pc.Working?)) && s'.files == s.files
    case SweepAway(m) =>
      pc.Idle? && m in s.procs && !s.procs[m].alive && s'.procs == s.procs && s'.files == s.files - {m}
    case Begin(_) => false
    case Crash => false
  }

  /** Only a prune deletes legacy temporaries and only a rename publishes. */
  ghost predicate KeepsContent(s: State, a: Action, s': State) {
    (a.DeleteCandidate? || s'.legacy == s.legacy) && (a.Retire? || s'.published == s.published)
  }

  ghost predicate Next(s: State, p: Pid, a: Action, s': State) {
    KeepsContent(s, a, s') && match a
    case Begin(role) => p !in s.procs && s'.files == s.files && s'.procs == s.procs[p := Proc(role, Idle, true)]
    case Crash => p in s.procs && s'.files == s.files && s'.procs == s.procs[p := s.procs[p].(alive := false)]
    case _ => p in s.procs && s.procs[p].alive && Runs(s, p, a, s')
  }

  ghost predicate Init(s: State) {
    s.files == {} && s.published == {} && s.procs == map[]
  }

  ghost predicate Running(s: State, p: Pid) {
    p in s.procs && s.procs[p].alive
  }

  /** Its file is on disk and it has not given it up. */
  predicate Holding(pc: Pc) {
    pc.Announced? || pc.Checking? || pc.Working? || pc.Retreating?
  }

  /** It has listed the root after announcing itself. */
  predicate Listed(pc: Pc) {
    pc.Checking? || pc.Working?
  }

  /** It has not created its file yet. */
  predicate Early(pc: Pc) {
    pc.Idle? || pc.Prechecking? || pc.Admitted?
  }

  ghost predicate FilesKept(s: State) {
    && (forall p {:trigger s.procs[p]} :: Running(s, p) && Holding(s.procs[p].pc) ==> p in s.files)
    && (forall p {:trigger p in s.files} :: p in s.files ==> p in s.procs && !Early(s.procs[p].pc))
  }

  predicate Dealt(pc: Pc, m: Pid) {
    match pc
    case Checking(seen, todo) => m in seen && m !in todo
    case Working(seen) => m in seen
    case _ => false
  }

  /** Whatever a check has passed over stays gone or dead. */
  ghost predicate DealtArePassable(s: State) {
    && (forall p, m {:trigger Dealt(s.procs[p].pc, m)} ::
          p in s.procs && Dealt(s.procs[p].pc, m) ==> m in s.procs && Passable(s, m))
    && (forall p, m {:trigger Lists(s, p, m)} :: p in s.procs && Lists(s, p, m) ==> m in s.procs && !Early(s.procs[m].pc))
  }

  ghost predicate Lists(s: State, p: Pid, m: Pid)
    requires p in s.procs
  {
    Listed(s.procs[p].pc) && m in s.procs[p].pc.seen
  }

  ghost predicate Facing(s: State, a: Pid, b: Pid) {
    && Running(s, a) && Running(s, b) && Listed(s.procs[a].pc) && Listed(s.procs[b].pc)
    && Conflicts(s.procs[a].role, s.procs[b].role)
  }

  /** Of two running rivals that have both listed the root, one saw the other's file. */
  ghost predicate OneSawTheOther(s: State) {
    forall a, b {:trigger Facing(s, a, b)} :: a != b && Facing(s, a, b) ==> Lists(s, a, b) || Lists(s, b, a)
  }

  /** A running process that passed its check and could not remove its file. */
  ghost predicate LeftBehind(s: State, b: Pid) {
    Running(s, b) && s.procs[b].pc == Done(true) && b in s.files
  }

  /** A running prune that has listed the root listed every file such a process left behind. */
  ghost predicate LeftoversListed(s: State) {
    forall a, b {:trigger Lists(s, a, b)} {:trigger Running(s, a), LeftBehind(s, b)} ::
      a != b && Running(s, a) && s.procs[a].role.Prune? && Listed(s.procs[a].pc) && LeftBehind(s, b) ==> Lists(s, a, b)
  }

  ghost predicate Inv(s: State) {
    FilesKept(s) && DealtArePassable(s) && OneSawTheOther(s) && LeftoversListed(s)
  }

  lemma FilesStep(s: State, p: Pid, a: Action, s': State)
    requires Inv(s) && Next(s, p, a, s')
    ensures FilesKept(s')
  {
  }

  lemma DealtStep(s: State, p: Pid, a: Action, s': State)
    requires Inv(s) && Next(s, p, a, s')
    ensures DealtArePassable(s')
  {
    forall q, m | q in s'.procs && Lists(s', q, m) ensures m in s'.procs && !Early(s'.procs[m].pc) {
      assert (q in s.procs && Lists(s, q, m)) || (q == p && a.List?);
    }
    forall q, m | q in s'.procs && Dealt(s'.procs[q].pc, m) ensures m in s'.procs && Passable(s', m) {
      assert q in s.procs && (Lists(s, q, m) || q == p);
      assert (q in s.procs && Dealt(s.procs[q].pc, m)) || (q == p && a == Clear(m)) || (q == p && a.CheckEnds?);
    }
  }

  lemma SawStep(s: State, p: Pid, a: Action, s': State)
    requires Inv(s) && Next(s, p, a, s')
    ensures OneSawTheOther(s')
  {
    forall x, y | x != y && Facing(s', x, y) ensures Lists(s', x, y) || Lists(s', y, x) {
      assert Facing(s, x, y) || (a.List? && (x == p || y == p));
    }
  }

  /** A prune past its check has dealt with everything it listed, so nobody can be left behind beside it. */
  lemma LeftoversStep(s: State, p: Pid, a: Action, s': State)
    requires Inv(s) && Next(s, p, a, s')
    ensures LeftoversListed(s')
  {
    forall x, y | x != y && Running(s', x) && s'.procs[x].role.Prune? && Listed(s'.procs[x].pc) && LeftBehind(s', y)
      ensures Lists(s', x, y)
    {
      if a.List? && x == p {
        assert y in s.files;
      } else if y == p && (a.Retire? || a.RetireFails?) {
        RetiringIsListed(s, x, y);
      } else {
        assert LeftBehind(s, y) && Running(s, x) && Lists(s, x, y);
      }
    }
  }

  /** Whoever is past its check finds what it listed gone or dead. */
  lemma PassedIsGone(s: State, y: Pid, x: Pid)
    requires Inv(s) && y in s.procs && s.procs[y].pc.Working? && Lists(s, y, x)
    ensures Passable(s, x)
  {
    assert Dealt(s.procs[y].pc, x);
  }

  /** A checked rival that is still at work was listed by the prune, or the prune would be in its way. */
  lemma RetiringIsListed(s: State, x: Pid, y: Pid)
    requires Inv(s) && x != y && Running(s, x) && s.procs[x].role.Prune? && Listed(s.procs[x].pc)
    requires Running(s, y) && s.procs[y].pc.Working?
    ensures Lists(s, x, y)
  {
    assert Facing(s, x, y);
    if Lists(s, y, x) { PassedIsGone(s, y, x); }
  }

  lemma InvStep(s: State, p: Pid, a: Action, s': State)
    requires Inv(s) && Next(s, p, a, s')
    ensures Inv(s')
  {
    FilesStep(s, p, a, s');
    DealtStep(s, p, a, s');
    SawStep(s, p, a, s');
    LeftoversStep(s, p, a, s');
  }

  /** A schedule: any interleaving of any number of publications, prunes and sweeps. */
  ghost predicate Schedule(ss: seq<State>, who: seq<Pid>, what: seq<Action>) {
    && |ss| == |who| + 1 == |what| + 1 && Init(ss[0])
    && forall i {:trigger who[i]} {:trigger what[i]} :: 0 <= i < |who| ==> Next(ss[i], who[i], what[i], ss[i+1])
  }

  lemma {:induction false} ScheduleKeepsInv(ss: seq<State>, who: seq<Pid>, what: seq<Action>, i: nat)
    requires Schedule(ss, who, what) && i < |ss|
    ensures Inv(ss[i])
  {
    if i > 0 {
      ScheduleKeepsInv(ss, who, what, i - 1);
      InvStep(ss[i-1], who[i-1], what[i-1], ss[i]);
    }
  }

  /** A running process that passed its check after announcing itself and whose file is still there. */
  ghost predicate HoldsChecked(s: State, p: Pid) {
    Running(s, p) && p in s.files && (s.procs[p].pc.Working? || s.procs[p].pc == Done(true))
  }

  /**
   * Past its scan, a prune shares the root with no other prune past its scan, and with no producer past its second
   * check whose temporary is still on disk, not even one that ended without being able to remove it.
   */
  lemma PruneIsExclusive(ss: seq<State>, who: seq<Pid>, what: seq<Action>, i: nat, prune: Pid, other: Pid)
    requires Schedule(ss, who, what) && i < |ss| && prune != other
    requires Running(ss[i], prune) && ss[i].procs[prune].role.Prune? && ss[i].procs[prune].pc.Working?
    ensures !HoldsChecked(ss[i], other)
    ensures !(Running(ss[i], other) && ss[i].procs[other].pc.Working?)
  {
    ScheduleKeepsInv(ss, who, what, i);
    var s := ss[i];
    if Running(s, other) && s.procs[other].pc.Working? { RetiringIsListed(s, prune, other); }
    if Lists(s, prune, other) { PassedIsGone(s, prune, other); }
  }

  /** A prune that goes on deleting candidates still owns its marker, and a checked producer its temporary. */
  lemma AnnouncementHeld(ss: seq<State>, who: seq<Pid>, what: seq<Action>, i: nat, p: Pid)
    requires Schedule(ss, who, what) && i < |ss| && Running(ss[i], p) && Holding(ss[i].procs[p].pc)
    ensures p in ss[i].files
  {
    ScheduleKeepsInv(ss, who, what, i);
  }

  /** What is published was published by a producer that had passed its check, and stays. */
  ghost predicate PublishedWereChecked(s: State) {
    forall p :: p in s.published ==> p in s.procs && s.procs[p].role.Producer? && s.procs[p].pc == Done(true)
  }

  lemma {:induction false} PublicationIsChecked(ss: seq<State>, who: seq<Pid>, what: seq<Action>, i: nat)
    requires Schedule(ss, who, what) && i < |ss|
    ensures PublishedWereChecked(ss[i])
  {
    if i > 0 {
      PublicationIsChecked(ss, who, what, i - 1);
      assert Next(ss[i-1], who[i-1], what[i-1], ss[i]);
    }
  }

  // Progress: a process that nobody alive stands in the way of does its work.

  ghost predicate Solo(ss: seq<State>, p: Pid, what: seq<Action>) {
    |ss| == |what| + 1 && forall i {:trigger what[i]} :: 0 <= i < |what| ==> Next(ss[i], p, what[i], ss[i+1])
  }

  ghost predicate Leads(s: State, p: Pid, t: State) {
    exists ss, what :: Solo(ss, p, what) && ss[0] == s && ss[|what|] == t
  }

  lemma LeadsToSelf(s: State, p: Pid)
    ensures Leads(s, p, s)
  {
    assert Solo([s], p, []);
  }

  lemma LeadsByStep(s: State, p: Pid, a: Action, u: State, t: State)
    requires Next(s, p, a, u) && Leads(u, p, t)
    ensures Leads(s, p, t)
  {
    var ss, what :| Solo(ss, p, what) && ss[0] == u && ss[|what|] == t;
    var more, acts := [s] + ss, [a] + what;
    forall i {:trigger acts[i]} | 0 <= i < |acts| ensures Next(more[i], p, acts[i], more[i+1]) {
      if i > 0 { assert Next(ss[i-1], p, what[i-1], ss[i]); }
    }
    assert Solo(more, p, acts);
  }

  function Put(s: State, p: Pid, pc: Pc, files: set<Pid>): State
    requires p in s.procs
  {
    s.(files := files, procs := s.procs[p := s.procs[p].(pc := pc)])
  }

  /** Nobody alive that `p` would have to yield to has announced itself. */
  ghost predicate Unopposed(s: State, p: Pid) {
    && Running(s, p) && s.procs[p].pc == Idle && p !in s.files
    && forall m :: m in Rivals(s, p) ==> !s.procs[m].alive
  }

  lemma {:induction false} PrecheckPasses(s: State, p: Pid, t: State)
    requires Running(s, p) && s.procs[p].role.Producer? && s.procs[p].pc.Prechecking?
    requires forall m :: m in s.procs[p].pc.todo ==> m in s.procs && m != p && !s.procs[m].alive
    requires Leads(Put(s, p, Admitted, s.files), p, t)
    ensures Leads(s, p, t)
    decreases s.procs[p].pc.todo
  {
    var todo := s.procs[p].pc.todo;
    if todo == {} {
      LeadsByStep(s, p, Admit, Put(s, p, Admitted, s.files), t);
    } else {
      var m :| m in todo;
      var u := Put(s, p, Prechecking(todo - {m}), s.files);
      assert Put(u, p, Admitted, u.files) == Put(s, p, Admitted, s.files);
      PrecheckPasses(u, p, t);
      LeadsByStep(s, p, ClearFirst(m), u, t);
    }
  }

  lemma {:induction false} CheckPasses(s: State, p: Pid, t: State)
    requires Running(s, p) && s.procs[p].pc.Checking?
    requires forall m :: m in s.procs[p].pc.todo ==> m in s.procs && m != p && !s.procs[m].alive
    requires Leads(Put(s, p, Working(s.procs[p].pc.seen), s.files), p, t)
    ensures Leads(s, p, t)
    decreases s.procs[p].pc.todo
  {
    var seen, todo := s.procs[p].pc.seen, s.procs[p].pc.todo;
    if todo == {} {
      LeadsByStep(s, p, CheckEnds, Put(s, p, Working(seen), s.files), t);
    } else {
      var m :| m in todo;
      var u := Put(s, p, Checking(seen, todo - {m}), s.files);
      assert Put(u, p, Working(seen), u.files) == Put(s, p, Working(seen), s.files);
      CheckPasses(u, p, t);
      LeadsByStep(s, p, Clear(m), u, t);
    }
  }

  lemma {:induction false} DeletionFinishes(s: State, p: Pid)
    requires Running(s, p) && s.procs[p].role.Prune? && s.procs[p].pc.Working? && p in s.files
    ensures Leads(s, p, Put(s, p, Done(true), s.files - {p}).(legacy := {}))
    decreases s.legacy
  {
    var t := Put(s, p, Done(true), s.files - {p}).(legacy := {});
    if s.legacy == {} {
      LeadsToSelf(t, p);
      LeadsByStep(s, p, Retire, t, t);
    } else {
      var f :| f in s.legacy;
      var u := s.(legacy := s.legacy - {f});
      DeletionFinishes(u, p);
      LeadsByStep(s, p, DeleteCandidate(f), u, t);
    }
  }

  /** From its admission on, an unopposed process announces itself, finds nobody alive and is past its check. */
  lemma AdmittedGetsToWork(s: State, p: Pid, t: State)
    requires Running(s, p) && s.procs[p].pc == Admitted && forall m :: m in Rivals(s, p) ==> !s.procs[m].alive
    requires Leads(Put(s, p, Working(Rivals(s, p)), s.files + {p}), p, t)
    ensures Leads(s, p, t)
  {
    var files, rivals := s.files + {p}, Rivals(s, p);
    var announced, checking := Put(s, p, Announced, files), Put(s, p, Checking(rivals, rivals), files);
    assert Put(checking, p, Working(rivals), files) == Put(s, p, Working(rivals), files);
    CheckPasses(checking, p, t);
    assert Rivals(announced, p) == rivals;
    LeadsByStep(announced, p, List, checking, t);
    LeadsByStep(s, p, Create, announced, t);
  }

  /** An unopposed prune can always run to the end: no legacy temporary is left and its own marker is gone. */
  lemma LonePruneSucceeds(s: State, p: Pid)
    requires Unopposed(s, p) && s.procs[p].role.Prune?
    ensures Leads(s, p, Put(s, p, Done(true), s.files).(legacy := {}))
  {
    var t, admitted := Put(s, p, Done(true), s.files).(legacy := {}), Put(s, p, Admitted, s.files);
    var working := Put(admitted, p, Working(Rivals(admitted, p)), s.files + {p});
    assert Rivals(admitted, p) == Rivals(s, p);
    DeletionFinishes(working, p);
    assert s.files + {p} - {p} == s.files;
    AdmittedGetsToWork(admitted, p, t);
    LeadsByStep(s, p, Admit, admitted, t);
  }

  /** An unopposed producer can always run to the end: its media is published and its temporary is gone. */
  lemma LoneProducerPublishes(s: State, p: Pid)
    requires Unopposed(s, p) && s.procs[p].role.Producer?
    ensures Leads(s, p, Put(s, p, Done(true), s.files).(published := s.published + {p}))
  {
    var t := Put(s, p, Done(true), s.files).(published := s.published + {p});
    var checking, admitted := Put(s, p, Prechecking(Rivals(s, p)), s.files), Put(s, p, Admitted, s.files);
    var working := Put(admitted, p, Working(Rivals(admitted, p)), s.files + {p});
    assert Rivals(admitted, p) == Rivals(s, p);
    LeadsToSelf(t, p);
    assert s.files + {p} - {p} == s.files;
    LeadsByStep(working, p, Retire, t, t);
    AdmittedGetsToWork(admitted, p, t);
    PrecheckPasses(checking, p, t);
    LeadsByStep(s, p, ListFirst, checking, t);
  }
}
