/** Every interleaving of the poll goroutine's installs with unboundedly many destructive command goroutines,
    over the gate of PowerGate, one critical section or store write a step (internal/service/clientpower.go,
    internal/service/selfupdate.go). */
module PowerProtocol {
  import opened Json
  import opened PowerGate
  import Records

  /** Where a command goroutine stands: admitted and acknowledged, recorded on disk, committed, lowering the
      flag after a failed action, taking its record back, finished. */
  datatype Phase = Admitted | Recorded | Committing | Lowering | Removing | Done

  datatype Poll = Idle | Holding(selfUpdate: bool)

  /** launches counts the claims a launched self-update never gives back. The last four fields are
      history: commit deadlines, ids whose action went through, ids that lost the flag to another
      command's commit or failure, and ids a predecessor process left on disk. */
  datatype System = System(now: int, shared: Shared, poll: Poll, launches: nat, phases: map<string, Phase>,
    deadlines: map<string, int>, acted: set<string>, orphans: set<string>, inherited: set<string>)

  datatype Event =
    | Tick(elapsed: nat)
    | Peek
    | TakePending
    | Begin(selfUpdate: bool)
    | End
    | Launch
    | Admit(id: string)
    | Record(id: string, ok: bool)
    | Commit(id: string, grace: nat)
    | Act(id: string, ok: bool)
    | Lower(id: string)
    | Remove(id: string)

  predicate At(s: System, id: string, phase: Phase) {
    id in s.phases && s.phases[id] == phase
  }

  /** TakePending is the welcome burst's service.started, taken to precede the process's own first record. */
  predicate Enabled(s: System, e: Event) {
    match e
    case Tick(_) => true
    case Peek => true
    case TakePending => forall id <- s.phases :: s.phases[id] == Admitted
    case Begin(_) => s.poll == Idle
    case End => s.poll != Idle
    case Launch => s.poll == Holding(true)
    case Admit(id) => id != "" && id !in s.phases && id !in s.inherited && !Settled(s.shared, s.now).pending
    case Record(id, _) => At(s, id, Admitted)
    case Commit(id, _) => At(s, id, Recorded)
    case Act(id, _) => At(s, id, Committing)
    case Lower(id) => At(s, id, Lowering)
    case Remove(id) => At(s, id, Removing)
  }

  /** The id another command loses the flag to: the current owner when it is not id itself. */
  function Displaced(shared: Shared, id: string): set<string> {
    if shared.pending && shared.commandId != id then {shared.commandId} else {}
  }

  function Step(s: System, e: Event): System
    requires Enabled(s, e)
  {
    match e
    case Tick(elapsed) => s.(now := s.now + elapsed)
    case Peek => s.(shared := Settled(s.shared, s.now))
    case TakePending => s.(shared := s.shared.(records := []))
    case Begin(selfUpdate) =>
      var r := Begun(s.shared, s.now);
      s.(shared := r, poll := if r.pending then Idle else Holding(selfUpdate))
    case End => s.(shared := s.shared.(installing := s.shared.installing - 1), poll := Idle)
    case Launch => s.(poll := Idle, launches := s.launches + 1)
    case Admit(id) => s.(shared := Settled(s.shared, s.now), phases := s.phases[id := Admitted])
    case Record(id, ok) =>
      if ok then s.(shared := s.shared.(records := s.shared.records + [id]), phases := s.phases[id := Recorded])
      else s.(phases := s.phases[id := Removing])
    case Commit(id, grace) =>
      if s.shared.installing > 0 then s.(phases := s.phases[id := Removing])
      else s.(shared := Committed(s.shared, id, s.now + grace), phases := s.phases[id := Committing],
              deadlines := s.deadlines[id := s.now + grace], orphans := s.orphans + Displaced(s.shared, id))
    case Act(id, ok) =>
      if ok then s.(phases := s.phases[id := Done], acted := s.acted + {id})
      else s.(phases := s.phases[id := Lowering])
    case Lower(id) =>
      s.(shared := Lowered(s.shared), phases := s.phases[id := Removing],
         orphans := s.orphans + Displaced(s.shared, id))
    case Remove(id) =>
      s.(shared := s.shared.(records := Without(s.shared.records, id)), phases := s.phases[id := Done])
  }

  /** An event that is not enabled leaves the state alone, so a run is any list of events. */
  function Next(s: System, e: Event): System {
    if Enabled(s, e) then Step(s, e) else s
  }

  function Run(s: System, events: seq<Event>): System
    decreases |events|
  {
    if events == [] then s else Next(Run(s, events[..|events| - 1]), events[|events| - 1])
  }

  /** A process at its start, with the records its predecessor left. */
  function Start(now: int, left: seq<string>): System {
    System(now, Shared(0, false, None, "", left), Idle, 0, map[], map[], {}, {}, set id | id in left)
  }

  // ---- what every step keeps ----

  ghost predicate Counted(s: System) {
    && s.shared.installing == s.launches + (if s.poll == Idle then 0 else 1)
    && (s.shared.installing > 0 ==> !s.shared.pending)
    && (s.shared.pending ==> s.shared.deadline.Some?)
  }

  /** Whoever holds the flag got it from its own commit. */
  ghost predicate Owned(s: System) {
    && (!s.shared.pending ==> s.shared.commandId == "" && s.shared.deadline == None)
    && (s.shared.pending ==>
          && s.shared.commandId in s.deadlines
          && s.shared.deadline == Some(s.deadlines[s.shared.commandId])
          && s.shared.commandId !in s.orphans)
    && s.deadlines.Keys <= s.phases.Keys && s.orphans <= s.deadlines.Keys && s.acted <= s.deadlines.Keys
    && "" !in s.phases && s.phases.Keys !! s.inherited
    && (forall id <- s.deadlines :: s.phases[id] !in {Admitted, Recorded})
    && (forall id <- s.phases :: s.phases[id] in {Committing, Lowering} ==> id in s.deadlines)
    && (forall id <- s.acted :: s.phases[id] == Done)
  }

  predicate Held(s: System, id: string) {
    id in s.orphans || (s.shared.pending && s.shared.commandId == id)
  }

  /** Where a command's record is; a committed command whose flag is gone is past its deadline. */
  predicate FiledAt(s: System, id: string) {
    id in s.phases ==>
      match s.phases[id]
      case Admitted => id !in s.shared.records
      case Recorded => id in s.shared.records
      case Committing =>
        && (id in s.shared.records <==> Held(s, id))
        && (Held(s, id) || (id in s.deadlines && s.deadlines[id] <= s.now))
      case Done => id in s.shared.records <==> id in s.acted && Held(s, id)
      case _ => true
  }

  ghost predicate Filed(s: System) {
    && (forall id <- s.shared.records :: id in s.inherited || id in s.phases)
    && forall id :: FiledAt(s, id)
  }

  lemma CountedStep(s: System, e: Event)
    requires Counted(s)
    ensures Counted(Next(s, e))
  {}

  /** Commands committing, failing to act and lowering the flag. */
  predicate MovesFlag(e: Event) {
    e.Commit? || e.Act? || e.Lower?
  }

  lemma OwnedWhenFlagMoves(s: System, e: Event)
    requires Counted(s) && Owned(s) && MovesFlag(e)
    ensures Owned(Next(s, e))
  {
    hide Without, Settled, Begun;
  }

  lemma OwnedStep(s: System, e: Event)
    requires Counted(s) && Owned(s)
    ensures Owned(Next(s, e))
  {
    hide Without;
    if MovesFlag(e) {
      OwnedWhenFlagMoves(s, e);
      hide Owned, Next;
    }
  }

  lemma FiledAtRead(s: System, e: Event, id: string)
    requires Counted(s) && Owned(s) && (e.Peek? || e.Begin? || e.Admit?)
    requires FiledAt(s, id) && (id in s.shared.records ==> id in s.inherited || id in s.phases)
    ensures FiledAt(Next(s, e), id)
    ensures id in Next(s, e).shared.records ==> id in s.inherited || id in Next(s, e).phases
  {
    if Enabled(s, e) && Due(s.shared, s.now) {
      assert id in Settled(s.shared, s.now).records <==> id in s.shared.records && id != s.shared.commandId;
    }
  }

  lemma FiledWhenFlagMoves(s: System, e: Event, id: string)
    requires Counted(s) && Owned(s) && MovesFlag(e)
    requires FiledAt(s, id) && (id in s.shared.records ==> id in s.inherited || id in s.phases)
    ensures FiledAt(Next(s, e), id)
    ensures id in Next(s, e).shared.records ==> id in s.inherited || id in Next(s, e).phases
  {
    hide Settled, Begun, Without;
  }

  lemma FiledAtStep(s: System, e: Event, id: string)
    requires Counted(s) && Owned(s)
    requires FiledAt(s, id) && (id in s.shared.records ==> id in s.inherited || id in s.phases)
    ensures FiledAt(Next(s, e), id)
    ensures id in Next(s, e).shared.records ==> id in s.inherited || id in Next(s, e).phases
  {
    hide Settled, Begun;
    if e.Peek? || e.Begin? || e.Admit? {
      FiledAtRead(s, e, id);
      hide FiledAt, Next;
    } else if MovesFlag(e) {
      FiledWhenFlagMoves(s, e, id);
      hide FiledAt, Next;
    }
  }

  lemma FiledStep(s: System, e: Event)
    requires Counted(s) && Owned(s) && Filed(s)
    ensures Filed(Next(s, e))
  {
    forall id
      ensures FiledAt(Next(s, e), id)
      ensures id in Next(s, e).shared.records ==> id in s.inherited || id in Next(s, e).phases
    {
      FiledAtStep(s, e, id);
    }
  }

  ghost predicate Invariant(s: System) {
    Counted(s) && Owned(s) && Filed(s)
  }

  lemma {:induction false} RunKeepsInvariant(s: System, events: seq<Event>)
    requires Invariant(s)
    ensures Invariant(Run(s, events))
    decreases |events|
  {
    if events != [] {
      var init, last := events[..|events| - 1], events[|events| - 1];
      RunKeepsInvariant(s, init);
      CountedStep(Run(s, init), last);
      OwnedStep(Run(s, init), last);
      FiledStep(Run(s, init), last);
    }
  }

  lemma RunAppend(s: System, events: seq<Event>, e: Event)
    ensures Run(s, events + [e]) == Next(Run(s, events), e)
  {
    assert (events + [e])[..|events|] == events;
  }

  // ---- safety over whole runs ----

  /** A setup and a committed restart or reboot never hold the machine together, and installing counts
      exactly the claims that were not given back. */
  lemma SetupsExcludeCommands(now: int, left: seq<string>, events: seq<Event>)
    ensures var s := Run(Start(now, left), events);
      && !(s.shared.installing > 0 && s.shared.pending)
      && s.shared.installing == s.launches + (if s.poll == Idle then 0 else 1)
  {
    RunKeepsInvariant(Start(now, left), events);
  }

  /** In every interleaving an install is refused exactly while the command that holds the flag has not reached its
      own deadline; at and after it nothing blocks an install. */
  lemma InstallBlockedExactlyUntilDeadline(now: int, left: seq<string>, events: seq<Event>, selfUpdate: bool)
    requires Run(Start(now, left), events).poll == Idle
    ensures var s := Run(Start(now, left), events);
      Next(s, Begin(selfUpdate)).poll == Idle
      <==> s.shared.pending && s.shared.commandId in s.deadlines && s.now < s.deadlines[s.shared.commandId]
  {
    RunKeepsInvariant(Start(now, left), events);
  }

  lemma NoCommitStep(s: System, e: Event)
    requires Counted(s) && s.launches > 0
    ensures var r := Next(s, e); r.launches > 0 && !r.shared.pending && r.deadlines == s.deadlines
  {
    hide Without;
  }

  /** Once a self-update has been launched no restart or reboot is committed again in that process. */
  lemma {:induction false} NoCommitAfterLaunch(s: System, events: seq<Event>)
    requires Invariant(s) && s.launches > 0
    ensures var r := Run(s, events); r.launches > 0 && !r.shared.pending && r.deadlines == s.deadlines
    decreases |events|
  {
    if events != [] {
      hide Next, Owned, Filed;
      var init := events[..|events| - 1];
      NoCommitAfterLaunch(s, init);
      RunKeepsInvariant(s, init);
      NoCommitStep(Run(s, init), events[|events| - 1]);
    }
  }

  /** No command goroutine is under way. */
  predicate Quiet(s: System) {
    forall id <- s.phases :: s.phases[id] == Done
  }

  /** With the flag down and no command under way, a command of this process still has its record on disk
      exactly when its action went through and another command took the flag from it. */
  lemma RecordsLeftBehind(now: int, left: seq<string>, events: seq<Event>, id: string)
    requires var s := Run(Start(now, left), events); Quiet(s) && !s.shared.pending && id in s.phases
    ensures var s := Run(Start(now, left), events); id in s.shared.records <==> id in s.acted && id in s.orphans
  {
    RunKeepsInvariant(Start(now, left), events);
    assert FiledAt(Run(Start(now, left), events), id);
  }

  lemma AfterRefusal(s: System, id: string, ok: bool)
    requires At(s, id, Removing)
    ensures Next(Next(Next(s, Act(id, ok)), Lower(id)), Remove(id))
         == s.(shared := s.shared.(records := Without(s.shared.records, id)), phases := s.phases[id := Done])
  {
    hide Without;
    assert Next(s, Act(id, ok)) == s && Next(s, Lower(id)) == s;
  }

  lemma AfterCommit(s: System, id: string, ok: bool)
    requires At(s, id, Committing)
    ensures var after := Next(Next(Next(s, Act(id, ok)), Lower(id)), Remove(id));
      if ok then after == s.(phases := s.phases[id := Done], acted := s.acted + {id})
      else
        && after.shared == Lowered(s.shared).(records := Without(s.shared.records, id))
        && At(after, id, Done) && after.now == s.now && after.acted == s.acted
  {
    hide Without;
    var next := Next(s, Act(id, ok));
    if ok {
      assert Next(next, Lower(id)) == next && Next(next, Remove(id)) == next;
    } else {
      assert Next(next, Lower(id)).shared == Lowered(s.shared) && At(Next(next, Lower(id)), id, Removing);
    }
  }

  lemma RecordAndCommit(s: System, id: string, recordOk: bool, grace: nat)
    requires At(s, id, Admitted)
    ensures var committed := Next(Next(s, Record(id, recordOk)), Commit(id, grace));
      var recorded := if recordOk then s.shared.(records := s.shared.records + [id]) else s.shared;
      && committed.now == s.now && committed.acted == s.acted
      && if recordOk && s.shared.installing <= 0
         then At(committed, id, Committing) && committed.shared == Committed(recorded, id, s.now + grace)
         else At(committed, id, Removing) && committed.shared == recorded
  {
    var recorded := Next(s, Record(id, recordOk));
    if !recordOk {
      assert Next(recorded, Commit(id, grace)) == recorded;
    }
  }

  /** The steps of one command with nothing in between are runDestructive: it is scheduled exactly when its record was
      written, nothing was being installed and the action went through, and otherwise leaves no record and, unless
      the action was attempted, the flag alone. */
  lemma UndisturbedCommand(s: System, id: string, recordOk: bool, grace: nat, actionOk: bool)
    requires At(s, id, Admitted) && id !in s.acted
    ensures var recorded := Next(s, Record(id, recordOk));
      var acted := Next(Next(recorded, Commit(id, grace)), Act(id, actionOk));
      var after := Next(Next(acted, Lower(id)), Remove(id));
      var scheduled := recordOk && s.shared.installing <= 0 && actionOk;
      && At(after, id, Done) && after.now == s.now && after.shared.installing == s.shared.installing
      && (id in after.acted <==> scheduled)
      && after.shared.records == (if scheduled then s.shared.records + [id] else Without(s.shared.records, id))
      && (scheduled ==> after.shared.pending && after.shared.commandId == id
                        && after.shared.deadline == Some(s.now + grace))
      && (!scheduled && recordOk && s.shared.installing <= 0 ==> !after.shared.pending)
      && (!recordOk || s.shared.installing > 0 ==>
            && after.shared.pending == s.shared.pending && after.shared.commandId == s.shared.commandId
            && after.shared.deadline == s.shared.deadline)
  {
    Records.WithoutLast(s.shared.records, SAME, id);
    assert Without(s.shared.records + [id], id) == Without(s.shared.records, id);
    hide Without, Next;
    RecordAndCommit(s, id, recordOk, grace);
    var committed := Next(Next(s, Record(id, recordOk)), Commit(id, grace));
    if At(committed, id, Removing) {
      AfterRefusal(committed, id, actionOk);
    } else {
      AfterCommit(committed, id, actionOk);
    }
  }

  /** Commands do not overlap: each is admitted only when the previous one has finished. */
  ghost predicate Serial(s: System, events: seq<Event>)
    decreases |events|
  {
    events != [] ==>
      var init := events[..|events| - 1];
      Serial(s, init) && (events[|events| - 1].Admit? ==> Quiet(Run(s, init)))
  }

  ghost predicate OneAtATime(s: System) {
    && s.orphans == {}
    && (forall a <- s.phases, b <- s.phases :: s.phases[a] != Done && s.phases[b] != Done ==> a == b)
    && (forall id <- s.phases :: s.phases[id] != Done && s.shared.pending ==>
          s.shared.commandId == id && s.phases[id] !in {Admitted, Recorded})
  }

  lemma OneAtATimeWhenFlagMoves(s: System, e: Event)
    requires Counted(s) && Owned(s) && OneAtATime(s) && MovesFlag(e)
    ensures OneAtATime(Next(s, e))
  {
    hide Without, Settled, Begun;
  }

  lemma OneAtATimeStep(s: System, e: Event)
    requires Invariant(s) && OneAtATime(s) && (e.Admit? ==> Quiet(s))
    ensures OneAtATime(Next(s, e))
  {
    hide Filed, Without;
    if MovesFlag(e) {
      OneAtATimeWhenFlagMoves(s, e);
      hide OneAtATime, Next;
    }
  }

  lemma {:induction false} SerialRunsHaveNoOrphans(now: int, left: seq<string>, events: seq<Event>)
    requires Serial(Start(now, left), events)
    ensures OneAtATime(Run(Start(now, left), events))
    decreases |events|
  {
    if events != [] {
      var init := events[..|events| - 1];
      SerialRunsHaveNoOrphans(now, left, init);
      RunKeepsInvariant(Start(now, left), init);
      OneAtATimeStep(Run(Start(now, left), init), events[|events| - 1]);
    }
  }

  /** Without overlap nothing is left behind: whenever the flag is down and no command is under way,
      only records of the predecessor process can be on disk. */
  lemma SerialRunsCleanUp(now: int, left: seq<string>, events: seq<Event>)
    requires Serial(Start(now, left), events)
    requires var s := Run(Start(now, left), events); Quiet(s) && !s.shared.pending
    ensures var s := Run(Start(now, left), events); forall id <- s.shared.records :: id in s.inherited
  {
    var s := Run(Start(now, left), events);
    SerialRunsHaveNoOrphans(now, left, events);
    RunKeepsInvariant(Start(now, left), events);
    forall id | id in s.shared.records ensures id in s.inherited {
      assert FiledAt(s, id);
    }
  }

  // a is a service.restart, b a machine.reboot with a delay of one minute.

  const MINUTE_REBOOT := 60 + REBOOT_GRACE

  function BothAdmitted(a: string, b: string): System {
    Start(0, []).(phases := map[a := Admitted, b := Admitted])
  }

  function BothRecorded(a: string, b: string): System {
    BothAdmitted(a, b).(phases := map[a := Recorded, b := Recorded], shared := Shared(0, false, None, "", [a, b]))
  }

  function BothCommitted(a: string, b: string): System {
    BothRecorded(a, b).(phases := map[a := Committing, b := Committing],
      shared := Shared(0, true, Some(MINUTE_REBOOT), b, [a, b]),
      deadlines := map[a := RESTART_GRACE, b := MINUTE_REBOOT], orphans := {a})
  }

  lemma AdmitBoth(a: string, b: string)
    requires a != b && a != "" && b != ""
    ensures Next(Next(Start(0, []), Admit(a)), Admit(b)) == BothAdmitted(a, b)
  {}

  lemma RecordBoth(a: string, b: string)
    requires a != b
    ensures Next(Next(BothAdmitted(a, b), Record(a, true)), Record(b, true)) == BothRecorded(a, b)
  {}

  lemma CommitBoth(a: string, b: string)
    requires a != b
    ensures Next(Next(BothRecorded(a, b), Commit(a, RESTART_GRACE)), Commit(b, MINUTE_REBOOT)) == BothCommitted(a, b)
  {}

  /** A restart and a reboot in a minute, admitted before either commits, are both committed. */
  lemma OverlappingCommits(a: string, b: string)
    requires a != b && a != "" && b != ""
    ensures Run(Start(0, []), [Admit(a), Admit(b), Record(a, true), Record(b, true),
                               Commit(a, RESTART_GRACE), Commit(b, MINUTE_REBOOT)])
         == BothCommitted(a, b)
  {
    hide Run, Next, Start, BothAdmitted, BothRecorded, BothCommitted;
    var s0 := Start(0, []);
    AdmitBoth(a, b);
    RecordBoth(a, b);
    CommitBoth(a, b);
    var e2 := [] + [Admit(a), Admit(b)];
    var e4 := e2 + [Record(a, true), Record(b, true)];
    RunNothing(s0);
    TwoMore(s0, [], Admit(a), Admit(b));
    TwoMore(s0, e2, Record(a, true), Record(b, true));
    TwoMore(s0, e4, Commit(a, RESTART_GRACE), Commit(b, MINUTE_REBOOT));
    assert e4 + [Commit(a, RESTART_GRACE), Commit(b, MINUTE_REBOOT)]
        == [Admit(a), Admit(b), Record(a, true), Record(b, true), Commit(a, RESTART_GRACE), Commit(b, MINUTE_REBOOT)];
  }

  /** After both deadlines the record of the first one is still on disk. */
  lemma OverlapLeavesRecord(a: string, b: string)
    requires a != b && a != "" && b != ""
    ensures var s := Run(BothCommitted(a, b), [Act(a, true), Act(b, true), Tick(MINUTE_REBOOT), Peek]);
      Quiet(s) && !s.shared.pending && s.acted == {a, b} && a in s.shared.records && b !in s.shared.records
  {
    hide Run;
    var s0 := BothCommitted(a, b);
    var s2 := s0.(phases := map[a := Done, b := Done], acted := {a, b});
    assert Next(Next(s0, Act(a, true)), Act(b, true)) == s2;
    var e2 := [] + [Act(a, true), Act(b, true)];
    RunNothing(s0);
    TwoMore(s0, [], Act(a, true), Act(b, true));
    TwoMore(s0, e2, Tick(MINUTE_REBOOT), Peek);
    assert e2 + [Tick(MINUTE_REBOOT), Peek] == [Act(a, true), Act(b, true), Tick(MINUTE_REBOOT), Peek];
  }

  lemma RunNothing(s: System)
    ensures Run(s, []) == s
  {}

  lemma TwoMore(s: System, events: seq<Event>, e: Event, f: Event)
    ensures Run(s, events + [e, f]) == Next(Next(Run(s, events), e), f)
  {
    assert events + [e, f] == events + [e] + [f];
    RunAppend(s, events, e);
    RunAppend(s, events + [e], f);
  }
}
