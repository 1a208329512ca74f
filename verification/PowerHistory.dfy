/** What the flag and the records of a run say about how it came there: who expired, who took the flag from whom
    (internal/service/clientpower.go). */
module PowerHistory {
  import opened Json
  import opened PowerGate
  import opened PowerProtocol

  // ---- expiry ----

  predicate Reads(e: Event) {
    e.Peek? || e.Begin? || e.Admit?
  }

  /** Event k reads the flag at or past the deadline of the command id that holds it. */
  predicate ExpiresAt(s: System, events: seq<Event>, k: nat, id: string) {
    k < |events| &&
    var before := Run(s, events[..k]);
    Enabled(before, events[k]) && Reads(events[k]) && Due(before.shared, before.now) && before.shared.commandId == id
  }

  predicate Expired(s: System, events: seq<Event>, id: string) {
    exists k | 0 <= k < |events| :: ExpiresAt(s, events, k, id)
  }

  /** The last event either expires id or leaves its history as it was. */
  lemma ExpiredOneMore(s: System, events: seq<Event>, id: string)
    requires events != []
    ensures var last := |events| - 1;
      Expired(s, events, id) <==> Expired(s, events[..last], id) || ExpiresAt(s, events, last, id)
  {
    var last := |events| - 1;
    forall k | 0 <= k < last ensures ExpiresAt(s, events, k, id) <==> ExpiresAt(s, events[..last], k, id) {
      assert events[..last][..k] == events[..k];
    }
  }

  /** The command's restart or reboot is being attempted or has gone through. */
  predicate Attempted(s: System, id: string) {
    PowerProtocol.At(s, id, Committing) || id in s.acted
  }

  ghost predicate HeldUnless(s: System, id: string, expired: bool) {
    && (expired ==> id in s.deadlines)
    && (Attempted(s, id) ==> (Held(s, id) <==> !expired))
  }

  lemma HeldUnlessAtRead(s: System, e: Event, id: string, expired: bool)
    requires Counted(s) && Owned(s) && HeldUnless(s, id, expired) && Reads(e)
    ensures HeldUnless(Next(s, e), id,
      expired || (Enabled(s, e) && Due(s.shared, s.now) && s.shared.commandId == id))
  {
    hide Without;
  }

  lemma HeldUnlessAtFlag(s: System, e: Event, id: string, expired: bool)
    requires Counted(s) && Owned(s) && HeldUnless(s, id, expired) && MovesFlag(e)
    ensures HeldUnless(Next(s, e), id, expired)
  {
    hide Without, Settled, Begun;
  }

  lemma HeldUnlessStep(s: System, e: Event, id: string, expired: bool)
    requires Counted(s) && Owned(s) && HeldUnless(s, id, expired) && !Reads(e)
    ensures HeldUnless(Next(s, e), id, expired)
  {
    hide Without, Settled, Begun;
    if MovesFlag(e) {
      HeldUnlessAtFlag(s, e, id, expired);
      hide HeldUnless, Next;
    }
  }

  lemma {:induction false} HeldUnlessExpired(now: int, left: seq<string>, events: seq<Event>, id: string)
    ensures HeldUnless(Run(Start(now, left), events), id, Expired(Start(now, left), events, id))
    decreases |events|
  {
    if events != [] {
      hide HeldUnless, Next, Owned, Filed, Expired;
      var start, init, e := Start(now, left), events[..|events| - 1], events[|events| - 1];
      HeldUnlessExpired(now, left, init, id);
      RunKeepsInvariant(start, init);
      ExpiredOneMore(start, events, id);
      if Reads(e) {
        HeldUnlessAtRead(Run(start, init), e, id, Expired(start, init, id));
      } else {
        HeldUnlessStep(Run(start, init), e, id, Expired(start, init, id));
      }
    }
  }

  /** When its restart or reboot is attempted, and ever after it went through, a command's id is on disk exactly when
      nobody has read the flag at or past its deadline while it held it. */
  lemma RecordedExactlyUnlessExpired(now: int, left: seq<string>, events: seq<Event>, id: string)
    requires Attempted(Run(Start(now, left), events), id)
    ensures var s := Run(Start(now, left), events);
      && (id in s.shared.records <==> Held(s, id))
      && (id in s.shared.records <==> !Expired(Start(now, left), events, id))
  {
    RunKeepsInvariant(Start(now, left), events);
    HeldUnlessExpired(now, left, events, id);
    assert FiledAt(Run(Start(now, left), events), id);
    hide Expired, Run;
  }

  /** In particular: the moment the action is about to be attempted. */
  lemma ActsRecordedExactlyUnlessExpired(now: int, left: seq<string>, events: seq<Event>, id: string, ok: bool)
    requires Enabled(Run(Start(now, left), events), Act(id, ok))
    ensures id in Run(Start(now, left), events).shared.records <==> !Expired(Start(now, left), events, id)
  {
    RecordedExactlyUnlessExpired(now, left, events, id);
  }

  /** The id is committed and its action not yet attempted at its deadline, when a poll reads the flag: the action is
      then attempted without a record. */
  lemma ActsUnrecorded(id: string)
    requires id != ""
    ensures var s := Run(Start(0, []), [Admit(id), Record(id, true), Commit(id, RESTART_GRACE),
                                        Tick(RESTART_GRACE), Peek]);
      Enabled(s, Act(id, true)) && id !in s.shared.records
  {
    hide Run, Start;
    Committed(id, RESTART_GRACE);
    var e3 := [Admit(id), Record(id, true)] + [Commit(id, RESTART_GRACE)];
    TwoMore(Start(0, []), e3, Tick(RESTART_GRACE), Peek);
    assert e3 + [Tick(RESTART_GRACE), Peek]
        == [Admit(id), Record(id, true), Commit(id, RESTART_GRACE), Tick(RESTART_GRACE), Peek];
  }

  /** A reboot whose shutdown takes longer than its grace: it went through and no record is left of it. */
  lemma SlowRebootLosesRecord(id: string)
    requires id != ""
    ensures var s := Run(Start(0, []), [Admit(id), Record(id, true), Commit(id, MINUTE_REBOOT), Act(id, true),
                                        Tick(MINUTE_REBOOT), Peek]);
      id in s.acted && id !in s.shared.records
  {
    hide Run, Start;
    Committed(id, MINUTE_REBOOT);
    var e3 := [Admit(id), Record(id, true)] + [Commit(id, MINUTE_REBOOT)];
    RunAppend(Start(0, []), e3, Act(id, true));
    TwoMore(Start(0, []), e3 + [Act(id, true)], Tick(MINUTE_REBOOT), Peek);
    assert e3 + [Act(id, true)] + [Tick(MINUTE_REBOOT), Peek]
        == [Admit(id), Record(id, true), Commit(id, MINUTE_REBOOT), Act(id, true), Tick(MINUTE_REBOOT), Peek];
  }

  function OneCommitted(id: string, grace: nat): System {
    System(0, Shared(0, true, Some(grace), id, [id]), Idle, 0, map[id := Committing], map[id := grace], {}, {}, {})
  }

  lemma Committed(id: string, grace: nat)
    requires id != ""
    ensures Run(Start(0, []), [Admit(id), Record(id, true)] + [Commit(id, grace)]) == OneCommitted(id, grace)
  {
    hide Run;
    RunNothing(Start(0, []));
    TwoMore(Start(0, []), [], Admit(id), Record(id, true));
    RunAppend(Start(0, []), [] + [Admit(id), Record(id, true)], Commit(id, grace));
    assert [] + [Admit(id), Record(id, true)] == [Admit(id), Record(id, true)];
  }

  // ---- overlapping commits ----

  predicate AdmitsAt(s: System, events: seq<Event>, k: nat, id: string) {
    k < |events| && events[k] == Admit(id) && Enabled(Run(s, events[..k]), events[k])
  }

  predicate CommitsAt(s: System, events: seq<Event>, j: nat, id: string) {
    j < |events| && events[j].Commit? && events[j].id == id &&
    Enabled(Run(s, events[..j]), events[j]) && Run(s, events[..j]).shared.installing <= 0
  }

  /** The command other was committed after id had been admitted. */
  ghost predicate CommittedAfterAdmission(s: System, events: seq<Event>, id: string, other: string) {
    exists k, j | 0 <= k < j < |events| :: AdmitsAt(s, events, k, id) && CommitsAt(s, events, j, other)
  }

  lemma AtInPrefix(s: System, events: seq<Event>, k: nat, id: string)
    requires k < |events| - 1
    ensures AdmitsAt(s, events, k, id) <==> AdmitsAt(s, events[..|events| - 1], k, id)
    ensures CommitsAt(s, events, k, id) <==> CommitsAt(s, events[..|events| - 1], k, id)
  {
    assert events[..|events| - 1][..k] == events[..k];
  }

  lemma {:induction false} AdmittedSometime(now: int, left: seq<string>, events: seq<Event>, id: string)
    requires id in Run(Start(now, left), events).phases
    ensures exists k | 0 <= k < |events| :: AdmitsAt(Start(now, left), events, k, id)
    decreases |events|
  {
    var start := Start(now, left);
    if events != [] {
      var init := events[..|events| - 1];
      if id in Run(start, init).phases {
        AdmittedSometime(now, left, init, id);
        var k :| 0 <= k < |init| && AdmitsAt(start, init, k, id);
        AtInPrefix(start, events, k, id);
      } else {
        PhasesGrow(Run(start, init), events[|events| - 1], id);
        assert AdmitsAt(start, events, |events| - 1, id);
      }
    }
  }

  lemma PhasesGrow(s: System, e: Event, id: string)
    requires id !in s.phases && id in Next(s, e).phases
    ensures e == Admit(id) && Enabled(s, e)
  {}

  /** A flag that is up after a step was up before it, for the same command, or that command just committed. */
  lemma FlagComesFromCommit(s: System, e: Event)
    requires Next(s, e).shared.pending
    ensures var other := Next(s, e).shared.commandId;
      || (s.shared.pending && s.shared.commandId == other && !(e.Admit? && Enabled(s, e)))
      || (e.Commit? && e.id == other && Enabled(s, e) && s.shared.installing <= 0)
  {
    hide Without;
  }

  /** Whoever holds the flag committed after every other command of the process had been admitted. */
  lemma {:induction false} HolderCommittedLater(now: int, left: seq<string>, events: seq<Event>, id: string)
    requires var s := Run(Start(now, left), events); id in s.phases && s.shared.pending
    ensures CommittedAfterAdmission(Start(now, left), events, id, Run(Start(now, left), events).shared.commandId)
    decreases |events|
  {
    var start := Start(now, left);
    if events != [] {
      hide Next, Enabled;
      var init, e := events[..|events| - 1], events[|events| - 1];
      var before, other := Run(start, init), Run(start, events).shared.commandId;
      FlagComesFromCommit(before, e);
      if id !in before.phases {
        PhasesGrow(before, e, id);
      }
      if before.shared.pending && before.shared.commandId == other && !(e.Admit? && Enabled(before, e)) {
        HolderCommittedLater(now, left, init, id);
        var k, j :| 0 <= k < j < |init| && AdmitsAt(start, init, k, id) && CommitsAt(start, init, j, other);
        AtInPrefix(start, events, k, id);
        AtInPrefix(start, events, j, other);
      } else {
        AdmittedSometime(now, left, init, id);
        var k :| 0 <= k < |init| && AdmitsAt(start, init, k, id);
        AtInPrefix(start, events, k, id);
        assert CommitsAt(start, events, |init|, other);
      }
    }
  }

  /** A commit takes the flag from another command exactly when that one committed after this one had been admitted
      and its flag is still up. */
  lemma CommitTakesFlagExactlyWhen(now: int, left: seq<string>, events: seq<Event>, id: string, grace: nat,
                                   other: string)
    requires var s := Run(Start(now, left), events); Enabled(s, Commit(id, grace)) && s.shared.installing <= 0
    ensures var s := Run(Start(now, left), events);
      other in Next(s, Commit(id, grace)).orphans - s.orphans
      <==> CommittedAfterAdmission(Start(now, left), events, id, other)
           && s.shared.pending && s.shared.commandId == other
  {
    RunKeepsInvariant(Start(now, left), events);
    var s := Run(Start(now, left), events);
    if s.shared.pending {
      HolderCommittedLater(now, left, events, id);
    }
    hide CommittedAfterAdmission, Run, Filed;
  }
}
