/** Across a restart: the ids a process leaves on disk when a restart or reboot takes it down, and the ring
    its successor seeds from them before it connects (seedCommandRing, internal/service/clientcmd.go). */
module RestartDedupe {
  import opened Json
  import opened PowerGate
  import opened PowerProtocol
  import opened PowerHistory
  import Records
  import Ring = CommandRing

  lemma DistinctStep(s: System, e: Event)
    requires Invariant(s) && Records.Distinct(s.shared.records)
    ensures Records.Distinct(Next(s, e).shared.records)
  {
    Records.WithoutKeepsDistinct(s.shared.records, SAME, s.shared.commandId);
    match e
    case Record(id, _) => assert FiledAt(s, id);
    case Remove(id) => Records.WithoutKeepsDistinct(s.shared.records, SAME, id);
    case _ =>
  }

  lemma {:induction false} RecordsStayDistinct(s: System, events: seq<Event>)
    requires Invariant(s) && Records.Distinct(s.shared.records)
    ensures Records.Distinct(Run(s, events).shared.records)
    decreases |events|
  {
    if events != [] {
      var init := events[..|events| - 1];
      RecordsStayDistinct(s, init);
      RunKeepsInvariant(s, init);
      DistinctStep(Run(s, init), events[|events| - 1]);
    }
  }

  /** What the next process reads of the records, and the ring it seeds from them. */
  function Read(records: seq<string>, loaded: bool): seq<string> {
    if loaded then records else []
  }

  function NextRing(records: seq<string>, loaded: bool, deliveries: seq<Ring.Event>): Ring.Ring {
    Ring.After(Ring.Seeded(Ring.EMPTY, Read(records, loaded)), deliveries)
  }

  /** An id on disk, once read, is confirmed as a duplicate and not executed while fewer than 64 newer ids have
      followed it, whatever is delivered in between. */
  lemma RecordedIsDuplicate(records: seq<string>, id: string, deliveries: seq<Ring.Event>, verdict: Ring.Verdict)
    requires Records.Distinct(records) && id in records && id != ""
    ensures var ring := NextRing(records, true, deliveries);
      var newest := |Ring.History(Ring.SeedHistory(records), deliveries)| - 1;
      exists i :: 0 <= i < |records| && records[i] == id &&
        (newest - i < Ring.SIZE ==>
          && Ring.AnswerTo(ring, id, verdict).Accepts? && Ring.AnswerTo(ring, id, verdict).duplicate
          && Ring.Delivered(ring, id, verdict) == ring)
  {
    var i :| 0 <= i < |records| && records[i] == id;
    if |Ring.History(Ring.SeedHistory(records), deliveries)| - 1 - i < Ring.SIZE {
      Ring.SeededIdIsDuplicate(records, deliveries, i, verdict);
    }
  }

  /** Whatever the interleaving, a command whose restart or reboot was attempted or has gone through when the process
      went down, told again to the next process, is taken for a new one exactly when the records could not be read
      or its flag had expired, that is, somebody had read the flag at or past its deadline while it held it. The
      ring has not pushed anything out yet. */
  lemma RepeatedExactlyWhen(now: int, left: seq<string>, events: seq<Event>, id: string, loaded: bool,
                            deliveries: seq<Ring.Event>)
    requires Records.Distinct(left) && Attempted(Run(Start(now, left), events), id)
    requires Ring.Untold(deliveries, id)
    requires var read := Read(Run(Start(now, left), events).shared.records, loaded);
      |Ring.History(Ring.SeedHistory(read), deliveries)| <= Ring.SIZE
    ensures var ring := NextRing(Run(Start(now, left), events).shared.records, loaded, deliveries);
      (Ring.AnswerTo(ring, id, Ring.Execute) == Ring.Accepts(false, None))
      <==> !loaded || Expired(Start(now, left), events, id)
  {
    hide Run, Expired, Ring.History, Ring.After;
    var records := Run(Start(now, left), events).shared.records;
    RunKeepsInvariant(Start(now, left), events);
    RecordsStayDistinct(Start(now, left), events);
    RecordedExactlyUnlessExpired(now, left, events, id);
    if loaded && id in records {
      RecordedIsDuplicate(records, id, deliveries, Ring.Execute);
    } else {
      Ring.UnseededIdIsNew(Read(records, loaded), deliveries, id);
    }
  }

  /** An attempted, unexpired command is not acted on again: its id is on disk when the process goes down, and the
      next process confirms it as a duplicate while fewer than 64 newer ids have followed it. */
  lemma CommandIsNotRepeated(now: int, left: seq<string>, events: seq<Event>, id: string,
                             deliveries: seq<Ring.Event>, verdict: Ring.Verdict)
    requires Records.Distinct(left) && Attempted(Run(Start(now, left), events), id)
    ensures var records := Run(Start(now, left), events).shared.records;
      id in records <==> !Expired(Start(now, left), events, id)
    ensures var records := Run(Start(now, left), events).shared.records;
      var ring := NextRing(records, true, deliveries);
      var newest := |Ring.History(Ring.SeedHistory(records), deliveries)| - 1;
      !Expired(Start(now, left), events, id) ==>
        exists i :: 0 <= i < |records| && records[i] == id &&
          (newest - i < Ring.SIZE ==>
            && Ring.AnswerTo(ring, id, verdict).Accepts? && Ring.AnswerTo(ring, id, verdict).duplicate
            && Ring.Delivered(ring, id, verdict) == ring)
  {
    hide Run, Expired;
    RunKeepsInvariant(Start(now, left), events);
    RecordsStayDistinct(Start(now, left), events);
    RecordedExactlyUnlessExpired(now, left, events, id);
    if !Expired(Start(now, left), events, id) {
      RecordedIsDuplicate(Run(Start(now, left), events).shared.records, id, deliveries, verdict);
    }
  }

  /** A reboot that went through, but only after a poll had read the flag past its grace, is executed again when it
      is told to the next process. */
  lemma SlowRebootIsRepeated(id: string)
    requires id != ""
    ensures var s := Run(Start(0, []), [Admit(id), Record(id, true), Commit(id, MINUTE_REBOOT), Act(id, true),
                                        Tick(MINUTE_REBOOT), Peek]);
      && id in s.acted
      && Ring.AnswerTo(NextRing(s.shared.records, true, []), id, Ring.Execute) == Ring.Accepts(false, None)
  {
    SlowRebootLosesRecord(id);
    hide Run;
    var s := Run(Start(0, []), [Admit(id), Record(id, true), Commit(id, MINUTE_REBOOT), Act(id, true),
                                Tick(MINUTE_REBOOT), Peek]);
    Ring.UnseededIdIsNew(s.shared.records, [], id);
  }
}
