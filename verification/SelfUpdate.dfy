/** The updater updating itself: the rules (internal/selfupdate/selfupdate.go) and the cycle that records an
    attempt before it launches a setup whose outcome it never sees (internal/service/selfupdate.go). */
module SelfUpdate {
  import opened Json

  const MAX_ATTEMPTS := 3
  const COOLDOWN := 600

  /** manifest.Less; None when a version does not parse. */
  type Order = (string, string) -> Option<bool>

  datatype Record = Record(version: string, fromVersion: string, attempts: nat, gaveUp: bool, launchedAt: int)

  datatype Outcome = NoRecord | Landed | Missed | Invalid

  function Reconcile(less: Order, running: string, rec: Option<Record>): Outcome {
    if rec.None? || rec.value.version == "" then NoRecord
    else match less(running, rec.value.version)
      case None => Invalid
      case Some(behind) => if behind then Missed else Landed
  }

  datatype Decision = Skip | Install(attempt: nat) | GiveUp | Fail

  /** offered is the version the manifest carries, "" when none is published. */
  function Decide(less: Order, running: string, offered: string, rec: Option<Record>, now: int): Decision {
    if offered == "" then Skip
    else match less(running, offered)
      case None => Fail
      case Some(newer) =>
        if !newer then Skip
        else if rec.None? || rec.value.version != offered then Install(1)
        else if rec.value.gaveUp then Skip
        else if rec.value.attempts >= MAX_ATTEMPTS then GiveUp
        else if now - rec.value.launchedAt < COOLDOWN then Skip
        else Install(rec.value.attempts + 1)
  }

  /** Everything one cycle meets: the build that runs it, and how each foreign step goes. */
  datatype Cycle = Cycle(running: string, enabled: bool, readOk: bool, clearOk: bool, manifest: Option<string>,
    ensureOk: bool, verifyOk: bool, gateOk: bool, writeOk: bool, decidedAt: int, recordedAt: int)

  /** One launch of a setup, with the state file as it was at that moment. */
  datatype Launch = Launch(version: string, running: string, attempt: nat, decidedAt: int, onDisk: Option<Record>)

  /** What outlives every process: the state file's record, and the history of launches. */
  datatype World = World(disk: Option<Record>, launches: seq<Launch>)

  /** The record Decide sees, and the disk after reconciling. */
  function Reconciled(less: Order, disk: Option<Record>, c: Cycle): (Option<Record>, Option<Record>) {
    if !c.readOk then (None, disk)
    else match Reconcile(less, c.running, disk)
      case NoRecord => (disk, disk)
      case Missed => (disk, disk)
      case _ => (None, if c.clearOk then None else disk)
  }

  function After(less: Order, w: World, c: Cycle): World {
    if !c.enabled then w
    else
      var (rec, disk) := Reconciled(less, w.disk, c);
      if c.manifest.None? then World(disk, w.launches)
      else
        match Decide(less, c.running, c.manifest.value, rec, c.decidedAt)
        case Skip => World(disk, w.launches)
        case Fail => World(disk, w.launches)
        case GiveUp =>
          World(if rec.Some? && c.writeOk then Some(rec.value.(gaveUp := true)) else disk, w.launches)
        case Install(attempt) =>
          if !(c.ensureOk && c.verifyOk && c.gateOk && c.writeOk) then World(disk, w.launches)
          else
            var next := Some(Record(c.manifest.value, c.running, attempt, false, c.recordedAt));
            World(next, w.launches + [Launch(c.manifest.value, c.running, attempt, c.decidedAt, next)])
  }

  class Updater {
    const less: Order
    var disk: Option<Record>
    var launches: seq<Launch>

    ghost function State(): World
      reads this
    {
      World(disk, launches)
    }

    constructor (less: Order, disk: Option<Record>)
      ensures this.less == less && State() == World(disk, [])
    {
      this.less, this.disk, launches := less, disk, [];
    }

    method ReconcileSelfUpdate(c: Cycle) returns (rec: Option<Record>)
      modifies this`disk
      ensures (rec, disk) == Reconciled(less, old(disk), c)
    {
      if !c.readOk {
        return None;
      }
      rec := disk;
      var outcome := Reconcile(less, c.running, rec);
      if outcome.Invalid? || outcome.Landed? {
        if c.clearOk {
          disk := None;
        }
        return None;
      }
    }

    /** applySelfUpdate: nothing is launched that was not recorded first; a failed launch keeps its record. */
    method ApplySelfUpdate(c: Cycle, attempt: nat)
      requires c.manifest.Some?
      modifies this
      ensures State() == if !(c.ensureOk && c.verifyOk && c.gateOk && c.writeOk) then old(State())
        else
          var next := Some(Record(c.manifest.value, c.running, attempt, false, c.recordedAt));
          World(next, old(launches) + [Launch(c.manifest.value, c.running, attempt, c.decidedAt, next)])
    {
      if !c.ensureOk || !c.verifyOk || !c.gateOk {
        return;
      }
      var rec := Record(c.manifest.value, c.running, attempt, false, c.recordedAt);
      if !c.writeOk {
        return;
      }
      disk := Some(rec);
      launches := launches + [Launch(c.manifest.value, c.running, attempt, c.decidedAt, disk)];
    }

    method SelfUpdate(c: Cycle)
      modifies this
      ensures State() == After(less, old(State()), c)
    {
      if !c.enabled {
        return;
      }
      var rec := ReconcileSelfUpdate(c);
      if c.manifest.None? {
        return;
      }
      var decision := Decide(less, c.running, c.manifest.value, rec, c.decidedAt);
      match decision {
        case Skip =>
        case Fail =>
        case GiveUp =>
          if rec.Some? && c.writeOk {
            disk := Some(rec.value.(gaveUp := true));
          }
        case Install(attempt) =>
          ApplySelfUpdate(c, attempt);
      }
    }
  }

  // ---- whole runs, across restarts and whatever builds they bring up ----

  function Run(less: Order, w: World, cycles: seq<Cycle>): World
    decreases |cycles|
  {
    if cycles == [] then w else After(less, Run(less, w, cycles[..|cycles| - 1]), cycles[|cycles| - 1])
  }

  /** Every launch installs a strictly newer build than the one running, and its attempt is already on disk. */
  lemma {:induction false} LaunchesAreNewerAndRecorded(less: Order, disk: Option<Record>, cycles: seq<Cycle>)
    ensures forall l <- Run(less, World(disk, []), cycles).launches ::
      && less(l.running, l.version) == Some(true)
      && l.onDisk.Some? && l.onDisk.value.version == l.version && l.onDisk.value.attempts == l.attempt
      && l.onDisk.value.fromVersion == l.running
    decreases |cycles|
  {
    if cycles != [] {
      LaunchesAreNewerAndRecorded(less, disk, cycles[..|cycles| - 1]);
    }
  }

  /** The manifest offers v or nothing, and every build that runs is older than v. */
  predicate Targets(less: Order, c: Cycle, v: string) {
    (c.manifest.Some? ==> c.manifest.value in {"", v}) && less(c.running, v) == Some(true)
  }

  predicate AllTarget(less: Order, cycles: seq<Cycle>, v: string) {
    forall c <- cycles :: Targets(less, c, v)
  }

  function FailedReads(cycles: seq<Cycle>): nat
    decreases |cycles|
  {
    if cycles == [] then 0
    else FailedReads(cycles[..|cycles| - 1]) + if cycles[|cycles| - 1].readOk then 0 else 1
  }

  function AttemptsOn(disk: Option<Record>, v: string): nat {
    if disk.None? || disk.value.version != v then 0
    else if disk.value.attempts > MAX_ATTEMPTS then MAX_ATTEMPTS else disk.value.attempts
  }

  lemma {:induction false} LaunchBudget(less: Order, disk: Option<Record>, cycles: seq<Cycle>, v: string)
    requires v != "" && AllTarget(less, cycles, v)
    ensures var w := Run(less, World(disk, []), cycles);
      |w.launches| <= MAX_ATTEMPTS * FailedReads(cycles) + AttemptsOn(w.disk, v)
    decreases |cycles|
  {
    if cycles != [] {
      var c := cycles[|cycles| - 1];
      LaunchBudget(less, disk, cycles[..|cycles| - 1], v);
      assert Targets(less, c, v);
    }
  }

  /** A release that never comes up is launched at most three times over all cycles and restarts, plus
      three for every cycle that could not read the state file. */
  lemma LaunchesAreBounded(less: Order, disk: Option<Record>, cycles: seq<Cycle>, v: string)
    requires v != "" && AllTarget(less, cycles, v)
    ensures |Run(less, World(disk, []), cycles).launches| <= MAX_ATTEMPTS * (FailedReads(cycles) + 1)
    ensures FailedReads(cycles) == 0 ==> |Run(less, World(disk, []), cycles).launches| <= MAX_ATTEMPTS
  {
    LaunchBudget(less, disk, cycles, v);
  }

  /** While reads succeed, each launch is decided at least the cooldown after the previous one was recorded. */
  lemma {:induction false} LaunchesCoolDown(less: Order, disk: Option<Record>, cycles: seq<Cycle>, v: string)
    requires v != "" && AllTarget(less, cycles, v) && FailedReads(cycles) == 0
    ensures var w := Run(less, World(disk, []), cycles);
      && (forall l <- w.launches :: l.onDisk.Some?)
      && (w.launches == [] || (w.disk.Some? && w.disk.value.version == v
            && w.disk.value.launchedAt == w.launches[|w.launches| - 1].onDisk.value.launchedAt))
      && forall i | 0 < i < |w.launches| ::
           w.launches[i].decidedAt - w.launches[i - 1].onDisk.value.launchedAt >= COOLDOWN
    decreases |cycles|
  {
    if cycles != [] {
      var c := cycles[|cycles| - 1];
      LaunchesCoolDown(less, disk, cycles[..|cycles| - 1], v);
      assert Targets(less, c, v);
    }
  }

  /** An unreadable state file forgets the count: after a give-up, one failed read launches again. */
  lemma FailedReadForgets(less: Order, v: string, running: string, at: int)
    requires v != "" && less(running, v) == Some(true)
    ensures var given := World(Some(Record(v, running, MAX_ATTEMPTS, true, at)), []);
      var c := Cycle(running, true, false, true, Some(v), true, true, true, true, at, at);
      && |After(less, given, c).launches| == 1
      && After(less, given, c.(readOk := true)).launches == []
  {}

  /** Once given up, a release is left alone for as long as it is the one offered and reads succeed. */
  lemma {:induction false} GivenUpStaysQuiet(less: Order, w: World, cycles: seq<Cycle>, v: string)
    requires v != "" && AllTarget(less, cycles, v) && FailedReads(cycles) == 0
    requires w.disk.Some? && w.disk.value.version == v && w.disk.value.gaveUp
    ensures Run(less, w, cycles) == w
    decreases |cycles|
  {
    if cycles != [] {
      GivenUpStaysQuiet(less, w, cycles[..|cycles| - 1], v);
      assert Targets(less, cycles[|cycles| - 1], v);
    }
  }

  /** A cycle on which v is offered and nothing foreign fails. */
  predicate Smooth(less: Order, c: Cycle, v: string) {
    && c.enabled && c.readOk && c.manifest == Some(v) && less(c.running, v) == Some(true)
    && c.ensureOk && c.verifyOk && c.gateOk && c.writeOk
  }

  predicate SmoothAndCooled(less: Order, cycles: seq<Cycle>, v: string) {
    && (forall c <- cycles :: Smooth(less, c, v))
    && forall i | 0 < i < |cycles| :: cycles[i].decidedAt - cycles[i - 1].recordedAt >= COOLDOWN
  }

  /** A release starts with a clean count whatever became of the one before it: from any record of another version,
      given up or not, a smooth cycle that offers v launches v as attempt 1 and records that. */
  lemma NewReleaseStartsFresh(less: Order, w: World, c: Cycle, v: string)
    requires v != "" && Smooth(less, c, v) && (w.disk.Some? ==> w.disk.value.version != v)
    ensures var rec := Record(v, c.running, 1, false, c.recordedAt);
      After(less, w, c) == World(Some(rec), w.launches + [Launch(v, c.running, 1, c.decidedAt, Some(rec))])
  {}

  /** The rules never hold a release back for longer than they must: whatever is on disk about other releases, one that
      fails to come up is launched on each of the first three cooled-down cycles, given up on the fourth, and what is
      on disk says so. */
  lemma {:induction false} ReleaseIsTriedThreeTimes(less: Order, disk: Option<Record>, cycles: seq<Cycle>, v: string)
    requires v != "" && SmoothAndCooled(less, cycles, v) && (disk.Some? ==> disk.value.version != v)
    ensures var w, n := Run(less, World(disk, []), cycles), if |cycles| < MAX_ATTEMPTS then |cycles| else MAX_ATTEMPTS;
      && |w.launches| == n && (forall i | 0 <= i < n :: w.launches[i].attempt == i + 1)
      && w.disk == if n == 0 then disk
                   else Some(Record(v, cycles[n - 1].running, n, |cycles| > MAX_ATTEMPTS, cycles[n - 1].recordedAt))
    decreases |cycles|
  {
    if cycles != [] {
      var c, init := cycles[|cycles| - 1], cycles[..|cycles| - 1];
      ReleaseIsTriedThreeTimes(less, disk, init, v);
      assert Smooth(less, c, v);
      if init == [] {
        assert Run(less, World(disk, []), init) == World(disk, []);
        NewReleaseStartsFresh(less, World(disk, []), c, v);
      }
    }
  }

  /** A record that lets v be launched now: none of v, or one that has attempts left and has cooled down. */
  predicate LeavesRoom(disk: Option<Record>, v: string, at: int) {
    disk.Some? && disk.value.version == v ==>
      !disk.value.gaveUp && disk.value.attempts < MAX_ATTEMPTS && at - disk.value.launchedAt >= COOLDOWN
  }

  /** On a cycle that can read the state file, a setup is launched exactly when self-update is on, the manifest offers a
      version newer than the running build, everything needed for the launch goes well, and the record on disk
      leaves room for it. */
  lemma LaunchesExactlyWhen(less: Order, w: World, c: Cycle)
    requires c.readOk
    ensures After(less, w, c).launches != w.launches <==>
      && c.enabled && c.manifest.Some? && c.manifest.value != "" && less(c.running, c.manifest.value) == Some(true)
      && c.ensureOk && c.verifyOk && c.gateOk && c.writeOk
      && LeavesRoom(w.disk, c.manifest.value, c.decidedAt)
    ensures After(less, w, c).launches != w.launches ==>
      var launch := Launch(c.manifest.value, c.running, if w.disk.Some? && w.disk.value.version == c.manifest.value
                           then w.disk.value.attempts + 1 else 1, c.decidedAt, After(less, w, c).disk);
      After(less, w, c).launches == w.launches + [launch]
  {}

  /** A cycle that launches nothing changes the record in two ways only: a record the build has caught up with, or whose
      version does not parse, is cleared if that succeeds, and one of the offered release without attempts left is
      marked as given up if that can be written. */
  lemma RecordWithoutLaunch(less: Order, w: World, c: Cycle)
    requires After(less, w, c).launches == w.launches
    ensures After(less, w, c).disk ==
      if !c.enabled || !c.readOk || w.disk.None? || w.disk.value.version == "" then w.disk
      else if less(c.running, w.disk.value.version) != Some(true) then if c.clearOk then None else w.disk
      else if c.manifest == Some(w.disk.value.version) && w.disk.value.attempts >= MAX_ATTEMPTS && c.writeOk
      then Some(w.disk.value.(gaveUp := true))
      else w.disk
  {}

  /** One build runs all cycles, each of which can read and clear the record, and nothing but v is offered. */
  predicate OneBuild(cycles: seq<Cycle>, running: string, v: string) {
    forall c <- cycles ::
      && c.running == running && c.enabled && c.readOk && c.clearOk
      && (c.manifest.Some? ==> c.manifest.value in {"", v})
  }

  /** Over any number of cycles of one build, the record of an attempt on v is gone for good exactly when that build
      is not older than v, whoever installed it, and then v is never launched again; otherwise v stays recorded. */
  lemma {:induction false} LandedExactlyWhenNotBehind(less: Order, rec: Record, running: string, cycles: seq<Cycle>)
    requires rec.version != "" && cycles != [] && OneBuild(cycles, running, rec.version)
    ensures var w, behind := Run(less, World(Some(rec), []), cycles), less(running, rec.version) == Some(true);
      && (w.disk.None? <==> !behind)
      && (w.disk.Some? ==> w.disk.value.version == rec.version)
      && (!behind ==> w.launches == [])
    decreases |cycles|
  {
    var init, c := cycles[..|cycles| - 1], cycles[|cycles| - 1];
    if init == [] {
      assert Run(less, World(Some(rec), []), init) == World(Some(rec), []);
    } else {
      LandedExactlyWhenNotBehind(less, rec, running, init);
    }
  }
}
