/** The gate between setups and service.restart / machine.reboot: the fields destructiveMu guards and the
    methods that change them (internal/service/clientpower.go), with the command ids state.json holds. */
module PowerGate {
  import opened Json
  import Records

  datatype Shared = Shared(installing: int, pending: bool, deadline: Option<int>, commandId: string,
    records: seq<string>)

  const RESTART_GRACE := 180
  const REBOOT_GRACE := 300
  const MIN_REBOOT_NOTICE := 60

  /** The records are ids. */
  const SAME: string -> string := id => id

  /** RemovePendingCommand. */
  function Without(records: seq<string>, id: string): seq<string> {
    Records.Without(records, SAME, id)
  }

  function Lowered(s: Shared): Shared {
    s.(pending := false, deadline := None, commandId := "")
  }

  predicate Due(s: Shared, now: int) {
    s.pending && s.deadline.Some? && s.deadline.value <= now
  }

  /** Reading the flag: a passed deadline lowers it and takes its record off the disk. */
  function Settled(s: Shared, now: int): Shared {
    if !Due(s, now) then s
    else Lowered(s).(records := if s.commandId == "" then s.records else Without(s.records, s.commandId))
  }

  function Begun(s: Shared, now: int): Shared {
    var r := Settled(s, now);
    if r.pending then r else r.(installing := r.installing + 1)
  }

  function Committed(s: Shared, id: string, deadline: int): Shared {
    if s.installing > 0 then s else s.(pending := true, deadline := Some(deadline), commandId := id)
  }

  datatype Verb = Restart | Reboot(delay: nat)

  /** One attempt at the restart or reboot itself, with the ids on disk at that moment. */
  datatype Attempt = Attempt(id: string, records: seq<string>)

  class Updater {
    var installing: int
    var destructivePending: bool
    var destructiveDeadline: Option<int>
    var destructiveCommandId: string
    var records: seq<string>
    var attempts: seq<Attempt>

    ghost function State(): Shared
      reads this
    {
      Shared(installing, destructivePending, destructiveDeadline, destructiveCommandId, records)
    }

    constructor (records: seq<string>)
      ensures State() == Shared(0, false, None, "", records) && attempts == []
    {
      installing := 0;
      destructivePending, destructiveDeadline, destructiveCommandId := false, None, "";
      this.records, attempts := records, [];
    }

    method RemovePendingCommand(id: string)
      modifies this`records
      ensures records == Without(old(records), id)
    {
      records := Without(records, id);
    }

    method ClearDestructivePending()
      modifies this`destructivePending, this`destructiveDeadline, this`destructiveCommandId
      ensures State() == Lowered(old(State()))
    {
      destructivePending, destructiveDeadline, destructiveCommandId := false, None, "";
    }

    method DestructivePending(now: int) returns (pending: bool)
      modifies this`destructivePending, this`destructiveDeadline, this`destructiveCommandId, this`records
      ensures State() == Settled(old(State()), now)
      ensures pending == State().pending
    {
      if destructivePending && destructiveDeadline.Some? && !(now < destructiveDeadline.value) {
        var id := destructiveCommandId;
        ClearDestructivePending();
        if id != "" {
          RemovePendingCommand(id);
        }
      }
      return destructivePending;
    }

    method BeginInstall(now: int) returns (ok: bool)
      modifies this`installing, this`destructivePending, this`destructiveDeadline, this`destructiveCommandId
      modifies this`records
      ensures State() == Begun(old(State()), now)
      ensures ok <==> !State().pending
    {
      var pending := DestructivePending(now);
      if pending {
        return false;
      }
      installing := installing + 1;
      return true;
    }

    method EndInstall()
      modifies this`installing
      ensures State() == old(State()).(installing := old(installing) - 1)
    {
      installing := installing - 1;
    }

    method CommitDestructive(id: string, deadline: int) returns (ok: bool)
      modifies this`destructivePending, this`destructiveDeadline, this`destructiveCommandId
      ensures State() == Committed(old(State()), id, deadline)
      ensures ok <==> old(installing) <= 0
    {
      if installing > 0 {
        return false;
      }
      destructivePending, destructiveDeadline, destructiveCommandId := true, Some(deadline), id;
      return true;
    }

    /** The busy and user-active refusals; a command that is not destructive passes untouched. */
    method AdmitDestructive(destructive: bool, skipsForUser: bool, userActive: bool, now: int) returns (admitted: bool)
      modifies this`destructivePending, this`destructiveDeadline, this`destructiveCommandId, this`records
      ensures !destructive ==> admitted && State() == old(State())
      ensures destructive ==> State() == if old(installing) > 0 then old(State()) else Settled(old(State()), now)
      ensures destructive ==> (admitted <==> installing <= 0 && !State().pending && !(skipsForUser && userActive))
    {
      if !destructive {
        return true;
      }
      if installing > 0 {
        return false;
      }
      var pending := DestructivePending(now);
      return !pending && !(skipsForUser && userActive);
    }

    /** runDestructive: record, commit, act; whatever fails on the way takes the record back. The record
        is on disk whenever the action is attempted, and is left there exactly when the action went through. */
    method RunDestructive(id: string, verb: Verb, userActive: bool, now: int, recordOk: bool, actionOk: bool)
        returns (scheduled: bool)
      modifies this
      ensures installing == old(installing)
      ensures scheduled <==> recordOk && old(installing) <= 0 && actionOk
      ensures attempts == old(attempts) +
        if recordOk && old(installing) <= 0 then [Attempt(id, old(records) + [id])] else []
      ensures records == if scheduled then old(records) + [id]
                         else Without(old(records) + [id], id)
      ensures scheduled ==> destructivePending && destructiveCommandId == id && destructiveDeadline.Some?
      ensures scheduled ==> destructiveDeadline.value == now + match verb
                case Restart => RESTART_GRACE
                case Reboot(delay) =>
                  REBOOT_GRACE + if userActive && delay < MIN_REBOOT_NOTICE then MIN_REBOOT_NOTICE else delay
      ensures !scheduled && recordOk && old(installing) <= 0 ==> !destructivePending
      ensures !recordOk || old(installing) > 0 ==> destructivePending == old(destructivePending)
    {
      Records.WithoutLast(records, SAME, id);
      if !recordOk {
        RemovePendingCommand(id);
        return false;
      }
      records := records + [id];
      var deadline;
      match verb {
        case Restart =>
          deadline := now + RESTART_GRACE;
        case Reboot(requested) =>
          var delay := requested;
          if userActive && delay < MIN_REBOOT_NOTICE {
            delay := MIN_REBOOT_NOTICE;
          }
          deadline := now + delay + REBOOT_GRACE;
      }
      var ok := CommitDestructive(id, deadline);
      if !ok {
        RemovePendingCommand(id);
        return false;
      }
      attempts := attempts + [Attempt(id, records)];
      if !actionOk {
        ClearDestructivePending();
        RemovePendingCommand(id);
        return false;
      }
      return true;
    }
  }
}
