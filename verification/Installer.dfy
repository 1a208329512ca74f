/** Running setups: resumed pendings, the two install attempts with the forced re-download between them
    (internal/service/service.go), and the updater's own setup (internal/service/selfupdate.go). */
module Installer {
  import opened Json
  import opened Download

  datatype Entry = Entry(version: string, path: string, sha: string)

  /** The state file only ever names setups, never a partial download; being a type, this holds at every
      point where a crash may stop the process. */
  type Pending = p: Entry | IsSetup(p.path) witness Entry("", SUFFIX, "")

  /** The bytes that were executed and the checksum they were pinned with. */
  datatype Execution = Execution(content: Bytes, sha: string)

  ghost predicate AllMatch(h: Hash, executed: seq<Execution>) {
    forall e <- executed :: e.sha != "" && h.same(h.digest(e.content), e.sha)
  }

  /** How the foreign steps of the forced re-download go. */
  datatype Redownload = Redownload(locked: set<string>, clearOk: bool, resolved: Option<Target>, luck: Luck,
    persistOk: bool)

  /** What the manifest says against the installed version. */
  datatype Offer = Unresolved | UpToDate | Newer(target: Target)

  /** How the foreign steps of one install go; the gate is also shut when the cycle never gets that far. */
  datatype Attempt = Attempt(gateOk: bool, readOk: bool, removeOk: bool, clearOk: bool, firstOk: bool,
    redownload: Redownload, secondOk: bool, locked: set<string>)

  /** One cycle: EMLy's own update, or the launch of the updater's setup (applySelfUpdate). needed says whether the
      pending version is newer than the installed one; None that it does not parse. */
  datatype Input =
    | Emly(stateReadable: bool, needed: Option<bool>, offered: Offer, readOk: bool, clearOk: bool, luck: Luck,
           persistOk: bool, attempt: Attempt)
    | Itself(target: Target, selfLuck: Luck, signatureOk: bool, removeOk: bool, gateOk: bool, recordOk: bool,
             launchOk: bool)

  /** Where each of the two download managers keeps its files. */
  datatype Names = Names(prefix: string, selfPrefix: string)

  /** What a process has between two cycles: both directories, the pending entry, and what it executed so far. */
  datatype Moment = Moment(files: Files, selfFiles: Files, pending: Option<Pending>, executed: seq<Execution>)

  /** A pending setup that is still wanted and still verifies goes before anything the manifest offers. */
  predicate Resumes(h: Hash, m: Moment, i: Input)
    requires i.Emly?
  {
    && i.stateReadable && m.pending.Some? && i.needed == Some(true)
    && i.readOk && Verified(h, m.files, m.pending.value.path, m.pending.value.sha)
  }

  /** The directory once a pending entry that is not resumed has been dealt with. */
  function Settled(names: Names, m: Moment, i: Input): Files
    requires i.Emly?
  {
    if !i.stateReadable || m.pending.None? || i.needed.None? then m.files
    else if !i.needed.value then Swept(m.files, names.prefix, "", i.attempt.locked)
    else if i.attempt.removeOk then m.files - {m.pending.value.path} else m.files
  }

  /** The cycle executes a setup. */
  predicate Executes(h: Hash, names: Names, m: Moment, i: Input) {
    match i
    case Emly(_, _, offered, _, _, luck, _, o) =>
      && o.gateOk && o.readOk
      && (Resumes(h, m, i) || (offered.Newer? && Obtains(h, Settled(names, m, i), names.prefix, offered.target, luck)))
    case Itself(t, luck, signatureOk, _, gateOk, recordOk, _) =>
      Obtains(h, m.selfFiles, names.selfPrefix, t, luck) && signatureOk && gateOk && recordOk
  }

  /** The checksum the first setup of an executing cycle is pinned with. */
  function PinnedWith(h: Hash, m: Moment, i: Input): string
    requires i.Emly? && !Resumes(h, m, i) ==> i.offered.Newer?
  {
    match i
    case Emly(_, _, offered, _, _, _, _, _) => if Resumes(h, m, i) then m.pending.value.sha else offered.target.sha
    case Itself(t, _, _, _, _, _, _) => t.sha
  }

  // ---- what one cycle leaves behind ----

  function Ran(m: Moment, files: Files, p: Pending): Moment {
    m.(executed := m.executed + if p.path in files then [Execution(files[p.path], p.sha)] else [])
  }

  function Cleared(m: Moment, clearOk: bool): Moment {
    if clearOk then m.(pending := None) else m
  }

  function SetupEntry(prefix: string, t: Target): Pending {
    SetupPathIsSetup(prefix, t.version);
    Entry(t.version, SetupPath(prefix, t.version), t.sha)
  }

  /** The entry a forced re-download ends with, when it gets one. */
  function Renewed(h: Hash, prefix: string, m: Moment, o: Redownload): Option<Pending> {
    if o.resolved.Some? && Obtains(h, Swept(m.files, prefix, "", o.locked), prefix, o.resolved.value, o.luck)
    then Some(SetupEntry(prefix, o.resolved.value))
    else None
  }

  function Redownloaded(h: Hash, prefix: string, m: Moment, o: Redownload): Moment {
    var swept := Swept(m.files, prefix, "", o.locked);
    var renewed := Renewed(h, prefix, m, o);
    var files := if o.resolved.None? then swept else Ensured(h, swept, prefix, o.resolved.value, o.luck);
    var r := Cleared(m, o.clearOk).(files := files);
    if renewed.Some? && o.persistOk then r.(pending := renewed) else r
  }

  function Finished(prefix: string, m: Moment, version: string, o: Attempt): Moment {
    Cleared(m, o.clearOk).(files := Swept(m.files, prefix, version, o.locked))
  }

  /** The second attempt, after a first one that did not leave the version installed. */
  function Retried(h: Hash, prefix: string, m: Moment, p: Pending, o: Attempt): Moment {
    var renewed, again := Renewed(h, prefix, m, o.redownload), Redownloaded(h, prefix, m, o.redownload);
    var target := if renewed.Some? then renewed.value else p;
    var second := Ran(again, again.files, target);
    if target.path in again.files && o.secondOk then Finished(prefix, second, target.version, o) else second
  }

  function Installed(h: Hash, prefix: string, m: Moment, p: Pending, o: Attempt): Moment {
    if !o.gateOk then m
    else if !(o.readOk && Verified(h, m.files, p.path, p.sha)) then
      Cleared(m, o.clearOk).(files := if o.removeOk then m.files - {p.path} else m.files)
    else if o.firstOk then Finished(prefix, Ran(m, m.files, p), p.version, o)
    else Retried(h, prefix, Ran(m, m.files, p), p, o)
  }

  function Polled(h: Hash, prefix: string, m: Moment, i: Input): Moment
    requires i.Emly?
  {
    match i.offered
    case Unresolved => m
    case UpToDate => m.(files := Swept(m.files, prefix, "", i.attempt.locked))
    case Newer(t) =>
      var ensured := m.(files := Ensured(h, m.files, prefix, t, i.luck));
      if !Obtains(h, m.files, prefix, t, i.luck) then ensured
      else
        var p := SetupEntry(prefix, t);
        Installed(h, prefix, if i.persistOk then ensured.(pending := Some(p)) else ensured, p, i.attempt)
  }

  function Cycled(h: Hash, names: Names, m: Moment, i: Input): Moment
    requires i.Emly?
  {
    if Resumes(h, m, i) then Installed(h, names.prefix, m, m.pending.value, i.attempt)
    else
      var cleared := Cleared(m, i.stateReadable && i.clearOk);
      Polled(h, names.prefix, cleared.(files := Settled(names, m, i)), i)
  }

  function SelfInstalled(h: Hash, names: Names, m: Moment, i: Input): Moment
    requires i.Itself?
  {
    var ensured := m.(selfFiles := Ensured(h, m.selfFiles, names.selfPrefix, i.target, i.selfLuck));
    var p := SetupEntry(names.selfPrefix, i.target);
    if !Obtains(h, m.selfFiles, names.selfPrefix, i.target, i.selfLuck) then ensured
    else if !i.signatureOk then
      ensured.(selfFiles := if i.removeOk then ensured.selfFiles - {p.path} else ensured.selfFiles)
    else if !i.gateOk || !i.recordOk then ensured
    else Ran(ensured, ensured.selfFiles, p)
  }

  function After(h: Hash, names: Names, m: Moment, i: Input): Moment {
    if i.Emly? then Cycled(h, names, m, i) else SelfInstalled(h, names, m, i)
  }

  // ---- what a cycle does with the pending entry ----

  /** A readable pending entry whose file has the pinned digest is installed before anything else happens. */
  lemma PendingIsResumed(h: Hash, names: Names, m: Moment, i: Input)
    requires i.Emly? && i.stateReadable && i.needed == Some(true) && i.readOk && i.attempt.gateOk && i.attempt.readOk
    requires m.pending.Some? && m.pending.value.path in m.files
    requires m.pending.value.sha != "" && h.same(h.digest(m.files[m.pending.value.path]), m.pending.value.sha)
    ensures var after, p := Cycled(h, names, m, i), m.pending.value;
      |after.executed| > |m.executed| && after.executed[|m.executed|] == Execution(m.files[p.path], p.sha)
  {}

  /** One that cannot be read or has another digest, of a version still wanted, is dropped with its file, as far as
      either can be deleted, and nothing is executed. */
  lemma CorruptPendingIsDropped(h: Hash, names: Names, m: Moment, i: Input)
    requires i.Emly? && i.stateReadable && i.needed == Some(true) && m.pending.Some? && i.offered.Unresolved?
    requires i.readOk && m.pending.value.path in m.files ==>
      m.pending.value.sha == "" || !h.same(h.digest(m.files[m.pending.value.path]), m.pending.value.sha)
    ensures Cycled(h, names, m, i) ==
      m.(files := if i.attempt.removeOk then m.files - {m.pending.value.path} else m.files,
         pending := if i.clearOk then None else m.pending)
  {}

  /** With an unreadable state file nothing is known of a pending entry, and nothing happens to it. */
  lemma UnreadablePendingStays(h: Hash, names: Names, m: Moment, i: Input)
    requires i.Emly? && !i.stateReadable && i.offered.Unresolved?
    ensures Cycled(h, names, m, i) == m
  {}

  /** With the gate shut an install does nothing; with it open, a setup that cannot be read or has another digest is
      dropped with its entry and not executed. */
  lemma RefusedInstall(h: Hash, prefix: string, m: Moment, p: Pending, o: Attempt)
    ensures !o.gateOk ==> Installed(h, prefix, m, p, o) == m
    ensures var bad := !o.readOk || p.path !in m.files || p.sha == "" || !h.same(h.digest(m.files[p.path]), p.sha);
      o.gateOk && bad ==>
        Installed(h, prefix, m, p, o) == m.(files := if o.removeOk then m.files - {p.path} else m.files,
                                            pending := if o.clearOk then None else m.pending)
  {}

  /** The updater's own setup, once fetched, is executed exactly when it is signed, the gate is open and the attempt is
      recorded; one that is not signed is deleted. The other directory and the pending entry are not touched. */
  lemma OwnSetupRuns(h: Hash, names: Names, m: Moment, i: Input)
    requires i.Itself? && i.selfLuck.mkdirOk && i.selfLuck.fetch.Fetched? && i.selfLuck.rereadOk && i.selfLuck.renameOk
    requires i.target.sha != "" && h.same(h.digest(i.selfLuck.fetch.content), i.target.sha)
    ensures var path := names.selfPrefix + i.target.version + "-setup.exe";
      var cached := path in m.selfFiles && i.selfLuck.readOk && h.same(h.digest(m.selfFiles[path]), i.target.sha);
      var content := if cached then m.selfFiles[path] else i.selfLuck.fetch.content;
      var after := SelfInstalled(h, names, m, i);
      && after.files == m.files && after.pending == m.pending
      && after.executed == m.executed + (if i.signatureOk && i.gateOk && i.recordOk
                                         then [Execution(content, i.target.sha)] else [])
      && (if !i.signatureOk && i.removeOk then path !in after.selfFiles
          else path in after.selfFiles && after.selfFiles[path] == content)
  {
    PartialIsNoSetup(SetupPath(names.selfPrefix, i.target.version));
  }

  /** One that is not wanted any more is dropped with every file of the manager that can be deleted; one whose
      version does not parse is dropped alone. */
  lemma UnwantedPendingIsDropped(h: Hash, names: Names, m: Moment, i: Input)
    requires i.Emly? && i.stateReadable && i.needed != Some(true) && i.clearOk
    requires m.pending.Some? && i.offered.Unresolved?
    ensures var after := Cycled(h, names, m, i);
      && after.pending.None? && after.executed == m.executed
      && forall name <- m.files :: name in after.files <==>
           i.needed.None? || !(names.prefix <= name) || name in i.attempt.locked
  {}

  /** A setup that was fetched is on disk with its digest and recorded as pending before the gate is asked, so a cycle
      that goes no further resumes with it. */
  lemma FetchedSetupIsPending(h: Hash, names: Names, m: Moment, i: Input)
    requires i.Emly? && m.pending.None? && i.offered.Newer? && i.persistOk && !i.attempt.gateOk
    requires i.luck.mkdirOk && i.luck.fetch.Fetched? && i.luck.rereadOk && i.luck.renameOk && i.offered.target.sha != ""
    requires h.same(h.digest(i.luck.fetch.content), i.offered.target.sha)
    ensures var after, t := Cycled(h, names, m, i), i.offered.target;
      var path := names.prefix + t.version + "-setup.exe";
      && after.pending == Some(Entry(t.version, path, t.sha)) && after.executed == m.executed
      && path in after.files && h.same(h.digest(after.files[path]), t.sha)
  {
    PartialIsNoSetup(SetupPath(names.prefix, i.offered.target.version));
  }

  /** When the manifest offers nothing newer, the manager's files that can be deleted go. */
  lemma UpToDateSweeps(h: Hash, names: Names, m: Moment, i: Input)
    requires i.Emly? && m.pending.None? && i.offered.UpToDate?
    ensures var after := Cycled(h, names, m, i);
      && after.pending.None? && after.executed == m.executed
      && forall name <- m.files :: name in after.files <==> !(names.prefix <= name) || name in i.attempt.locked
  {}

  /** After a first run that left the version installed the entry is gone, and of the manager's files only that
      version's setup and the locked ones are left. */
  lemma SuccessClearsUp(h: Hash, prefix: string, m: Moment, p: Pending, o: Attempt)
    requires o.gateOk && o.readOk && o.firstOk && o.clearOk && p.path in m.files && p.version != ""
    requires p.sha != "" && h.same(h.digest(m.files[p.path]), p.sha)
    ensures var after := Installed(h, prefix, m, p, o);
      && after.pending.None? && after.executed == m.executed + [Execution(m.files[p.path], p.sha)]
      && forall name <- m.files :: name in after.files <==>
           !(prefix <= name) || name == prefix + p.version + "-setup.exe" || name in o.locked
  {}

  lemma RedownloadBrings(h: Hash, prefix: string, m: Moment, o: Redownload, t: Target, content: Bytes)
    requires o.resolved == Some(t) && SetupPath(prefix, t.version) !in o.locked
    requires o.luck.mkdirOk && o.luck.fetch == Fetched(content) && o.luck.rereadOk && o.luck.renameOk
    requires t.sha != "" && h.same(h.digest(content), t.sha)
    ensures Renewed(h, prefix, m, o) == Some(SetupEntry(prefix, t))
    ensures Redownloaded(h, prefix, m, o).pending ==
      if o.persistOk then Some(SetupEntry(prefix, t)) else if o.clearOk then None else m.pending
    ensures var again, dest := Redownloaded(h, prefix, m, o), SetupPath(prefix, t.version);
      dest in again.files && again.files[dest] == content && again.executed == m.executed
  {
    var dest := SetupPath(prefix, t.version);
    PartialIsNoSetup(dest);
    assert prefix <= dest && dest !in Swept(m.files, prefix, "", o.locked);
  }

  /** After one that did not, what the source offers now is fetched and run in its place. */
  lemma RetryRunsFreshSetup(h: Hash, prefix: string, m: Moment, p: Pending, o: Attempt, t: Target, content: Bytes)
    requires o.gateOk && o.readOk && !o.firstOk && p.path in m.files
    requires p.sha != "" && h.same(h.digest(m.files[p.path]), p.sha)
    requires o.redownload.resolved == Some(t) && SetupPath(prefix, t.version) !in o.redownload.locked
    requires var luck := o.redownload.luck;
      luck.mkdirOk && luck.fetch == Fetched(content) && luck.rereadOk && luck.renameOk
    requires t.sha != "" && h.same(h.digest(content), t.sha)
    ensures var after := Installed(h, prefix, m, p, o);
      && after.executed == m.executed + [Execution(m.files[p.path], p.sha), Execution(content, t.sha)]
      && after.pending ==
           if o.secondOk && o.clearOk then None
           else if o.redownload.persistOk then Some(SetupEntry(prefix, t))
           else if o.redownload.clearOk then None else m.pending
  {
    hide Renewed, Redownloaded, Swept, SetupPath;
    var first := Ran(m, m.files, p);
    RedownloadBrings(h, prefix, first, o.redownload, t, content);
    assert Retried(h, prefix, first, p, o).executed == first.executed + [Execution(content, t.sha)];
  }

  /** Without an answer the second attempt has only the copy the first one ran, and that has been swept away with the
      other downloads: it runs again exactly when it could not be deleted, or was not among them. */
  lemma RetryWithoutSource(h: Hash, prefix: string, m: Moment, p: Pending, o: Attempt)
    requires o.gateOk && o.readOk && !o.firstOk && p.path in m.files && o.redownload.resolved.None?
    requires p.sha != "" && h.same(h.digest(m.files[p.path]), p.sha)
    ensures var after, run := Installed(h, prefix, m, p, o), [Execution(m.files[p.path], p.sha)];
      var kept := !(prefix <= p.path) || p.path in o.redownload.locked;
      && after.executed == m.executed + run + (if kept then run else [])
      && after.pending == if o.redownload.clearOk || (kept && o.secondOk && o.clearOk) then None else m.pending
  {
    var first := Ran(m, m.files, p);
    assert Renewed(h, prefix, first, o.redownload).None?;
  }

  class Service {
    const h: Hash
    const names: Names
    const disk: Disk
    const selfDisk: Disk
    var pending: Option<Pending>
    var executed: seq<Execution>

    /** The updater's own setups are in a directory of their own. */
    ghost predicate Valid() {
      disk != selfDisk
    }

    function Now(): Moment
      reads this, disk, selfDisk
    {
      Moment(disk.files, selfDisk.files, pending, executed)
    }

    /** A process starts on any disk: nothing is assumed about the files a crash left. */
    constructor (h: Hash, names: Names, disk: Disk, selfDisk: Disk, pending: Option<Pending>)
      requires disk != selfDisk
      ensures Valid() && this.h == h && this.names == names && this.disk == disk && this.selfDisk == selfDisk
      ensures Now() == Moment(disk.files, selfDisk.files, pending, [])
    {
      this.h, this.names, this.disk, this.selfDisk, this.pending, executed := h, names, disk, selfDisk, pending, [];
    }

    /** runSetupAndVerify: whatever is at the path is executed. */
    method RunSetup(at: Disk, p: Pending, ok: bool) returns (installed: bool)
      modifies this`executed
      ensures executed == old(executed) +
        if p.path in at.files then [Execution(at.files[p.path], p.sha)] else []
      ensures installed <==> p.path in at.files && ok
    {
      if p.path !in at.files {
        return false;
      }
      executed := executed + [Execution(at.files[p.path], p.sha)];
      return ok;
    }

    /** A fresh entry is verified against its own checksum; without one, no setup file has changed. */
    method ForceRedownload(o: Redownload) returns (renewed: Option<Pending>)
      requires Valid()
      modifies this`pending, disk
      ensures Now() == Redownloaded(h, names.prefix, old(Now()), o)
      ensures renewed == Renewed(h, names.prefix, old(Now()), o)
      ensures renewed.Some? ==> Verified(h, disk.files, renewed.value.path, renewed.value.sha)
      ensures renewed.Some? ==>
        o.resolved.Some? && Target(renewed.value.version, renewed.value.sha) == o.resolved.value
      ensures renewed.None? ==> forall path | IsSetup(path) && path in disk.files ::
        path in old(disk.files) && disk.files[path] == old(disk.files)[path]
      ensures o.clearOk && renewed.None? ==> pending.None?
    {
      hide IsSetup, SetupPath, Matches, Obtains, Ensured;
      CleanupExcept(disk, names.prefix, "", o.locked);
      if o.clearOk {
        pending := None;
      }
      if o.resolved.None? {
        return None;
      }
      var t := o.resolved.value;
      var path := Ensure(disk, h, names.prefix, t, o.luck);
      SetupPathIsSetup(names.prefix, t.version);
      PartialIsNoSetup(SetupPath(names.prefix, t.version));
      if path.None? {
        return None;
      }
      renewed := Some(Entry(t.version, path.value, t.sha));
      if o.persistOk {
        pending := renewed;
      }
    }

    /** install: only the first run is checked immediately before it; the second one is safe because the
        re-download leaves at every setup path what was verified before, a newly verified file, or nothing. */
    method Install(p: Pending, o: Attempt) returns (ok: bool)
      requires Valid()
      modifies this, disk
      ensures Now() == Installed(h, names.prefix, old(Now()), p, o)
      ensures old(executed) <= executed && |executed| <= |old(executed)| + 2
      ensures AllMatch(h, executed[|old(executed)|..])
      ensures executed != old(executed) <==> o.gateOk && o.readOk && Verified(h, old(disk.files), p.path, p.sha)
      ensures executed != old(executed) ==> executed[|old(executed)|] == Execution(old(disk.files)[p.path], p.sha)
      ensures ok ==> executed != old(executed)
      ensures ok && o.clearOk ==> pending.None?
      ensures !o.gateOk ==> pending == old(pending) && disk.files == old(disk.files) && executed == old(executed)
    {
      hide IsSetup, SetupPath, Swept, Retried;
      if !o.gateOk {
        return false;
      }
      if !(o.readOk && Verified(h, disk.files, p.path, p.sha)) {
        disk.Remove(p.path, o.removeOk);
        if o.clearOk {
          pending := None;
        }
        return false;
      }
      var installed := RunSetup(disk, p, o.firstOk);
      if !installed {
        ok := Retry(p, o);
        return;
      }
      if o.clearOk {
        pending := None;
      }
      CleanupExcept(disk, names.prefix, p.version, o.locked);
      return true;
    }

    /** The rest of install when the first run did not leave the version installed: the clean-install retry, with a
        fresh setup if one can be had. */
    method Retry(p: Pending, o: Attempt) returns (ok: bool)
      requires Valid() && Verified(h, disk.files, p.path, p.sha)
      modifies this, disk
      ensures Now() == Retried(h, names.prefix, old(Now()), p, o)
      ensures old(executed) <= executed && |executed| <= |old(executed)| + 1
      ensures AllMatch(h, executed[|old(executed)|..])
      ensures ok && o.clearOk ==> pending.None?
    {
      hide IsSetup, SetupPath, Ensured, Obtains, Swept, Redownloaded, Renewed;
      var target := p;
      var renewed := ForceRedownload(o.redownload);
      if renewed.Some? {
        target := renewed.value;
      }
      var installed := RunSetup(disk, target, o.secondOk);
      if !installed {
        return false;
      }
      if o.clearOk {
        pending := None;
      }
      CleanupExcept(disk, names.prefix, target.version, o.locked);
      return true;
    }

    /** The poll: what the manifest offers is fetched, recorded as pending and installed. */
    method Poll(i: Input)
      requires Valid() && i.Emly?
      modifies this, disk
      ensures Now() == Polled(h, names.prefix, old(Now()), i)
      ensures old(executed) <= executed && AllMatch(h, executed[|old(executed)|..])
      ensures executed != old(executed) <==>
        && i.offered.Newer? && Obtains(h, old(disk.files), names.prefix, i.offered.target, i.luck)
        && i.attempt.gateOk && i.attempt.readOk
      ensures executed != old(executed) ==> executed[|old(executed)|].sha == i.offered.target.sha
    {
      hide IsSetup, SetupPath, Matches, Obtains, Swept, Ensured, Installed;
      if i.offered.UpToDate? {
        CleanupExcept(disk, names.prefix, "", i.attempt.locked);
      }
      if !i.offered.Newer? {
        return;
      }
      var t := i.offered.target;
      var path := Ensure(disk, h, names.prefix, t, i.luck);
      if path.None? {
        return;
      }
      SetupPathIsSetup(names.prefix, t.version);
      var p := Entry(t.version, path.value, t.sha);
      if i.persistOk {
        pending := Some(p);
      }
      var _ := Install(p, i.attempt);
    }

    /** The part of Cycle that reaches a setup: a pending entry first, otherwise the poll. */
    method Cycle(i: Input)
      requires Valid() && i.Emly?
      modifies this, disk
      ensures Now() == Cycled(h, names, old(Now()), i)
      ensures old(executed) <= executed && AllMatch(h, executed[|old(executed)|..])
      ensures executed != old(executed) <==> Executes(h, names, old(Now()), i)
      ensures executed != old(executed) ==> executed[|old(executed)|].sha == PinnedWith(h, old(Now()), i)
    {
      hide IsSetup, SetupPath, Matches, Obtains, Swept, AllMatch, Installed, Polled;
      var o := i.attempt;
      if i.stateReadable && pending.Some? {
        var p := pending.value;
        if i.needed == Some(true) && i.readOk && Verified(h, disk.files, p.path, p.sha) {
          var _ := Install(p, o);
          return;
        }
        if i.needed == Some(true) {
          disk.Remove(p.path, o.removeOk);
        }
        if i.clearOk {
          pending := None;
        }
        if i.needed == Some(false) {
          CleanupExcept(disk, names.prefix, "", o.locked);
        }
      }
      assert disk.files == Settled(names, old(Now()), i);
      Poll(i);
    }

    /** applySelfUpdate: the updater's own setup is launched straight from what Ensure verified. */
    method SelfInstall(i: Input) returns (launched: bool)
      requires Valid() && i.Itself?
      modifies this`executed, selfDisk
      ensures Now() == SelfInstalled(h, names, old(Now()), i)
      ensures old(executed) <= executed && AllMatch(h, executed[|old(executed)|..])
      ensures executed != old(executed) <==> Executes(h, names, old(Now()), i)
      ensures executed != old(executed) ==> executed[|old(executed)|].sha == PinnedWith(h, old(Now()), i)
      ensures launched ==> executed != old(executed)
    {
      hide IsSetup, SetupPath, Ensured, Obtains;
      var t := i.target;
      var path := Ensure(selfDisk, h, names.selfPrefix, t, i.selfLuck);
      if path.None? {
        return false;
      }
      if !i.signatureOk {
        selfDisk.Remove(path.value, i.removeOk);
        return false;
      }
      if !i.gateOk || !i.recordOk {
        return false;
      }
      SetupPathIsSetup(names.selfPrefix, t.version);
      launched := RunSetup(selfDisk, Entry(t.version, path.value, t.sha), i.launchOk);
    }

    /** Any number of cycles of one process, with the moments between them. */
    method RunCycles(inputs: seq<Input>) returns (moments: seq<Moment>)
      requires Valid()
      modifies this, disk, selfDisk
      ensures IsRun(h, names, old(Now()), inputs, moments) && moments[|inputs|] == Now()
    {
      moments := [Now()];
      for n := 0 to |inputs|
        invariant |moments| == n + 1 && moments[0] == old(Now()) && moments[n] == Now()
        invariant forall k | 0 <= k < n :: Follows(h, names, moments[k], inputs[k], moments[k + 1])
      {
        if inputs[n].Emly? {
          Cycle(inputs[n]);
        } else {
          var _ := SelfInstall(inputs[n]);
        }
        moments := moments + [Now()];
      }
    }
  }

  /** What one cycle leaves behind, and what it adds to the executions: nothing but matching setups, and one exactly
      when it should. */
  ghost predicate Follows(h: Hash, names: Names, before: Moment, i: Input, after: Moment) {
    && after == After(h, names, before, i)
    && before.executed <= after.executed
    && AllMatch(h, after.executed[|before.executed|..])
    && (after.executed != before.executed <==> Executes(h, names, before, i))
    && (after.executed != before.executed ==> after.executed[|before.executed|].sha == PinnedWith(h, before, i))
  }

  ghost predicate IsRun(h: Hash, names: Names, start: Moment, inputs: seq<Input>, moments: seq<Moment>) {
    && |moments| == |inputs| + 1 && moments[0] == start
    && forall k | 0 <= k < |inputs| :: Follows(h, names, moments[k], inputs[k], moments[k + 1])
  }

  lemma CycleExecutesMatching(h: Hash, names: Names, before: Moment, i: Input, after: Moment)
    requires Follows(h, names, before, i, after) && AllMatch(h, before.executed)
    ensures AllMatch(h, after.executed)
    ensures after.executed != [] <==> before.executed != [] || Executes(h, names, before, i)
  {
    hide After, Executes, PinnedWith;
    assert after.executed == before.executed + after.executed[|before.executed|..];
  }

  lemma {:induction false} RunMatches(h: Hash, names: Names, start: Moment, inputs: seq<Input>, moments: seq<Moment>)
    requires IsRun(h, names, start, inputs, moments) && start.executed == []
    ensures AllMatch(h, moments[|inputs|].executed)
    ensures moments[|inputs|].executed != [] <==>
      exists k :: 0 <= k < |inputs| && Executes(h, names, moments[k], inputs[k])
    decreases |inputs|
  {
    hide Follows, Executes;
    if inputs != [] {
      var n := |inputs| - 1;
      RunMatches(h, names, start, inputs[..n], moments[..n + 1]);
      hide AllMatch;
      CycleExecutesMatching(h, names, moments[n], inputs[n], moments[n + 1]);
    }
  }

  /** No setup of a run is executed whose bytes do not match the checksum it was pinned with, and one is
      executed in the run exactly when some cycle should. */
  lemma RunExecutesMatching(h: Hash, names: Names, start: Moment, inputs: seq<Input>, moments: seq<Moment>)
    requires IsRun(h, names, start, inputs, moments) && start.executed == []
    ensures forall e <- moments[|inputs|].executed :: e.sha != "" && h.same(h.digest(e.content), e.sha)
    ensures moments[|inputs|].executed != [] <==>
      exists k :: 0 <= k < |inputs| && Executes(h, names, moments[k], inputs[k])
  {
    hide Follows, Executes;
    RunMatches(h, names, start, inputs, moments);
  }

  /** What a process finds and what its cycles meet determine all its moments. */
  lemma {:induction false} MomentsAreDetermined(h: Hash, names: Names, start: Moment, inputs: seq<Input>,
                                                a: seq<Moment>, b: seq<Moment>)
    requires IsRun(h, names, start, inputs, a) && IsRun(h, names, start, inputs, b)
    ensures a == b
    decreases |inputs|
  {
    if inputs != [] {
      hide After, Executes, Matches;
      var n := |inputs| - 1;
      MomentsAreDetermined(h, names, start, inputs[..n], a[..n + 1], b[..n + 1]);
      assert Follows(h, names, a[n], inputs[n], a[n + 1]) && Follows(h, names, b[n], inputs[n], b[n + 1]);
      assert a[n] == a[..n + 1][n] == b[..n + 1][n] == b[n];
      assert a == a[..n + 1] + [a[n + 1]] && b == b[..n + 1] + [b[n + 1]];
    } else {
      assert a == [start] && b == [start];
    }
  }

  /** One process: whatever files and pending entry it finds, and the cycles it gets through. */
  datatype Life = Life(files: Files, selfFiles: Files, pending: Option<Pending>, inputs: seq<Input>)

  /** Any sequence of processes. What one finds is unrelated to what the last one left, which covers every
      point a crash may have stopped it at. */
  method RunLives(h: Hash, names: Names, lives: seq<Life>)
      returns (runs: seq<seq<Execution>>, moments: seq<seq<Moment>>)
    ensures |runs| == |moments| == |lives|
    ensures forall i | 0 <= i < |lives| :: LifeOf(h, names, lives[i], moments[i], runs[i])
    ensures forall run <- runs, e <- run :: e.sha != "" && h.same(h.digest(e.content), e.sha)
  {
    runs, moments := [], [];
    for i := 0 to |lives|
      invariant |runs| == |moments| == i
      invariant forall k | 0 <= k < i :: AllMatch(h, runs[k]) && LifeOf(h, names, lives[k], moments[k], runs[k])
    {
      var disk := new Disk(lives[i].files);
      var selfDisk := new Disk(lives[i].selfFiles);
      var service := new Service(h, names, disk, selfDisk, lives[i].pending);
      ghost var start := service.Now();
      var run := service.RunCycles(lives[i].inputs);
      RunExecutesMatching(h, names, start, lives[i].inputs, run);
      runs, moments := runs + [service.executed], moments + [run];
    }
  }

  ghost predicate LifeOf(h: Hash, names: Names, life: Life, moments: seq<Moment>, run: seq<Execution>) {
    && IsRun(h, names, Moment(life.files, life.selfFiles, life.pending, []), life.inputs, moments)
    && moments[|life.inputs|].executed == run
  }
}
