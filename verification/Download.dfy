/** The downloads directory: verified cache entries, fetches into a partial file, and the sweep of
    superseded versions (internal/download/download.go). */
module Download {
  import opened Json

  type Bytes = seq<bv8>
  type Files = map<string, Bytes>

  /** The hash library: the hex digest of a file, and strings.EqualFold on two digests. */
  datatype Hash = Hash(digest: Bytes -> string, same: (string, string) -> bool)

  predicate Matches(h: Hash, content: Bytes, sha: string) {
    sha != "" && h.same(h.digest(content), sha)
  }

  /** VerifyFile succeeds. */
  predicate Verified(h: Hash, files: Files, path: string, sha: string) {
    path in files && Matches(h, files[path], sha)
  }

  const SUFFIX := "-setup.exe"
  const PARTIAL := ".partial"

  function SetupPath(prefix: string, version: string): string {
    prefix + version + SUFFIX
  }

  predicate IsSetup(path: string) {
    |path| >= |SUFFIX| && forall i | 0 <= i < |SUFFIX| :: path[|path| - |SUFFIX| + i] == SUFFIX[i]
  }

  lemma PartialIsNoSetup(path: string)
    ensures !IsSetup(path + PARTIAL) && path + PARTIAL != path
  {
    var p, last := path + PARTIAL, |SUFFIX| - 1;
    assert |p| > |path| && p[|p| - 1] == PARTIAL[|PARTIAL| - 1] == 'l' && SUFFIX[last] == 'e';
  }

  lemma SetupPathIsSetup(prefix: string, version: string)
    ensures IsSetup(SetupPath(prefix, version))
  {}

  /** A file system that remembers every state it has been through: each of them is what a crash at
      that point leaves behind. */
  class Disk {
    var files: Files
    ghost var history: seq<Files>

    constructor (files: Files)
      ensures this.files == files && history == [files]
    {
      this.files := files;
      history := [files];
    }

    method Remove(path: string, ok: bool)
      modifies this
      ensures files == if ok then old(files) - {path} else old(files)
      ensures history == old(history) + [files]
    {
      if ok {
        files := files - {path};
      }
      history := history + [files];
    }

    method Write(path: string, content: Bytes)
      modifies this
      ensures files == old(files)[path := content]
      ensures history == old(history) + [files]
    {
      files := files[path := content];
      history := history + [files];
    }

    method Rename(from: string, to: string, ok: bool)
      requires from in files && from != to
      modifies this
      ensures files == if ok then (old(files) - {from})[to := old(files)[from]] else old(files)
      ensures history == old(history) + [files]
    {
      if ok {
        files := (files - {from})[to := files[from]];
      }
      history := history + [files];
    }
  }

  datatype Target = Target(version: string, sha: string)

  /** A fetch ends with the whole served content on disk, or breaks off having written some of it or nothing. */
  datatype Fetch = Fetched(content: Bytes) | Broken(written: Option<Bytes>)

  /** How the foreign steps of one Ensure go. */
  datatype Luck = Luck(mkdirOk: bool, readOk: bool, removeOk: bool, fetch: Fetch, rereadOk: bool, renameOk: bool,
    cleanOk: bool)

  /** At every crash point the file at dest is the one that was there before, or a verified one, or none. */
  ghost predicate SafeAt(h: Hash, before: Files, files: Files, dest: string, sha: string) {
    dest in files ==> (dest in before && files[dest] == before[dest]) || Matches(h, files[dest], sha)
  }

  ghost predicate OnlyTouches(before: Files, files: Files, paths: set<string>) {
    forall p | p !in paths :: (p in files <==> p in before) && (p in files ==> files[p] == before[p])
  }

  method Ensure(disk: Disk, h: Hash, prefix: string, t: Target, luck: Luck) returns (path: Option<string>)
    modifies disk
    ensures var dest := SetupPath(prefix, t.version);
      && (path.Some? ==> path.value == dest && Verified(h, disk.files, dest, t.sha))
      && (path.None? && dest in disk.files ==> dest in old(disk.files) && disk.files[dest] == old(disk.files)[dest])
      && (path.Some? <==> Obtains(h, old(disk.files), prefix, t, luck))
      && OnlyTouches(old(disk.files), disk.files, {dest, dest + PARTIAL})
      && disk.files == Ensured(h, old(disk.files), prefix, t, luck)
      && old(disk.history) <= disk.history
      && forall i | |old(disk.history)| <= i < |disk.history| ::
           SafeAt(h, old(disk.files), disk.history[i], dest, t.sha)
    ensures var dest := prefix + t.version + "-setup.exe";
      forall i | |old(disk.history)| <= i < |disk.history| && dest in disk.history[i] ::
        || (dest in old(disk.files) && disk.history[i][dest] == old(disk.files)[dest])
        || (t.sha != "" && h.same(h.digest(disk.history[i][dest]), t.sha))
    ensures var dest := prefix + t.version + "-setup.exe";
      var cached := luck.readOk && dest in old(disk.files) && h.same(h.digest(old(disk.files)[dest]), t.sha);
      path.Some? <==>
        && luck.mkdirOk && t.sha != ""
        && (cached || (luck.fetch.Fetched? && luck.rereadOk && h.same(h.digest(luck.fetch.content), t.sha)
                       && luck.renameOk))
    ensures var dest := prefix + t.version + "-setup.exe";
      path.None? && luck.mkdirOk ==> (dest in disk.files <==> dest in old(disk.files) && !luck.removeOk)
    ensures var dest := prefix + t.version + "-setup.exe";
      dest + ".partial" in disk.files && luck.cleanOk ==> disk.files == old(disk.files)
    ensures path.Some? ==>
      path.value in disk.files && t.sha != "" && h.same(h.digest(disk.files[path.value]), t.sha)
    ensures var dest := prefix + t.version + "-setup.exe";
      (&& luck.mkdirOk && luck.readOk && dest in old(disk.files)
       && t.sha != "" && h.same(h.digest(old(disk.files)[dest]), t.sha)) ==>
        path == Some(dest) && disk.files == old(disk.files)
    ensures var dest := prefix + t.version + "-setup.exe";
      dest in disk.files && !(dest in old(disk.files) && disk.files[dest] == old(disk.files)[dest]) ==>
        path.Some? && t.sha != "" && h.same(h.digest(disk.files[dest]), t.sha)
  {
    if !luck.mkdirOk {
      return None;
    }
    var dest := SetupPath(prefix, t.version);
    if luck.readOk && Verified(h, disk.files, dest, t.sha) {
      return Some(dest);
    }
    disk.Remove(dest, luck.removeOk);
    var ok := FetchInto(disk, h, dest, t.sha, luck);
    return if ok then Some(dest) else None;
  }

  /** The fetch brings content that matches the checksum and can be moved into place. */
  predicate Arrives(h: Hash, luck: Luck, sha: string) {
    luck.fetch.Fetched? && luck.rereadOk && Matches(h, luck.fetch.content, sha) && luck.renameOk
  }

  /** A good entry is cached, or good content arrives. */
  predicate Obtains(h: Hash, files: Files, prefix: string, t: Target, luck: Luck) {
    && luck.mkdirOk
    && ((luck.readOk && Verified(h, files, SetupPath(prefix, t.version), t.sha)) || Arrives(h, luck, t.sha))
  }

  /** The directory after a fetch into the partial file, after its rename, and after what is left of it is removed. */
  function Partly(files: Files, partial: string, fetch: Fetch): Files {
    match fetch
    case Fetched(content) => files[partial := content]
    case Broken(written) => if written.Some? then files[partial := written.value] else files
  }

  function Moved(h: Hash, files: Files, dest: string, sha: string, luck: Luck): Files {
    var partly := Partly(files, dest + PARTIAL, luck.fetch);
    if Arrives(h, luck, sha) then (partly - {dest + PARTIAL})[dest := luck.fetch.content] else partly
  }

  function FetchedInto(h: Hash, files: Files, dest: string, sha: string, luck: Luck): Files {
    var moved := Moved(h, files, dest, sha, luck);
    if luck.cleanOk then moved - {dest + PARTIAL} else moved
  }

  /** What Ensure leaves in the directory. */
  function Ensured(h: Hash, files: Files, prefix: string, t: Target, luck: Luck): Files {
    var dest := SetupPath(prefix, t.version);
    if !luck.mkdirOk || (luck.readOk && Verified(h, files, dest, t.sha)) then files
    else FetchedInto(h, if luck.removeOk then files - {dest} else files, dest, t.sha, luck)
  }

  /** Fetch into the partial file, verify it, rename it into place, and remove what is left of it. */
  method FetchInto(disk: Disk, h: Hash, dest: string, sha: string, luck: Luck) returns (ok: bool)
    modifies disk
    ensures ok <==> Arrives(h, luck, sha)
    ensures ok ==> Verified(h, disk.files, dest, sha) && h.same(h.digest(disk.files[dest]), sha)
    ensures !ok && dest in disk.files ==> dest in old(disk.files) && disk.files[dest] == old(disk.files)[dest]
    ensures disk.files == FetchedInto(h, old(disk.files), dest, sha, luck)
    ensures luck.cleanOk ==> dest + ".partial" !in disk.files
    ensures OnlyTouches(old(disk.files), disk.files, {dest, dest + PARTIAL})
    ensures old(disk.history) <= disk.history
    ensures forall i | |old(disk.history)| <= i < |disk.history| ::
      SafeAt(h, old(disk.files), disk.history[i], dest, sha)
  {
    PartialIsNoSetup(dest);
    var partial := dest + PARTIAL;
    ok := false;
    match luck.fetch {
      case Broken(written) =>
        if written.Some? {
          disk.Write(partial, written.value);
        }
      case Fetched(content) =>
        disk.Write(partial, content);
        if luck.rereadOk && Verified(h, disk.files, partial, sha) {
          disk.Rename(partial, dest, luck.renameOk);
          ok := luck.renameOk;
        }
    }
    disk.Remove(partial, luck.cleanOk);
  }

  /** The file is not this manager's, is the kept version's setup, or cannot be deleted. */
  predicate Stays(prefix: string, keep: string, locked: set<string>, name: string) {
    !(prefix <= name) || (keep != "" && name == SetupPath(prefix, keep)) || name in locked
  }

  function Swept(files: Files, prefix: string, keep: string, locked: set<string>): Files {
    map name | name in files && Stays(prefix, keep, locked, name) :: files[name]
  }

  /** The setups and partial files of this manager go, except the kept version's setup and what is locked. */
  method CleanupExcept(disk: Disk, prefix: string, keep: string, locked: set<string>)
    modifies disk
    ensures disk.files == Swept(old(disk.files), prefix, keep, locked)
    ensures forall name <- old(disk.files) ::
      name in disk.files <==>
        !(prefix <= name) || (keep != "" && name == prefix + keep + "-setup.exe") || name in locked
    ensures disk.files.Keys <= old(disk.files).Keys
    ensures forall name <- disk.files :: disk.files[name] == old(disk.files)[name]
  {
    var entries := disk.files.Keys;
    while entries != {}
      invariant entries <= old(disk.files).Keys
      invariant forall name :: name in disk.files <==>
        name in old(disk.files) && (name in entries || Stays(prefix, keep, locked, name))
      invariant forall name <- disk.files :: disk.files[name] == old(disk.files)[name]
      decreases entries
    {
      var name :| name in entries;
      entries := entries - {name};
      if !(keep != "" && name == SetupPath(prefix, keep)) && prefix <= name {
        disk.Remove(name, name !in locked);
      }
    }
  }
}
