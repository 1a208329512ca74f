/** Which overrides a host gets and what they do to its policy: the selectors and the expiry of
    internal/policy/match.go, and the value each path of the effective document ends with. */
module PolicyHosts {
  import opened Json
  import opened JsonPaths
  import opened MergePatch
  import opened PolicySchema
  import opened PolicyComplete
  import opened PolicySites
  import opened PolicyOverrides

  // ---- selectors ----

  lemma AllNamesEveryHost(libs: Libs, h: Host)
    ensures Matches(libs, Selector(true, None, None, None, None, None), h)
  {}

  /** A list of hardware ids names the hosts whose own hardware id is one of them, up to folding. */
  lemma HwidsName(libs: Libs, list: seq<string>, h: Host)
    requires list != []
    ensures Matches(libs, Selector(false, Some(list), None, None, None, None), h)
      <==> h.hwid != "" && exists i :: 0 <= i < |list| && libs.fold(list[i]) == libs.fold(h.hwid)
  {}

  lemma HostnamesName(libs: Libs, list: seq<string>, h: Host)
    requires list != []
    ensures Matches(libs, Selector(false, None, Some(list), None, None, None), h)
      <==> h.hostname != "" && exists i :: 0 <= i < |list| && libs.fold(list[i]) == libs.fold(h.hostname)
  {}

  /** Domain controllers are compared by their folded leading label. */
  lemma DcsName(libs: Libs, list: seq<string>, h: Host)
    requires list != []
    ensures Matches(libs, Selector(false, None, None, Some(list), None, None), h)
      <==> h.dc != "" && exists i :: 0 <= i < |list| && libs.dcLabel(list[i]) == libs.dcLabel(h.dc)
  {}

  /** Subnets name the hosts with an address in one of them. */
  lemma SubnetsName(libs: Libs, list: seq<string>, h: Host)
    requires list != []
    ensures Matches(libs, Selector(false, None, None, None, Some(list), None), h)
      <==> exists i, j :: 0 <= i < |list| && 0 <= j < |h.ips| && libs.contains(list[i], h.ips[j])
  {
    if i, j :| 0 <= i < |list| && 0 <= j < |h.ips| && libs.contains(list[i], h.ips[j]) {
      assert list[i] in list && h.ips[j] in h.ips;
    }
  }

  lemma DomainsName(libs: Libs, list: seq<string>, h: Host)
    requires list != []
    ensures Matches(libs, Selector(false, None, None, None, None, Some(list)), h)
      <==> h.domain != "" && exists i :: 0 <= i < |list| && libs.fold(list[i]) == libs.fold(h.domain)
  {}

  /** Several lists name the hosts that each of them names; a list that is empty or null names every host. */
  lemma ListsAreAnded(libs: Libs, s: Selector, h: Host)
    requires !s.all
    ensures Matches(libs, s, h) <==>
      && (ListOf(s.hwids) != [] ==> Matches(libs, Selector(false, s.hwids, None, None, None, None), h))
      && (ListOf(s.hostnames) != [] ==> Matches(libs, Selector(false, None, s.hostnames, None, None, None), h))
      && (ListOf(s.dcs) != [] ==> Matches(libs, Selector(false, None, None, s.dcs, None, None), h))
      && (ListOf(s.subnets) != [] ==> Matches(libs, Selector(false, None, None, None, s.subnets, None), h))
      && (ListOf(s.domains) != [] ==> Matches(libs, Selector(false, None, None, None, None, s.domains), h))
  {
    hide ContainsFold, InSubnets;
  }

  /** An override without an expiry never expires, one with a readable expiry does at that very time, and one
      whose expiry cannot be read never does. */
  lemma ExpiresExactlyWhen(libs: Libs, until: string, now: int)
    ensures !Expired(libs, None, now) && !Expired(libs, Some(""), now)
    ensures until != "" && libs.parseTime(until).Some? ==>
      (Expired(libs, Some(until), now) <==> now >= libs.parseTime(until).value)
    ensures libs.parseTime(until).None? ==> !Expired(libs, Some(until), now)
  {}

  /** In an accepted document ids identify overrides: the id of an override is applied to a host exactly when it
      has not expired, its match names the host and its except does not. */
  lemma AppliedExactlyWhen(libs: Libs, defaults: Object, doc: Object, p: Parsed, h: Host, i: nat)
    requires Accepted(libs, defaults, doc, p) && i < |p.overrides|
    ensures var o := p.overrides[i];
      o.id in Ids(Chosen(libs, p.overrides, h)) <==>
        && !Expired(libs, o.until, h.now) && Matches(libs, o.match_, h)
        && (o.except.Some? ==> !Matches(libs, o.except.value, h))
  {
    hide Expired, Matches, Chosen, Valid, Complete, DryRun, ParseOverride;
    var o := p.overrides[i];
    AppliedIds(libs, p.overrides, h);
    if o.id in Ids(Chosen(libs, p.overrides, h)) {
      var other :| other in p.overrides && other.id == o.id && !Expired(libs, other.until, h.now)
        && Matches(libs, other.match_, h) && (other.except.Some? ==> !Matches(libs, other.except.value, h));
      var j :| 0 <= j < |p.overrides| && p.overrides[j] == other;
      assert DistinctIds(p.overrides);
      assert i == j;
    }
  }

  // ---- the effective document, path by path ----

  lemma {:induction false} PatchesKeep(raw: Object, patches: seq<Object>, path: Path)
    requires forall p <- patches :: Untouched(Obj(p), path)
    ensures Lookup(Obj(PatchAll(raw, patches)), path) == Lookup(Obj(raw), path)
    ensures Reached(Obj(raw), path) ==> Reached(Obj(PatchAll(raw, patches)), path)
    decreases |patches|
  {
    if patches != [] {
      var last := |patches| - 1;
      PatchesKeep(raw, patches[..last], path);
      PatchKeeps(Obj(PatchAll(raw, patches[..last])), Obj(patches[last]), path);
    }
  }

  /** Of several patches the last one that sets a path decides its value. */
  lemma {:induction false} LastPatchWins(raw: Object, patches: seq<Object>, i: nat, path: Path)
    requires i < |patches| && path != [] && IsPlain(Lookup(Obj(patches[i]), path))
    requires forall j | i < j < |patches| :: Untouched(Obj(patches[j]), path)
    ensures Lookup(Obj(PatchAll(raw, patches)), path) == Lookup(Obj(patches[i]), path)
    decreases |patches|
  {
    var last := |patches| - 1;
    var before := Obj(PatchAll(raw, patches[..last]));
    if i == last {
      PatchSets(before, Obj(patches[last]), path);
    } else {
      LastPatchWins(raw, patches[..last], i, path);
      PatchKeeps(before, Obj(patches[last]), path);
    }
  }

  const SECTIONS := ["refresh", "control", "updater", "logging", "clientWs"]

  /** Completing shows a scalar or list of a section as it is, and the default where nothing leads to it. */
  lemma CompletedAt(defaults: Object, raw: Object, k: string, path: Path)
    requires k in SECTIONS && path != []
    ensures IsPlain(Lookup(Obj(raw), [k] + path)) ==>
      Lookup(Obj(Complete(defaults, raw)), [k] + path) == Lookup(Obj(raw), [k] + path)
    ensures Reached(Obj(raw), [k] + path) && Lookup(Obj(raw), [k] + path).Null? ==>
      Lookup(Obj(Complete(defaults, raw)), [k] + path) == Lookup(Obj(defaults), [k] + path)
  {
    CompleteIsCompletedFrom(defaults, raw);
    hide Complete;
    LookupAppend(Obj(raw), k, path);
    LookupAppend(Obj(Complete(defaults, raw)), k, path);
    LookupAppend(Obj(defaults), k, path);
    var v, r := At(raw, k), Complete(defaults, raw)[k];
    assert Layers(At(defaults, k), v, r);
    if IsPlain(Lookup(v, path)) {
      LeadingIsReached(v, path);
      assert PathLayers(At(defaults, k), v, r, path);
    } else if Reached(v, path) && Lookup(v, path).Null? {
      assert v.Obj? ==> PathLayers(At(defaults, k), v, r, path);
    }
  }

  /** The effective document has, at every path of a section, the value of the last applied override that sets it. */
  lemma EffectiveIsLastOverride(libs: Libs, p: Parsed, h: Host, i: nat, k: string, path: Path)
    requires k in SECTIONS && path != [] && i < |Chosen(libs, p.overrides, h)|
    requires IsPlain(Lookup(Obj(Chosen(libs, p.overrides, h)[i].patch), [k] + path))
    requires forall j | i < j < |Chosen(libs, p.overrides, h)| ::
               Untouched(Obj(Chosen(libs, p.overrides, h)[j].patch), [k] + path)
    ensures Lookup(Obj(Complete(p.defaults, PatchedFor(libs, p, h))), [k] + path)
         == Lookup(Obj(Chosen(libs, p.overrides, h)[i].patch), [k] + path)
  {
    hide Chosen, Complete, Lookup, Untouched;
    LastPatchWins(p.raw, Patches(Chosen(libs, p.overrides, h)), i, [k] + path);
    CompletedAt(p.defaults, PatchedFor(libs, p, h), k, path);
  }

  /** Where no applied override touches it, it has the document's value, and the default where the document has none. */
  lemma EffectiveIsGlobal(libs: Libs, p: Parsed, h: Host, k: string, path: Path)
    requires k in SECTIONS && path != [] && Reached(Obj(p.raw), [k] + path) && !Lookup(Obj(p.raw), [k] + path).Obj?
    requires forall o <- Chosen(libs, p.overrides, h) :: Untouched(Obj(o.patch), [k] + path)
    ensures Lookup(Obj(Complete(p.defaults, PatchedFor(libs, p, h))), [k] + path)
         == if Lookup(Obj(p.raw), [k] + path).Null? then Lookup(Obj(p.defaults), [k] + path)
            else Lookup(Obj(p.raw), [k] + path)
  {
    hide Chosen, Complete, Lookup, Untouched, Reached;
    PatchesKeep(p.raw, Patches(Chosen(libs, p.overrides, h)), [k] + path);
    CompletedAt(p.defaults, PatchedFor(libs, p, h), k, path);
  }

  /** Override i sets the default server and no later one does. */
  predicate SetsServer(chosen: seq<Override>, i: nat)
    requires i < |chosen|
  {
    && "defaultServer" in chosen[i].patch && IsPlain(chosen[i].patch["defaultServer"])
    && forall j | i < j < |chosen| :: "defaultServer" !in chosen[j].patch
  }

  lemma LookupMember(m: Object, k: string)
    ensures Lookup(Obj(m), [k]) == At(m, k)
    ensures Untouched(Obj(m), [k]) <==> k !in m
  {
    LookupAppend(Obj(m), k, []);
    assert [k] + [] == [k];
  }

  lemma ServerIsCopied(defaults: Object, raw: Object)
    ensures At(Complete(defaults, raw), "defaultServer") == At(raw, "defaultServer")
  {
    CopiedByName();
    CompletedCopy(defaults, raw, "defaultServer");
    hide Complete, KEYS, TreatmentOf;
  }

  lemma LastServerWins(raw: Object, chosen: seq<Override>, i: nat)
    requires i < |chosen| && SetsServer(chosen, i)
    ensures "defaultServer" in chosen[i].patch
    ensures At(PatchAll(raw, Patches(chosen)), "defaultServer") == chosen[i].patch["defaultServer"]
  {
    var k, patches := "defaultServer", Patches(chosen);
    hide PatchAll, Lookup, Untouched;
    LookupMember(patches[i], k);
    LookupMember(PatchAll(raw, patches), k);
    forall j | i < j < |patches| ensures Untouched(Obj(patches[j]), [k]) {
      LookupMember(patches[j], k);
    }
    LastPatchWins(raw, patches, i, [k]);
  }

  lemma ServerIsKept(raw: Object, chosen: seq<Override>)
    requires forall o <- chosen :: "defaultServer" !in o.patch
    ensures At(PatchAll(raw, Patches(chosen)), "defaultServer") == At(raw, "defaultServer")
  {
    var k, patches := "defaultServer", Patches(chosen);
    hide PatchAll, Lookup, Untouched;
    LookupMember(raw, k);
    LookupMember(PatchAll(raw, patches), k);
    forall p | p in patches ensures Untouched(Obj(p), [k]) {
      LookupMember(p, k);
    }
    PatchesKeep(raw, patches, [k]);
  }

  /** The default server is the one the last applied override sets, or else the document's. */
  lemma EffectiveDefaultServer(libs: Libs, p: Parsed, h: Host)
    ensures var chosen := Chosen(libs, p.overrides, h);
      var server := At(Complete(p.defaults, PatchedFor(libs, p, h)), "defaultServer");
      && (forall i | 0 <= i < |chosen| && SetsServer(chosen, i) :: server == chosen[i].patch["defaultServer"])
      && ((forall o <- chosen :: "defaultServer" !in o.patch) ==> server == At(p.raw, "defaultServer"))
  {
    hide Chosen, Complete, PatchAll, SetsServer, Patches;
    var chosen := Chosen(libs, p.overrides, h);
    ServerIsCopied(p.defaults, PatchedFor(libs, p, h));
    forall i | 0 <= i < |chosen| && SetsServer(chosen, i)
      ensures "defaultServer" in chosen[i].patch
      ensures At(PatchedFor(libs, p, h), "defaultServer") == chosen[i].patch["defaultServer"]
    {
      LastServerWins(p.raw, chosen, i);
    }
    if forall o <- chosen :: "defaultServer" !in o.patch {
      ServerIsKept(p.raw, chosen);
    }
  }
}
