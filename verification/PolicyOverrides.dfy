/** Accepting a document with per-host overrides, and evaluating them for a host
    (Parse, parseOverrides, dryRunOverrides in internal/policy/parse.go; Effective in internal/policy/match.go). */
module PolicyOverrides {
  import opened Json
  import opened MergePatch
  import opened PolicySchema
  import opened PolicyComplete
  import opened PolicySites

  /** A list of a selector; None is Go's nil slice, which JSON writes as null. */
  type Words = Option<seq<string>>

  datatype Selector = Selector(all: bool, hwids: Words, hostnames: Words, dcs: Words, subnets: Words, domains: Words)

  datatype Override = Override(id: string, match_: Selector, except: Option<Selector>, until: Option<string>,
    patch: Object)

  /** A validated document: its completed global form and what re-evaluating it needs. */
  datatype Parsed = Parsed(global: Object, raw: Object, defaults: Object, overrides: seq<Override>)

  /** validateDocument for a remote document, on top of a successful decode. */
  predicate Valid(libs: Libs, doc: Object) {
    ValidUnpatchable(libs, doc) && ValidReferences(libs, doc) && ValidSections(libs, doc)
  }

  predicate ValidUnpatchable(libs: Libs, doc: Object) {
    && ValidHead(libs, doc)
    && ValidIpc(libs, At(doc, "ipcProtocol"))
    && Accepts(libs, HOST_INTEGRITY, At(doc, "hostIntegrity"))
  }

  predicate ValidIpc(libs: Libs, v: Json) {
    Accepts(libs, IPC, v) && IpcRules(libs, Typed(IPC, v))
  }

  predicate ValidReferences(libs: Libs, doc: Object) {
    TopologyOf(doc).Some? && ValidTopology(libs, TopologyOf(doc).value)
  }

  predicate ValidSections(libs: Libs, doc: Object) {
    forall k <- MERGED :: Accepts(libs, MERGED[k], At(doc, k))
  }

  predicate ValidHead(libs: Libs, doc: Object) {
    var version, revision, at := At(doc, "schemaVersion"), At(doc, "revision"), At(doc, "generatedAt");
    && (version.Null? || IsWhole(version, -MAX_INT - 1, MAX_INT))
    && (revision.Null? || IsWhole(revision, 0, MAX_INT))
    && at.Str? && at.s != "" && libs.parseTime(at.s).Some?
  }

  predicate Builds(libs: Libs, defaults: Object, raw: Object) {
    Valid(libs, Complete(defaults, raw))
  }

  // ---- selectors and overrides: decoding and shape rules ----

  function WordsOf(v: Json): Words
    requires IsTextList(v)
  {
    if v.Null? then None else Some(TextsOf(v))
  }

  function DecodeSelector(v: Json): Option<Selector> {
    var all := Get(v, "all");
    var hwids, hostnames, dcs := Get(v, "hwids"), Get(v, "hostnames"), Get(v, "dcs");
    var subnets, domains := Get(v, "subnets"), Get(v, "domains");
    if (v.Null? || v.Obj?) && (all.Null? || all.Bool?) && IsTextList(hwids) && IsTextList(hostnames)
       && IsTextList(dcs) && IsTextList(subnets) && IsTextList(domains)
    then Some(Selector(all.Bool? && all.b,
                       WordsOf(hwids), WordsOf(hostnames), WordsOf(dcs), WordsOf(subnets), WordsOf(domains)))
    else None
  }

  function ListOf(w: Words): seq<string> {
    if w.Some? then w.value else []
  }

  /** validateSelector: `all` alone, and only where allowed, or at least one non-empty list. */
  predicate ValidSelector(libs: Libs, raw: Json, s: Selector, allowAll: bool) {
    raw.Obj? &&
    var present := set k | k in raw.fields && !raw.fields[k].Null?;
    if "all" in present then allowAll && raw.fields["all"] == Bool(true) && present == {"all"}
    else
      && (ListOf(s.hwids) != [] || ListOf(s.hostnames) != [] || ListOf(s.dcs) != []
          || ListOf(s.domains) != [] || ListOf(s.subnets) != [])
      && forall c <- ListOf(s.subnets) :: libs.validCidr(c)
  }

  /** One entry of the overrides list, typed and checked; None for any problem. */
  function ParseOverride(libs: Libs, item: Json): Option<Override> {
    var id, rawMatch, rawExcept := DecodeText(Get(item, "id")), Get(item, "match"), Get(item, "except");
    var until, patch := Get(item, "until"), Get(item, "patch");
    var m, e := DecodeSelector(rawMatch), DecodeSelector(rawExcept);
    if item.Obj? && id.Some? && id.value != ""
       && m.Some? && ValidSelector(libs, rawMatch, m.value, true)
       && e.Some? && (rawExcept.Null? || ValidSelector(libs, rawExcept, e.value, false))
       && (until.Null? || (until.Str? && libs.parseTime(until.s).Some?))
       && patch.Obj? && patch.fields.Keys <= PATCHABLE
    then Some(Override(id.value, m.value, if rawExcept.Null? then None else e,
                       if until.Null? then None else Some(until.s), patch.fields))
    else None
  }

  ghost predicate DistinctIds(overrides: seq<Override>) {
    forall i, j | 0 <= i < j < |overrides| :: overrides[i].id != overrides[j].id
  }

  /** The overrides a list stands for: every entry parses and no id repeats. */
  ghost predicate OverridesOf(libs: Libs, v: Json, overrides: seq<Override>) {
    var items := if v.Arr? then v.items else [];
    && (v.Null? || v.Arr?)
    && |items| == |overrides|
    && (forall i | 0 <= i < |items| :: ParseOverride(libs, items[i]) == Some(overrides[i]))
    && DistinctIds(overrides)
  }

  lemma Entry(libs: Libs, v: Json, overrides: seq<Override>, i: nat)
    requires v.Arr? && i < |v.items| && OverridesOf(libs, v, overrides)
    ensures i < |overrides| && ParseOverride(libs, v.items[i]) == Some(overrides[i])
    ensures forall j | 0 <= j < i :: overrides[j].id != overrides[i].id
  {}

  /** An entry that does not parse, or one that repeats an earlier id, refuses the whole list. */
  lemma BadEntry(libs: Libs, v: Json, i: nat)
    requires v.Arr? && i < |v.items| && ParseOverride(libs, v.items[i]).None?
    ensures forall overrides :: !OverridesOf(libs, v, overrides)
  {
    forall overrides: seq<Override> ensures !OverridesOf(libs, v, overrides) {
      if OverridesOf(libs, v, overrides) { Entry(libs, v, overrides, i); }
    }
  }

  lemma RepeatedEntry(libs: Libs, v: Json, j: nat, i: nat)
    requires v.Arr? && j < i < |v.items|
    requires ParseOverride(libs, v.items[j]).Some? && ParseOverride(libs, v.items[i]).Some?
    requires ParseOverride(libs, v.items[j]).value.id == ParseOverride(libs, v.items[i]).value.id
    ensures forall overrides :: !OverridesOf(libs, v, overrides)
  {
    forall overrides: seq<Override> ensures !OverridesOf(libs, v, overrides) {
      if OverridesOf(libs, v, overrides) { Entry(libs, v, overrides, i); Entry(libs, v, overrides, j); }
    }
  }

  method ParseOverrides(libs: Libs, v: Json) returns (r: Option<seq<Override>>)
    ensures r.Some? ==> OverridesOf(libs, v, r.value)
    ensures r.None? ==> forall overrides :: !OverridesOf(libs, v, overrides)
  {
    if v.Null? {
      return Some([]);
    }
    if !v.Arr? {
      return None;
    }
    hide ParseOverride;
    var ok, out := true, [];
    var seen: set<string> := {};
    for i := 0 to |v.items|
      invariant ok ==> |out| == i && DistinctIds(out)
      invariant ok ==> forall j | 0 <= j < i :: ParseOverride(libs, v.items[j]) == Some(out[j])
      invariant ok ==> forall s :: s in seen <==> exists j | 0 <= j < i :: out[j].id == s
      invariant !ok ==> forall overrides :: !OverridesOf(libs, v, overrides)
    {
      var o := ParseOverride(libs, v.items[i]);
      if o.None? {
        BadEntry(libs, v, i);
        ok := false;
      } else {
        if o.value.id in seen && ok {
          ghost var j :| 0 <= j < i && out[j].id == o.value.id;
          RepeatedEntry(libs, v, j, i);
          ok := false;
        }
        seen := seen + {o.value.id};
        out := out + [o.value];
      }
    }
    return if ok then Some(out) else None;
  }

  // ---- acceptance ----

  function Patches(overrides: seq<Override>): seq<Object> {
    seq(|overrides|, i requires 0 <= i < |overrides| => overrides[i].patch)
  }

  /** Every override on its own builds a valid document. */
  predicate EachBuilds(libs: Libs, defaults: Object, raw: Object, overrides: seq<Override>) {
    forall o <- overrides :: Builds(libs, defaults, Patched(raw, o.patch))
  }

  ghost predicate AllPatchable(overrides: seq<Override>) {
    forall o <- overrides :: o.patch.Keys <= PATCHABLE
  }

  /** The whole of Parse on a decoded object. */
  ghost predicate Accepted(libs: Libs, defaults: Object, doc: Object, parsed: Parsed) {
    && At(doc, "schemaVersion") == Num(1.0)
    && parsed.raw == doc - {"overrides"}
    && parsed.defaults == defaults
    && parsed.global == Complete(defaults, parsed.raw)
    && Valid(libs, parsed.global)
    && OverridesOf(libs, At(doc, "overrides"), parsed.overrides)
    && DryRun(libs, defaults, parsed.raw, parsed.overrides)
  }

  /** dryRunOverrides: each override alone, and when there are several all of them in order. */
  predicate DryRun(libs: Libs, defaults: Object, raw: Object, overrides: seq<Override>) {
    && EachBuilds(libs, defaults, raw, overrides)
    && (|overrides| > 1 ==> Builds(libs, defaults, PatchAll(raw, Patches(overrides))))
  }

  // ---- patches that are valid alone are valid together ----

  /** A patch that yields an accepted value from one start yields one from any other accepted start. */
  lemma {:induction false} PatchedAccepts(libs: Libs, schema: Schema, d: Json, t: Json, u: Json, p: Json)
    requires !p.Null? && Tableless(schema)
    requires Accepts(libs, schema, Fill(d, u))
    requires Accepts(libs, schema, Fill(d, Merge(t, p)))
    ensures Accepts(libs, schema, Fill(d, Merge(u, p)))
    decreases schema
  {
    if p.Obj? && schema.Section? {
      forall k | k in schema.fields
        ensures Accepts(libs, schema.fields[k], Get(Fill(d, Merge(u, p)), k))
      {
        FillMember(d, Merge(u, p), k);
        FillMember(d, Merge(t, p), k);
        MergeMember(u, p, k);
        MergeMember(t, p, k);
        if u.Obj? { FillMember(d, u, k); }
        assert Accepts(libs, schema.fields[k], Fill(Get(d, k), Get(u, k)));
        if k in p.fields && !p.fields[k].Null? {
          PatchedAccepts(libs, schema.fields[k], Get(d, k), Get(t, k), Get(u, k), p.fields[k]);
        }
      }
    }
  }

  lemma PatchedSectionAccepts(libs: Libs, schema: Schema, d: Json, t: Json, u: Json, p: Json)
    requires !p.Null? && Tableless(schema)
    requires Accepts(libs, schema, FillSection(d, u))
    requires Accepts(libs, schema, FillSection(d, Merge(t, p)))
    ensures Accepts(libs, schema, FillSection(d, Merge(u, p)))
  {
    if p.Obj? {
      var u' := if u.Obj? then u else Null;
      assert Merge(u, p) == Merge(u', p);
      PatchedAccepts(libs, schema, d, t, u', p);
    }
  }

  /** The two raw documents differ at most in patchable keys. */
  ghost predicate SameFixed(raw: Object, cur: Object) {
    forall k | k !in PATCHABLE :: At(raw, k) == At(cur, k)
  }

  predicate IsFixed(k: string) {
    k in KEYS && k !in PATCHABLE
  }

  lemma CopiedAreKeys()
    ensures forall k <- COPIED :: k in KEYS
    ensures "ipcProtocol" in KEYS
  {
    hide COPIED, LAYERED;
  }

  lemma FixedNames()
    ensures IsFixed("schemaVersion") && IsFixed("revision") && IsFixed("generatedAt") && IsFixed("servers")
    ensures IsFixed("dcLookupMap") && IsFixed("hostIntegrity") && IsFixed("ipcProtocol")
  {
    hide KEYS;
    CopiedAreKeys();
    assert forall i | 0 <= i < |COPIED| :: COPIED[i] in COPIED;
  }

  lemma DefaultServerIsCopied()
    ensures "defaultServer" in KEYS && TreatmentOf("defaultServer").Copied?
  {}

  lemma MergedAreLayered()
    ensures forall k <- MERGED :: k in KEYS && TreatmentOf(k).Layered?
  {
    hide REFRESH, CONTROL, UPDATER, LOGGING, CLIENT_WS;
  }

  predicate Flat(schema: Schema) {
    schema.Section? && forall k <- schema.fields :: schema.fields[k].Field?
  }

  lemma FlatIsTableless(schema: Schema)
    requires Flat(schema)
    ensures Tableless(schema)
  {}

  lemma FlatSections()
    ensures Tableless(REFRESH) && Tableless(TOGGLE) && Tableless(LOGGING) && Tableless(CLIENT_WS)
  {
    FlatIsTableless(REFRESH);
    FlatIsTableless(TOGGLE);
    FlatIsTableless(LOGGING);
    FlatIsTableless(CLIENT_WS);
    hide Tableless, REFRESH, TOGGLE, LOGGING, CLIENT_WS;
  }

  /** Every member is a field or a section of fields. */
  lemma NestedIsTableless(schema: Schema)
    requires schema.Section? && forall k <- schema.fields :: schema.fields[k].Field? || Flat(schema.fields[k])
    ensures Tableless(schema)
  {
    forall k | k in schema.fields ensures Tableless(schema.fields[k]) {
      if schema.fields[k].Section? {
        FlatIsTableless(schema.fields[k]);
      }
    }
  }

  lemma NestedSections()
    ensures Tableless(CONTROL) && Tableless(UPDATER)
  {
    NestedIsTableless(CONTROL);
    NestedIsTableless(UPDATER);
    hide Tableless, CONTROL, UPDATER;
  }

  lemma MergedAreTableless()
    ensures forall k <- MERGED :: Tableless(MERGED[k])
  {
    FlatSections();
    NestedSections();
    hide REFRESH, CONTROL, UPDATER, LOGGING, CLIENT_WS, TOGGLE, Tableless;
  }

  lemma PatchedMember(raw: Object, patch: Object, k: string)
    ensures At(Patched(raw, patch), k) ==
      if k !in patch then At(raw, k) else if patch[k].Null? then Null else Merge(At(raw, k), patch[k])
  {
    MergeMember(Obj(raw), Obj(patch), k);
  }

  lemma FixedAfterPatch(raw: Object, cur: Object, patch: Object)
    requires SameFixed(raw, cur) && patch.Keys <= PATCHABLE
    ensures SameFixed(raw, Patched(cur, patch))
  {
    forall k | k !in PATCHABLE ensures At(raw, k) == At(Patched(cur, patch), k) {
      PatchedMember(cur, patch, k);
    }
  }

  lemma FixedWhenCompleted(defaults: Object, raw: Object, cur: Object)
    requires SameFixed(raw, cur)
    ensures forall k | IsFixed(k) :: At(Complete(defaults, cur), k) == At(Complete(defaults, raw), k)
  {
    forall k | IsFixed(k) ensures At(Complete(defaults, cur), k) == At(Complete(defaults, raw), k) {
      CompletedMember(defaults, raw, k);
      CompletedMember(defaults, cur, k);
    }
  }

  lemma UnpatchableStaysValid(libs: Libs, a: Object, c: Object)
    requires ValidUnpatchable(libs, a) && forall k | IsFixed(k) :: At(a, k) == At(c, k)
    ensures ValidUnpatchable(libs, c)
    ensures At(a, "servers") == At(c, "servers") && At(a, "dcLookupMap") == At(c, "dcLookupMap")
  {
    FixedNames();
    hide ValidIpc, Accepts, PATCHABLE, KEYS;
  }

  lemma OneMorePatch(libs: Libs, defaults: Object, raw: Object, cur: Object, patch: Object)
    requires SameFixed(raw, cur) && patch.Keys <= PATCHABLE
    requires Builds(libs, defaults, cur) && Builds(libs, defaults, Patched(raw, patch))
    ensures SameFixed(raw, Patched(cur, patch)) && Builds(libs, defaults, Patched(cur, patch))
  {
    hide Complete, SameFixed, IsFixed, PATCHABLE, ValidUnpatchable, TopologyOf, ValidTopology, Patched, ValidSections;
    hide DecodeText;
    var a, b := Complete(defaults, cur), Complete(defaults, Patched(raw, patch));
    var c := Complete(defaults, Patched(cur, patch));
    FixedAfterPatch(raw, raw, patch) by { SameFixedSelf(raw); }
    FixedAfterPatch(raw, cur, patch);
    FixedWhenCompleted(defaults, raw, cur);
    FixedWhenCompleted(defaults, raw, Patched(raw, patch));
    FixedWhenCompleted(defaults, raw, Patched(cur, patch));
    UnpatchableStaysValid(libs, a, b);
    UnpatchableStaysValid(libs, a, c);
    ReferencesAfterPatch(defaults, raw, cur, patch);
    SectionsAfterPatch(libs, defaults, raw, cur, patch);
  }

  lemma SameFixedSelf(raw: Object)
    ensures SameFixed(raw, raw)
  {}

  lemma ReferencesAfterPatch(defaults: Object, raw: Object, cur: Object, patch: Object)
    requires var a, b := Complete(defaults, cur), Complete(defaults, Patched(raw, patch));
      var c := Complete(defaults, Patched(cur, patch));
      && TopologyOf(a).Some? && TopologyOf(b).Some?
      && At(a, "servers") == At(b, "servers") == At(c, "servers")
      && At(a, "dcLookupMap") == At(b, "dcLookupMap") == At(c, "dcLookupMap")
    ensures TopologyOf(Complete(defaults, Patched(cur, patch)))
         in {TopologyOf(Complete(defaults, cur)), TopologyOf(Complete(defaults, Patched(raw, patch)))}
  {
    hide Complete;
    DefaultServerAfterPatch(defaults, raw, cur, patch);
  }

  lemma SectionsAfterPatch(libs: Libs, defaults: Object, raw: Object, cur: Object, patch: Object)
    requires ValidSections(libs, Complete(defaults, cur))
    requires ValidSections(libs, Complete(defaults, Patched(raw, patch)))
    ensures ValidSections(libs, Complete(defaults, Patched(cur, patch)))
  {
    MergedAreLayered();
    MergedAreTableless();
    hide MERGED, Tableless, KEYS, TreatmentOf, Complete, Accepts, Patched;
    forall k | k in MERGED ensures Accepts(libs, MERGED[k], At(Complete(defaults, Patched(cur, patch)), k)) {
      MergedAfterPatch(libs, defaults, raw, cur, patch, k);
    }
  }

  lemma MergedAfterPatch(libs: Libs, defaults: Object, raw: Object, cur: Object, patch: Object, k: string)
    requires k in MERGED && k in KEYS && TreatmentOf(k).Layered? && Tableless(MERGED[k])
    requires Accepts(libs, MERGED[k], At(Complete(defaults, cur), k))
    requires Accepts(libs, MERGED[k], At(Complete(defaults, Patched(raw, patch)), k))
    ensures Accepts(libs, MERGED[k], At(Complete(defaults, Patched(cur, patch)), k))
  {
    hide KEYS, MERGED, PATCHABLE, TreatmentOf, Complete, Accepts, Patched, FillSection;
    CompletedMember(defaults, cur, k);
    CompletedMember(defaults, Patched(raw, patch), k);
    CompletedMember(defaults, Patched(cur, patch), k);
    PatchedMember(raw, patch, k);
    PatchedMember(cur, patch, k);
    if k in patch && !patch[k].Null? {
      PatchedSectionAccepts(libs, MERGED[k], At(defaults, k), At(raw, k), At(cur, k), patch[k]);
    }
  }

  /** A patched defaultServer is either the patch's own text or the one already in force. */
  lemma DefaultServerAfterPatch(defaults: Object, raw: Object, cur: Object, patch: Object)
    requires DecodeText(At(Complete(defaults, Patched(raw, patch)), "defaultServer")).Some?
    ensures At(Complete(defaults, Patched(cur, patch)), "defaultServer")
         in {At(Complete(defaults, cur), "defaultServer"), At(Complete(defaults, Patched(raw, patch)), "defaultServer")}
  {
    hide KEYS, PATCHABLE, TreatmentOf, Complete, Patched;
    var k := "defaultServer";
    DefaultServerIsCopied();
    CompletedMember(defaults, cur, k);
    CompletedMember(defaults, Patched(raw, patch), k);
    CompletedMember(defaults, Patched(cur, patch), k);
    PatchedMember(raw, patch, k);
    PatchedMember(cur, patch, k);
  }

  ghost predicate Subsequence(part: seq<Object>, all: seq<Object>)
    decreases |all|
  {
    if all == [] then part == []
    else
      var init := all[..|all| - 1];
      || Subsequence(part, init)
      || (part != [] && part[|part| - 1] == all[|all| - 1] && Subsequence(part[..|part| - 1], init))
  }

  /** If the raw document builds a valid document and so does each patch alone, then so does every
      subset of the patches applied in list order, whatever the defaults are. */
  lemma {:induction false} SubsetsBuild(libs: Libs, defaults: Object, raw: Object, all: seq<Object>, part: seq<Object>)
    requires Subsequence(part, all) && OnlyPatchable(all)
    requires Builds(libs, defaults, raw)
    requires forall p <- all :: Builds(libs, defaults, Patched(raw, p))
    ensures SameFixed(raw, PatchAll(raw, part)) && Builds(libs, defaults, PatchAll(raw, part))
    decreases |all|
  {
    if all != [] {
      var init := all[..|all| - 1];
      if Subsequence(part, init) {
        SubsetsBuild(libs, defaults, raw, init, part);
      } else {
        var shorter := part[..|part| - 1];
        SubsetsBuild(libs, defaults, raw, init, shorter);
        OneMorePatch(libs, defaults, raw, PatchAll(raw, shorter), part[|part| - 1]);
      }
    }
  }

  /** The combined dry run of all overrides can never refuse what the single ones let through. */
  lemma CombinedDryRunIsRedundant(libs: Libs, defaults: Object, raw: Object, overrides: seq<Override>)
    requires Builds(libs, defaults, raw) && AllPatchable(overrides)
    ensures DryRun(libs, defaults, raw, overrides) <==> EachBuilds(libs, defaults, raw, overrides)
  {
    hide Builds, Patched;
    if EachBuilds(libs, defaults, raw, overrides) {
      WholeIsSubsequence(Patches(overrides));
      SubsetsBuild(libs, defaults, raw, Patches(overrides), Patches(overrides));
    }
  }

  lemma {:induction false} WholeIsSubsequence(all: seq<Object>)
    ensures Subsequence(all, all)
    decreases |all|
  {
    if all != [] {
      WholeIsSubsequence(all[..|all| - 1]);
    }
  }

  /** The two passes of the dry run. */
  method DryRunOverrides(libs: Libs, defaults: Object, raw: Object, overrides: seq<Override>) returns (ok: bool)
    ensures ok <==> DryRun(libs, defaults, raw, overrides)
  {
    hide Builds, Patched;
    ok := true;
    var all := raw;
    for i := 0 to |overrides|
      invariant ok <==> forall o <- overrides[..i] :: Builds(libs, defaults, Patched(raw, o.patch))
      invariant all == PatchAll(raw, Patches(overrides[..i]))
    {
      ok := ok && Builds(libs, defaults, Patched(raw, overrides[i].patch));
      all := Patched(all, overrides[i].patch);
      assert Patches(overrides[..i + 1])[..i] == Patches(overrides[..i]);
    }
    assert overrides[..|overrides|] == overrides;
    if |overrides| > 1 && ok {
      ok := Builds(libs, defaults, all);
    }
  }

  // ---- evaluation for one host ----

  predicate ContainsFold(libs: Libs, list: seq<string>, s: string) {
    s != "" && exists x <- list :: libs.fold(x) == libs.fold(s)
  }

  /** Keys are ANDed, values inside one list are ORed, an empty list does not restrict. */
  predicate Matches(libs: Libs, s: Selector, h: Host) {
    s.all || (
      && (ListOf(s.hwids) != [] ==> ContainsFold(libs, ListOf(s.hwids), h.hwid))
      && (ListOf(s.hostnames) != [] ==> ContainsFold(libs, ListOf(s.hostnames), h.hostname))
      && (ListOf(s.dcs) != [] ==> h.dc != "" && exists dc <- ListOf(s.dcs) :: libs.dcLabel(dc) == libs.dcLabel(h.dc))
      && (ListOf(s.domains) != [] ==> ContainsFold(libs, ListOf(s.domains), h.domain))
      && (ListOf(s.subnets) != [] ==> InSubnets(libs, h.ips, ListOf(s.subnets))))
  }

  predicate Expired(libs: Libs, until: Option<string>, now: int) {
    until.Some? && until.value != "" && libs.parseTime(until.value).Some? && libs.parseTime(until.value).value <= now
  }

  predicate Selected(libs: Libs, o: Override, h: Host) {
    && !Expired(libs, o.until, h.now)
    && Matches(libs, o.match_, h)
    && !(o.except.Some? && Matches(libs, o.except.value, h))
  }

  function Chosen(libs: Libs, overrides: seq<Override>, h: Host): seq<Override>
    decreases |overrides|
  {
    if overrides == [] then []
    else
      var last := overrides[|overrides| - 1];
      Chosen(libs, overrides[..|overrides| - 1], h) + if Selected(libs, last, h) then [last] else []
  }

  /** The overrides chosen for a host are the unexpired ones that name it and do not except it. */
  lemma {:induction false} ChosenExactlyWhen(libs: Libs, overrides: seq<Override>, h: Host, o: Override)
    ensures o in Chosen(libs, overrides, h) <==>
      && o in overrides && !Expired(libs, o.until, h.now) && Matches(libs, o.match_, h)
      && (o.except.Some? ==> !Matches(libs, o.except.value, h))
    decreases |overrides|
  {
    if overrides != [] {
      hide Expired, Matches;
      ChosenExactlyWhen(libs, overrides[..|overrides| - 1], h, o);
      assert overrides == overrides[..|overrides| - 1] + [overrides[|overrides| - 1]];
    }
  }

  function Ids(overrides: seq<Override>): seq<string> {
    seq(|overrides|, i requires 0 <= i < |overrides| => overrides[i].id)
  }

  /** The raw document patched for a host. */
  function PatchedFor(libs: Libs, p: Parsed, h: Host): Object {
    PatchAll(p.raw, Patches(Chosen(libs, p.overrides, h)))
  }

  method ApplyPatch(raw: Object, patch: Object) returns (r: Object)
    ensures r == Patched(raw, patch)
  {
    var merged := MergePatch.MergePatch(Obj(raw), Obj(patch));
    r := merged.fields;
  }

  lemma AppliedIds(libs: Libs, overrides: seq<Override>, h: Host)
    ensures forall o <- overrides ::
      (&& !Expired(libs, o.until, h.now) && Matches(libs, o.match_, h)
       && (o.except.Some? ==> !Matches(libs, o.except.value, h))) ==> o.id in Ids(Chosen(libs, overrides, h))
    ensures forall id <- Ids(Chosen(libs, overrides, h)) :: exists o <- overrides ::
      && o.id == id && !Expired(libs, o.until, h.now) && Matches(libs, o.match_, h)
      && (o.except.Some? ==> !Matches(libs, o.except.value, h))
  {
    hide Expired, Matches, Chosen;
    var chosen := Chosen(libs, overrides, h);
    forall o | o in overrides
      ensures (&& !Expired(libs, o.until, h.now) && Matches(libs, o.match_, h)
               && (o.except.Some? ==> !Matches(libs, o.except.value, h))) ==> o.id in Ids(chosen)
    {
      ChosenExactlyWhen(libs, overrides, h, o);
      if o in chosen {
        var i :| 0 <= i < |chosen| && chosen[i] == o;
        assert Ids(chosen)[i] == o.id;
      }
    }
    forall id | id in Ids(chosen)
      ensures exists o <- overrides ::
        && o.id == id && !Expired(libs, o.until, h.now) && Matches(libs, o.match_, h)
        && (o.except.Some? ==> !Matches(libs, o.except.value, h))
    {
      var i :| 0 <= i < |chosen| && Ids(chosen)[i] == id;
      assert chosen[i] in chosen;
      ChosenExactlyWhen(libs, overrides, h, chosen[i]);
    }
  }

  /** The loop of Effective: the patches of the selected overrides, merged in list order. */
  method FoldSelected(libs: Libs, p: Parsed, h: Host) returns (cur: Object, applied: seq<string>)
    ensures cur == PatchedFor(libs, p, h) && applied == Ids(Chosen(libs, p.overrides, h))
  {
    hide Expired, Matches, Patched, Selected;
    cur, applied := p.raw, [];
    for i := 0 to |p.overrides|
      invariant var chosen := Chosen(libs, p.overrides[..i], h);
        cur == PatchAll(p.raw, Patches(chosen)) && applied == Ids(chosen)
    {
      var o := p.overrides[i];
      ghost var chosen := Chosen(libs, p.overrides[..i], h);
      assert p.overrides[..i + 1][..i] == p.overrides[..i];
      assert Patches(chosen + [o])[..|chosen|] == Patches(chosen) && chosen + [] == chosen;
      if Selected(libs, o, h) {
        cur := ApplyPatch(cur, o.patch);
        applied := applied + [o.id];
      }
    }
    assert p.overrides[..|p.overrides|] == p.overrides;
  }

  /** Effective: fold the matching patches, complete, validate, and fall back to the global document. */
  method Effective(libs: Libs, p: Parsed, h: Host) returns (doc: Object, applied: seq<string>, fellBack: bool)
    ensures fellBack <==> Chosen(libs, p.overrides, h) != [] && !Builds(libs, p.defaults, PatchedFor(libs, p, h))
    ensures applied == if fellBack then [] else Ids(Chosen(libs, p.overrides, h))
    ensures doc == if applied == [] then p.global else Complete(p.defaults, PatchedFor(libs, p, h))
    ensures !fellBack ==> forall o <- p.overrides ::
      (&& !Expired(libs, o.until, h.now) && Matches(libs, o.match_, h)
       && (o.except.Some? ==> !Matches(libs, o.except.value, h))) ==> o.id in applied
    ensures forall id <- applied :: exists o <- p.overrides ::
      && o.id == id && !Expired(libs, o.until, h.now) && Matches(libs, o.match_, h)
      && (o.except.Some? ==> !Matches(libs, o.except.value, h))
  {
    hide Expired, Matches, Complete, CompletedFrom, Valid, Chosen, PatchedFor;
    AppliedIds(libs, p.overrides, h);
    var cur: Object;
    cur, applied := FoldSelected(libs, p, h);
    if applied == [] {
      return p.global, [], false;
    }
    doc := CompleteDocument(p.defaults, cur);
    if !Valid(libs, doc) {
      return p.global, [], true;
    }
    return doc, applied, false;
  }

  lemma {:induction false} ChosenIsSubsequence(libs: Libs, overrides: seq<Override>, h: Host)
    ensures Subsequence(Patches(Chosen(libs, overrides, h)), Patches(overrides))
    decreases |overrides|
  {
    if overrides != [] {
      var init, last := overrides[..|overrides| - 1], overrides[|overrides| - 1];
      ChosenIsSubsequence(libs, init, h);
      var kept := Chosen(libs, init, h);
      assert Patches(overrides)[..|overrides| - 1] == Patches(init);
      assert Patches(kept + [last])[..|kept|] == Patches(kept);
      assert kept + [] == kept;
    }
  }

  lemma {:induction false} AcceptedIsPatchable(libs: Libs, v: Json, overrides: seq<Override>)
    requires OverridesOf(libs, v, overrides)
    ensures AllPatchable(overrides) && OnlyPatchable(Patches(overrides))
  {
    forall o | o in overrides ensures o.patch.Keys <= PATCHABLE {
      var i :| 0 <= i < |overrides| && overrides[i] == o;
      Entry(libs, v, overrides, i);
    }
  }

  lemma {:induction false} SubsequencePatchable(part: seq<Object>, all: seq<Object>)
    requires Subsequence(part, all) && OnlyPatchable(all)
    ensures OnlyPatchable(part)
    decreases |all|
  {
    if all != [] {
      var init := all[..|all| - 1];
      if Subsequence(part, init) {
        SubsequencePatchable(part, init);
      } else {
        SubsequencePatchable(part[..|part| - 1], init);
        assert part == part[..|part| - 1] + [part[|part| - 1]];
      }
    }
  }

  /** The overrides of an accepted document can be applied to its completed form instead of the document as sent:
      every host ends with the same effective document. */
  lemma OverridesApplyToCompleted(libs: Libs, defaults: Object, doc: Object, p: Parsed, h: Host)
    requires Accepted(libs, defaults, doc, p)
    ensures Complete(defaults, PatchAll(p.global, Patches(Chosen(libs, p.overrides, h))))
         == Complete(defaults, PatchedFor(libs, p, h))
  {
    hide Complete, Valid, PATCHABLE, SENSITIVE, DryRun;
    var chosen := Patches(Chosen(libs, p.overrides, h));
    AcceptedIsPatchable(libs, At(doc, "overrides"), p.overrides);
    ChosenIsSubsequence(libs, p.overrides, h);
    SubsequencePatchable(chosen, Patches(p.overrides));
    PatchableIsInsensitive(chosen);
    FillingCommutesWithPatching(defaults, p.raw, chosen);
  }

  /** For an accepted document the fallback is dead: for every host and time the effective document is
      valid, it keeps everything outside the patchable sections, and its chain resolves. */
  lemma NeverFallsBack(libs: Libs, defaults: Object, doc: Object, p: Parsed, h: Host)
    requires Accepted(libs, defaults, doc, p)
    ensures Builds(libs, defaults, PatchedFor(libs, p, h))
    ensures forall k | IsFixed(k) :: At(Complete(defaults, PatchedFor(libs, p, h)), k) == At(p.global, k)
  {
    hide TreatmentOf, Complete, Valid, PatchAll, OverridesOf, DryRun, Patched, IsFixed, PATCHABLE, KEYS;
    AcceptedIsPatchable(libs, At(doc, "overrides"), p.overrides);
    ChosenIsSubsequence(libs, p.overrides, h);
    SinglesBuild(libs, defaults, p.raw, p.overrides);
    SubsetsBuild(libs, defaults, p.raw, Patches(p.overrides), Patches(Chosen(libs, p.overrides, h)));
    FixedWhenCompleted(defaults, p.raw, PatchedFor(libs, p, h));
  }

  lemma SinglesBuild(libs: Libs, defaults: Object, raw: Object, overrides: seq<Override>)
    requires DryRun(libs, defaults, raw, overrides)
    ensures forall p <- Patches(overrides) :: Builds(libs, defaults, Patched(raw, p))
  {
    forall p | p in Patches(overrides) ensures Builds(libs, defaults, Patched(raw, p)) {
      var i :| 0 <= i < |overrides| && Patches(overrides)[i] == p;
      assert overrides[i] in overrides;
    }
  }

  lemma SameTopology(libs: Libs, a: Object, b: Object)
    requires Valid(libs, a) && Valid(libs, b)
    requires At(a, "servers") == At(b, "servers") && At(a, "dcLookupMap") == At(b, "dcLookupMap")
    ensures TopologyOf(a).Some? && TopologyOf(b).Some? && ValidTopology(libs, TopologyOf(a).value)
    ensures TopologyOf(a).value.servers == TopologyOf(b).value.servers
    ensures TopologyOf(a).value.sites == TopologyOf(b).value.sites
  {
    hide ValidUnpatchable, ValidSections, ValidTopology, DecodeServers, DecodeSites, DecodeText;
  }

  /** Every server name a host of an accepted document is sent to is a key of that document's own servers. */
  lemma EffectiveChainResolves(libs: Libs, defaults: Object, doc: Object, p: Parsed, h: Host, answer: Option<string>)
    requires Accepted(libs, defaults, doc, p)
    requires var t := TopologyOf(Complete(defaults, PatchedFor(libs, p, h)));
      t.Some? ==> PossibleSite(libs, t.value.sites, h, answer)
    ensures var t := TopologyOf(Complete(defaults, PatchedFor(libs, p, h)));
      && t.Some? && TopologyOf(p.global).Some?
      && t.value.servers == TopologyOf(p.global).value.servers
      && t.value.sites == TopologyOf(p.global).value.sites
      && (answer.Some? ==> answer.value in t.value.sites)
      && forall name <- Chain(t.value, answer) :: name in TopologyOf(p.global).value.servers
  {
    hide Valid, Complete, TopologyOf, ValidTopology, PossibleSite, TreatmentOf, OverridesOf, DryRun, PatchedFor;
    hide KEYS, PATCHABLE;
    NeverFallsBack(libs, defaults, doc, p, h);
    FixedNames();
    var own := Complete(defaults, PatchedFor(libs, p, h));
    SameTopology(libs, own, p.global);
    ChainResolves(libs, TopologyOf(own).value, h, answer);
  }
}
