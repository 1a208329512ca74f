/** The smallest remote document that is accepted: what a machine needs from the server beyond the defaults
    of internal/policy/legacy.go. It also shows that the results about accepted documents are about something. */
module PolicyExample {
  import opened Json
  import opened PolicySchema
  import opened PolicyComplete
  import opened PolicySites
  import opened PolicyOverrides

  const APP := Obj(map["mode" := Str("normal")])
  const CONTROL_DEFAULTS := Obj(map["app" := APP])
  const RESOLVER := Obj(map["attempts" := Num(3.0)])
  const UPDATER_DEFAULTS := Obj(map["pollIntervalMinutes" := Num(30.0), "resolver" := RESOLVER])
  const LOGGING_DEFAULTS := Obj(map["level" := Str("info"), "maxSizeMB" := Num(2.0)])

  const VERSIONS := Obj(map["1" := Obj(map[])])
  const IPC_DEFAULTS := Obj(map["versions" := VERSIONS, "defaultVersion" := Num(1.0)])

  /** The default values without which a section would not be valid. */
  const DEFAULTS: Object := map["control" := CONTROL_DEFAULTS, "updater" := UPDATER_DEFAULTS,
    "logging" := LOGGING_DEFAULTS, "ipcProtocol" := IPC_DEFAULTS]

  function Minimal(at: string, url: string): Object {
    map["schemaVersion" := Num(1.0), "generatedAt" := Str(at), "servers" := Obj(map["main" := Str(url)]),
        "defaultServer" := Str("main")]
  }

  lemma MinimalMembers(at: string, url: string)
    ensures var doc := Minimal(at, url);
      && At(doc, "schemaVersion") == Num(1.0) && At(doc, "revision") == Null && At(doc, "generatedAt") == Str(at)
      && At(doc, "servers") == Obj(map["main" := Str(url)]) && At(doc, "defaultServer") == Str("main")
      && At(doc, "dcLookupMap") == Null && At(doc, "hostIntegrity") == Null && At(doc, "ipcProtocol") == Null
      && At(doc, "overrides") == Null && doc - {"overrides"} == doc
  {}

  lemma MinimalHasNoSections(at: string, url: string)
    ensures forall k <- MERGED :: At(Minimal(at, url), k) == Null
  {
    DefaultsOf();
    MinimalSections(at, url);
    hide MERGED, DEFAULTS, Minimal;
  }

  lemma MinimalSections(at: string, url: string)
    ensures var doc := Minimal(at, url);
      && At(doc, "refresh") == Null && At(doc, "control") == Null && At(doc, "updater") == Null
      && At(doc, "logging") == Null && At(doc, "clientWs") == Null
  {}

  lemma DefaultIpc()
    ensures At(DEFAULTS, "ipcProtocol") == IPC_DEFAULTS
  {}

  lemma Treatments()
    ensures TreatmentOf("schemaVersion").Copied? && TreatmentOf("revision").Copied?
    ensures TreatmentOf("generatedAt").Copied?
    ensures TreatmentOf("servers").Copied? && TreatmentOf("defaultServer").Copied?
    ensures TreatmentOf("dcLookupMap") == Neutral(NO_SITES)
    ensures TreatmentOf("hostIntegrity") == Neutral(NO_HOST_INTEGRITY)
    ensures TreatmentOf("ipcProtocol").FromDefaults?
  {}

  lemma CompletedHead(at: string, url: string)
    ensures var c := Complete(DEFAULTS, Minimal(at, url));
      && At(c, "schemaVersion") == Num(1.0) && At(c, "revision") == Null && At(c, "generatedAt") == Str(at)
      && At(c, "hostIntegrity") == NO_HOST_INTEGRITY && At(c, "ipcProtocol") == IPC_DEFAULTS
  {
    MinimalMembers(at, url);
    DefaultIpc();
    FixedNames();
    Treatments();
    hide Minimal, TreatmentOf, KEYS, DEFAULTS, MERGED, PATCHABLE;
    CompletedMember(DEFAULTS, Minimal(at, url), "schemaVersion");
    CompletedMember(DEFAULTS, Minimal(at, url), "revision");
    CompletedMember(DEFAULTS, Minimal(at, url), "generatedAt");
    CompletedMember(DEFAULTS, Minimal(at, url), "hostIntegrity");
    CompletedMember(DEFAULTS, Minimal(at, url), "ipcProtocol");
    hide Complete;
  }

  lemma CompletedTopology(at: string, url: string)
    ensures var c := Complete(DEFAULTS, Minimal(at, url));
      && At(c, "servers") == Obj(map["main" := Str(url)]) && At(c, "defaultServer") == Str("main")
      && At(c, "dcLookupMap") == NO_SITES
  {
    MinimalMembers(at, url);
    FixedNames();
    DefaultServerIsCopied();
    Treatments();
    hide Minimal, TreatmentOf, KEYS, DEFAULTS, PATCHABLE;
    CompletedMember(DEFAULTS, Minimal(at, url), "servers");
    CompletedMember(DEFAULTS, Minimal(at, url), "defaultServer");
    CompletedMember(DEFAULTS, Minimal(at, url), "dcLookupMap");
    hide Complete;
  }

  lemma CompletedSections(at: string, url: string)
    ensures forall k <- MERGED :: At(Complete(DEFAULTS, Minimal(at, url)), k) == At(DEFAULTS, k)
  {
    MinimalHasNoSections(at, url);
    MergedAreLayered();
    hide Minimal, TreatmentOf, KEYS, DEFAULTS, MERGED, Complete;
    forall k | k in MERGED ensures At(Complete(DEFAULTS, Minimal(at, url)), k) == At(DEFAULTS, k) {
      CompletedMember(DEFAULTS, Minimal(at, url), k);
    }
  }

  lemma NullSections(libs: Libs)
    ensures Accepts(libs, REFRESH, Null) && Accepts(libs, CLIENT_WS, Null) && Accepts(libs, TOGGLE, Null)
  {}

  lemma ControlDefaults(libs: Libs)
    ensures Accepts(libs, CONTROL, CONTROL_DEFAULTS)
  {
    assert Get(CONTROL_DEFAULTS, "app") == APP && Get(CONTROL_DEFAULTS, "updater") == Null;
    assert Accepts(libs, CONTROL.fields["app"], APP);
    assert Accepts(libs, CONTROL.fields["updater"], Null);
  }

  lemma UpdaterDefaults(libs: Libs)
    ensures Accepts(libs, UPDATER, UPDATER_DEFAULTS)
  {
    UpdaterMembers();
    UpdaterValues(libs);
    UpdaterLeaves(libs);
    hide UPDATER, UPDATER_DEFAULTS, RESOLVER, TOGGLE;
  }

  lemma UpdaterMembers()
    ensures UPDATER.Section? && UPDATER_DEFAULTS.Obj?
    ensures UPDATER.fields.Keys == {"pollIntervalMinutes", "resolver", "channelOverride", "criticalWarning",
      "dcLookupRetry", "selfUpdate", "installCertificate"}
    ensures Get(UPDATER_DEFAULTS, "pollIntervalMinutes") == Num(30.0) && Get(UPDATER_DEFAULTS, "resolver") == RESOLVER
    ensures forall k <- UPDATER.fields :: k !in ["pollIntervalMinutes", "resolver"] ==> Get(UPDATER_DEFAULTS, k) == Null
  {
    hide TOGGLE, RESOLVER;
  }

  lemma UpdaterValues(libs: Libs)
    ensures Accepts(libs, UPDATER.fields["pollIntervalMinutes"], Num(30.0))
    ensures Accepts(libs, UPDATER.fields["resolver"], RESOLVER)
  {
    hide TOGGLE;
  }

  lemma UpdaterLeaves(libs: Libs)
    ensures forall k <- UPDATER.fields ::
      k !in ["pollIntervalMinutes", "resolver"] ==> Accepts(libs, UPDATER.fields[k], Null)
  {
    NullSections(libs);
  }

  lemma LoggingDefaults(libs: Libs)
    ensures Accepts(libs, LOGGING, LOGGING_DEFAULTS)
  {}

  lemma DefaultsOf()
    ensures At(DEFAULTS, "control") == CONTROL_DEFAULTS && At(DEFAULTS, "updater") == UPDATER_DEFAULTS
    ensures At(DEFAULTS, "logging") == LOGGING_DEFAULTS
    ensures At(DEFAULTS, "refresh") == Null && At(DEFAULTS, "clientWs") == Null
    ensures MERGED.Keys == {"refresh", "control", "updater", "logging", "clientWs"}
    ensures MERGED["refresh"] == REFRESH && MERGED["control"] == CONTROL && MERGED["updater"] == UPDATER
    ensures MERGED["logging"] == LOGGING && MERGED["clientWs"] == CLIENT_WS
  {
    hide REFRESH, CONTROL, UPDATER, LOGGING, CLIENT_WS, CONTROL_DEFAULTS, UPDATER_DEFAULTS, LOGGING_DEFAULTS;
  }

  lemma DefaultSections(libs: Libs)
    ensures forall k <- MERGED :: Accepts(libs, MERGED[k], At(DEFAULTS, k))
  {
    NullSections(libs);
    ControlDefaults(libs);
    UpdaterDefaults(libs);
    LoggingDefaults(libs);
    DefaultsOf();
    hide Accepts, MERGED, DEFAULTS, REFRESH, CONTROL, UPDATER, LOGGING, CLIENT_WS;
    hide CONTROL_DEFAULTS, UPDATER_DEFAULTS, LOGGING_DEFAULTS;
  }

  lemma OneServer(url: string)
    ensures DecodeServers(Obj(map["main" := Str(url)])) == Some(map["main" := url])
    ensures DecodeSites(NO_SITES) == Some(map[])
  {
    assert DecodeServers(Obj(map["main" := Str(url)])).value == map["main" := url];
    assert DecodeSites(NO_SITES).value == map[];
  }

  lemma NoHostIntegrityIsValid(libs: Libs)
    ensures Accepts(libs, HOST_INTEGRITY, NO_HOST_INTEGRITY)
  {
    assert Accepts(libs, HOST_INTEGRITY.fields["whitelist"], Null);
    assert Accepts(libs, HOST_INTEGRITY.fields["enabled"], Bool(false));
  }

  lemma IpcMembers()
    ensures IPC_DEFAULTS.Obj? && Get(IPC_DEFAULTS, "versions") == VERSIONS
    ensures Get(IPC_DEFAULTS, "defaultVersion") == Num(1.0)
    ensures IPC.Section? && IPC.fields.Keys == {"versions", "defaultVersion"} && IPC.fields["versions"].Table?
    ensures IPC.fields["defaultVersion"] == Field(Whole(-MAX_INT - 1, MAX_INT))
    ensures var entry := IPC.fields["versions"].entry;
      entry.Section? && entry.fields.Keys == {"updater", "emly", "enabled"}
      && entry.fields["updater"] == entry.fields["emly"] == RANGE && entry.fields["enabled"] == Field(OptionalFlag)
  {
    hide VERSIONS, RANGE;
  }

  lemma EmptyRange(libs: Libs)
    ensures Accepts(libs, RANGE, Null) && ValidRange(libs, Typed(RANGE, Null))
  {
    assert Get(Typed(RANGE, Null), "min") == Null && Get(Typed(RANGE, Null), "max") == Null;
  }

  lemma EmptyVersion(libs: Libs)
    ensures var entry := IPC.fields["versions"].entry; var typed := Typed(entry, Obj(map[]));
      && Accepts(libs, entry, Obj(map[])) && Get(typed, "enabled") == Null
      && ValidRange(libs, Get(typed, "updater")) && ValidRange(libs, Get(typed, "emly"))
  {
    IpcMembers();
    EmptyRange(libs);
    hide RANGE, IPC, ValidRange, VERSIONS, IPC_DEFAULTS;
  }

  lemma TypedMember(schema: Schema, v: Json, k: string)
    requires schema.Section? && v.Obj? && k in schema.fields
    ensures Typed(schema, v).Obj? && Get(Typed(schema, v), k) == Typed(schema.fields[k], Get(v, k))
  {}

  lemma TypedVersions(table: Schema)
    requires table.Table?
    ensures Typed(table, VERSIONS) == Obj(map["1" := Typed(table.entry, Obj(map[]))])
  {
    assert Typed(table, VERSIONS).fields == map["1" := Typed(table.entry, Obj(map[]))];
  }

  lemma IpcIsAccepted(libs: Libs)
    ensures Accepts(libs, IPC, IPC_DEFAULTS)
  {
    IpcMembers();
    EmptyVersion(libs);
    hide IPC, IPC_DEFAULTS;
    assert (1.0).Floor == 1;
    assert Accepts(libs, IPC.fields["versions"], VERSIONS);
  }

  lemma DefaultIpcIsValid(libs: Libs)
    requires libs.atoi("1") == Some(1) && libs.itoa(1) == "1"
    ensures ValidIpc(libs, IPC_DEFAULTS)
  {
    hide IPC, ValidRange, IPC_DEFAULTS, VERSIONS, Typed, Accepts;
    IpcMembers();
    EmptyVersion(libs);
    IpcIsAccepted(libs);
    TypedMember(IPC, IPC_DEFAULTS, "versions");
    TypedMember(IPC, IPC_DEFAULTS, "defaultVersion");
    TypedVersions(IPC.fields["versions"]);
    WholeStays();
    assert (1.0).Floor == 1;
  }

  lemma WholeStays()
    ensures Typed(Field(Whole(-MAX_INT - 1, MAX_INT)), Num(1.0)) == Num(1.0)
  {}

  lemma NoOverrides(libs: Libs, raw: Object)
    ensures OverridesOf(libs, Null, []) && DryRun(libs, DEFAULTS, raw, [])
  {
    hide ParseOverride, Builds, Patched, DEFAULTS;
  }

  lemma MinimalIsValid(libs: Libs, at: string, url: string)
    requires at != "" && libs.parseTime(at).Some? && libs.validUrl(url)
    requires libs.atoi("1") == Some(1) && libs.itoa(1) == "1"
    ensures Valid(libs, Complete(DEFAULTS, Minimal(at, url)))
  {
    hide ValidIpc, HOST_INTEGRITY, IPC_DEFAULTS, Complete, Accepts, MERGED, DEFAULTS, Minimal, NO_SITES;
    hide NO_HOST_INTEGRITY, DecodeServers, DecodeSites;
    CompletedHead(at, url);
    CompletedTopology(at, url);
    CompletedSections(at, url);
    DefaultSections(libs);
    OneServer(url);
    DefaultIpcIsValid(libs);
    NoHostIntegrityIsValid(libs);
    var c := Complete(DEFAULTS, Minimal(at, url));
    assert TopologyOf(c) == Some(Topology(map["main" := url], map[], "main"));
    forall k | k in MERGED ensures Accepts(libs, MERGED[k], At(c, k)) {
      assert At(c, k) == At(DEFAULTS, k);
    }
    assert ValidTopology(libs, TopologyOf(c).value) by {
      assert "main" in TopologyOf(c).value.servers && "main" != "";
    }
  }

  /** A head, one server and a default server are enough. */
  lemma MinimalIsAccepted(libs: Libs, at: string, url: string)
    requires at != "" && libs.parseTime(at).Some? && libs.validUrl(url)
    requires libs.atoi("1") == Some(1) && libs.itoa(1) == "1"
    ensures var doc := Minimal(at, url);
      Accepted(libs, DEFAULTS, doc, Parsed(Complete(DEFAULTS, doc), doc, DEFAULTS, []))
  {
    hide Complete, Valid, DEFAULTS, Minimal, OverridesOf, DryRun, NO_HOST_INTEGRITY;
    MinimalMembers(at, url);
    MinimalIsValid(libs, at, url);
    NoOverrides(libs, Minimal(at, url));
  }
}
