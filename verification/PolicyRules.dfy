/** The rules of a document member by member, as validateDocument, parseOverrides and validateSelector
    (internal/policy/parse.go) list them. */
module PolicyRules {
  import opened Json
  import opened PolicySchema
  import opened PolicyComplete
  import opened PolicySites
  import opened PolicyOverrides

  lemma WholeNumbers(n: int, lo: int, hi: int, v: Json)
    ensures IsWhole(Num(n as real), lo, hi) <==> lo <= n <= hi
    ensures IsWhole(v, lo, hi) ==> v.Num? && v.n == v.n.Floor as real
  {
    assert (n as real).Floor == n;
  }

  predicate IsStruct(v: Json) {
    v.Null? || v.Obj?
  }

  /** The values Go decodes into a bool, a string and a string list. */
  predicate IsFlag(v: Json) {
    v.Null? || v.Bool?
  }

  predicate IsText(v: Json) {
    v.Null? || v.Str?
  }

  predicate IsTime(libs: Libs, v: Json) {
    v.Null? || (v.Str? && libs.parseTime(v.s).Some?)
  }

  predicate IsWord(v: Json, words: seq<string>) {
    v.Str? && v.s in words
  }

  predicate AtLeast(v: Json, lo: int) {
    IsWhole(v, lo, MAX_INT) || (v.Null? && lo <= 0)
  }

  predicate Between(v: Json, lo: int, hi: int) {
    IsWhole(v, lo, hi) || (v.Null? && lo <= 0 <= hi)
  }

  lemma RefreshRules(libs: Libs, v: Json)
    ensures Accepts(libs, REFRESH, v) <==>
      && IsStruct(v)
      && AtLeast(Get(v, "intervalMinutes"), -MAX_INT - 1) && AtLeast(Get(v, "staleAfterDays"), 0)
  {}

  lemma ControlFields()
    ensures CONTROL.Section? && CONTROL.fields.Keys == {"updater", "app"}
    ensures var updater := CONTROL.fields["updater"];
      updater.Section? && updater.fields.Keys == {"enabled", "reason", "until"}
      && updater.fields["enabled"] == Field(Flag) && updater.fields["reason"] == Field(OptionalText)
      && updater.fields["until"] == Field(Timestamp)
    ensures var app := CONTROL.fields["app"];
      app.Section? && app.fields.Keys == {"enabled", "mode", "reason", "until"}
      && app.fields["enabled"] == Field(Flag) && app.fields["reason"] == Field(OptionalText)
      && app.fields["until"] == Field(Timestamp)
      && app.fields["mode"] == Field(OneOf({"normal", "readonly", "maintenance"}))
  {}

  lemma ControlRules(libs: Libs, v: Json)
    ensures var updater, app := Get(v, "updater"), Get(v, "app");
      Accepts(libs, CONTROL, v) <==>
        && IsStruct(v) && IsStruct(updater) && IsStruct(app)
        && IsFlag(Get(updater, "enabled")) && IsText(Get(updater, "reason")) && IsTime(libs, Get(updater, "until"))
        && IsFlag(Get(app, "enabled")) && IsText(Get(app, "reason")) && IsTime(libs, Get(app, "until"))
        && IsWord(Get(app, "mode"), ["normal", "readonly", "maintenance"])
  {
    ControlFields();
    ControlUpdaterRules(libs, Get(v, "updater"));
    ControlAppRules(libs, Get(v, "app"));
    hide CONTROL, IsWord;
  }

  lemma ControlUpdaterRules(libs: Libs, v: Json)
    ensures Accepts(libs, CONTROL.fields["updater"], v) <==>
      && IsStruct(v)
      && IsFlag(Get(v, "enabled")) && IsText(Get(v, "reason")) && IsTime(libs, Get(v, "until"))
  {
    ControlFields();
    hide CONTROL;
  }

  lemma ModeWords(v: Json)
    ensures IsWord(v, ["normal", "readonly", "maintenance"]) <==> v.Str? && v.s in {"normal", "readonly", "maintenance"}
  {}

  lemma ControlAppRules(libs: Libs, v: Json)
    ensures Accepts(libs, CONTROL.fields["app"], v) <==>
      && IsStruct(v)
      && IsFlag(Get(v, "enabled")) && IsText(Get(v, "reason")) && IsTime(libs, Get(v, "until"))
      && IsWord(Get(v, "mode"), ["normal", "readonly", "maintenance"])
  {
    ControlFields();
    ModeWords(Get(v, "mode"));
    hide CONTROL, IsWord;
  }

  lemma LoggingFields()
    ensures LOGGING.Section? && LOGGING.fields.Keys == {"level", "maxSizeMB", "backups", "compress", "eventLog"}
    ensures LOGGING.fields["level"] == Field(OneOf({"debug", "info", "warn", "error"}))
    ensures LOGGING.fields["maxSizeMB"] == Field(Whole(1, 100)) && LOGGING.fields["backups"] == Field(Whole(0, 50))
    ensures LOGGING.fields["compress"] == LOGGING.fields["eventLog"] == Field(Flag)
  {}

  lemma LevelWords(v: Json)
    ensures IsWord(v, ["debug", "info", "warn", "error"]) <==> v.Str? && v.s in {"debug", "info", "warn", "error"}
  {}

  lemma LoggingRules(libs: Libs, v: Json)
    ensures Accepts(libs, LOGGING, v) <==>
      && IsStruct(v) && IsWord(Get(v, "level"), ["debug", "info", "warn", "error"])
      && Between(Get(v, "maxSizeMB"), 1, 100) && Between(Get(v, "backups"), 0, 50)
      && IsFlag(Get(v, "compress")) && IsFlag(Get(v, "eventLog"))
  {
    LoggingFields();
    LevelWords(Get(v, "level"));
    hide LOGGING, IsWord, IsWhole;
  }

  lemma ClientWsRules(libs: Libs, v: Json)
    ensures var commands := Get(v, "commands");
      Accepts(libs, CLIENT_WS, v) <==>
        && IsStruct(v) && IsFlag(Get(v, "enabled"))
        && (commands.Null? || (commands.Arr? && forall item <- commands.items ::
              IsWord(item, ["machine.info", "emly.manifest.check", "updater.manifest.check", "apps.list_upgradable",
                            "service.restart", "machine.reboot"])))
  {
    ClientWsMembers(libs, v);
    KnownCommands();
    hide KNOWN_COMMANDS, CLIENT_WS, Accepts;
  }

  lemma ClientWsMembers(libs: Libs, v: Json)
    ensures Accepts(libs, CLIENT_WS, v) <==>
      && IsStruct(v) && IsFlag(Get(v, "enabled")) && LeafAccepts(libs, Commands, Get(v, "commands"))
  {
    hide KNOWN_COMMANDS;
  }

  lemma KnownCommands()
    ensures forall s :: s in KNOWN_COMMANDS <==>
      s in ["machine.info", "emly.manifest.check", "updater.manifest.check", "apps.list_upgradable",
            "service.restart", "machine.reboot"]
  {}

  lemma UpdaterFields()
    ensures UPDATER.Section? && UPDATER.fields.Keys == {"pollIntervalMinutes", "channelOverride", "criticalWarning",
      "dcLookupRetry", "resolver", "selfUpdate", "installCertificate"}
    ensures UPDATER.fields["pollIntervalMinutes"] == Field(Whole(1, MAX_INT))
    ensures UPDATER.fields["channelOverride"] == Field(OptionalOneOf({"", "stable", "beta"}))
    ensures UPDATER.fields["selfUpdate"] == UPDATER.fields["installCertificate"] == TOGGLE
  {
    hide TOGGLE;
  }

  lemma ChannelWords(v: Json)
    ensures IsWord(v, ["", "stable", "beta"]) <==> v.Str? && v.s in {"", "stable", "beta"}
  {}

  lemma UpdaterRules(libs: Libs, v: Json)
    ensures var warning, retry, resolver := Get(v, "criticalWarning"), Get(v, "dcLookupRetry"), Get(v, "resolver");
      var self, certificate := Get(v, "selfUpdate"), Get(v, "installCertificate");
      Accepts(libs, UPDATER, v) <==>
        && IsStruct(v) && AtLeast(Get(v, "pollIntervalMinutes"), 1)
        && (Get(v, "channelOverride").Null? || IsWord(Get(v, "channelOverride"), ["", "stable", "beta"]))
        && IsStruct(warning) && IsFlag(Get(warning, "enabled")) && AtLeast(Get(warning, "seconds"), 0)
        && IsStruct(retry) && Between(Get(retry, "attempts"), 0, 60) && Between(Get(retry, "delaySeconds"), 0, 300)
        && IsStruct(resolver) && AtLeast(Get(resolver, "attempts"), 1)
        && AtLeast(Get(resolver, "baseBackoffSeconds"), 0)
        && IsStruct(self) && IsFlag(Get(self, "enabled"))
        && IsStruct(certificate) && IsFlag(Get(certificate, "enabled"))
  {
    UpdaterFields();
    ChannelWords(Get(v, "channelOverride"));
    WarningRules(libs, Get(v, "criticalWarning"));
    RetryRules(libs, Get(v, "dcLookupRetry"));
    ResolverRules(libs, Get(v, "resolver"));
    ToggleRules(libs, Get(v, "selfUpdate"));
    ToggleRules(libs, Get(v, "installCertificate"));
    hide UPDATER, TOGGLE, IsWhole, IsWord;
  }

  lemma NestedFields()
    ensures "criticalWarning" in UPDATER.fields && UPDATER.fields["criticalWarning"] ==
      Section(map["enabled" := Field(Flag), "seconds" := Field(Whole(0, MAX_INT))])
    ensures "dcLookupRetry" in UPDATER.fields && UPDATER.fields["dcLookupRetry"] ==
      Section(map["attempts" := Field(Whole(0, 60)), "delaySeconds" := Field(Whole(0, 300))])
    ensures "resolver" in UPDATER.fields && UPDATER.fields["resolver"] ==
      Section(map["attempts" := Field(Whole(1, MAX_INT)), "baseBackoffSeconds" := Field(Whole(0, MAX_INT))])
  {
    hide TOGGLE;
  }

  lemma WarningRules(libs: Libs, v: Json)
    ensures Accepts(libs, UPDATER.fields["criticalWarning"], v) <==>
      && IsStruct(v) && IsFlag(Get(v, "enabled")) && AtLeast(Get(v, "seconds"), 0)
  {
    NestedFields();
    hide IsWhole, UPDATER;
  }

  lemma RetryRules(libs: Libs, v: Json)
    ensures Accepts(libs, UPDATER.fields["dcLookupRetry"], v) <==>
      && IsStruct(v) && Between(Get(v, "attempts"), 0, 60) && Between(Get(v, "delaySeconds"), 0, 300)
  {
    NestedFields();
    hide IsWhole, UPDATER;
  }

  lemma ResolverRules(libs: Libs, v: Json)
    ensures Accepts(libs, UPDATER.fields["resolver"], v) <==>
      && IsStruct(v) && AtLeast(Get(v, "attempts"), 1) && AtLeast(Get(v, "baseBackoffSeconds"), 0)
  {
    NestedFields();
    hide IsWhole, UPDATER;
  }

  lemma ToggleRules(libs: Libs, v: Json)
    ensures Accepts(libs, TOGGLE, v) <==> IsStruct(v) && IsFlag(Get(v, "enabled"))
  {}

  /** The five sections together. */
  lemma SectionRules(libs: Libs, doc: Object)
    ensures ValidSections(libs, doc) <==>
      && Accepts(libs, REFRESH, At(doc, "refresh")) && Accepts(libs, CONTROL, At(doc, "control"))
      && Accepts(libs, UPDATER, At(doc, "updater")) && Accepts(libs, LOGGING, At(doc, "logging"))
      && Accepts(libs, CLIENT_WS, At(doc, "clientWs"))
  {
    hide REFRESH, CONTROL, UPDATER, LOGGING, CLIENT_WS, Accepts;
  }

  lemma HostIntegrityFields()
    ensures HOST_INTEGRITY.Section? && HOST_INTEGRITY.fields.Keys == {"enabled", "whitelist"}
    ensures HOST_INTEGRITY.fields["enabled"] == Field(Flag)
    ensures HOST_INTEGRITY.fields["whitelist"] == Section(map["hostnames" := Field(Texts), "hwids" := Field(Texts)])
  {}

  lemma WhitelistRules(libs: Libs, v: Json)
    ensures Accepts(libs, Section(map["hostnames" := Field(Texts), "hwids" := Field(Texts)]), v) <==>
      IsStruct(v) && IsTextList(Get(v, "hostnames")) && IsTextList(Get(v, "hwids"))
  {
    hide IsTextList;
  }

  lemma HostIntegrityRules(libs: Libs, v: Json)
    ensures var whitelist := Get(v, "whitelist");
      Accepts(libs, HOST_INTEGRITY, v) <==>
        && IsStruct(v) && IsFlag(Get(v, "enabled"))
        && IsStruct(whitelist) && IsTextList(Get(whitelist, "hostnames")) && IsTextList(Get(whitelist, "hwids"))
  {
    HostIntegrityFields();
    WhitelistRules(libs, Get(v, "whitelist"));
    hide HOST_INTEGRITY, IsTextList;
  }

  /** A document is valid when its head, its references, its ipcProtocol, hostIntegrity and the five sections are. */
  lemma DocumentRules(libs: Libs, doc: Object)
    ensures Valid(libs, doc) <==>
      && ValidHead(libs, doc) && ValidIpc(libs, At(doc, "ipcProtocol"))
      && Accepts(libs, HOST_INTEGRITY, At(doc, "hostIntegrity"))
      && TopologyOf(doc).Some? && ValidTopology(libs, TopologyOf(doc).value)
      && Accepts(libs, REFRESH, At(doc, "refresh")) && Accepts(libs, CONTROL, At(doc, "control"))
      && Accepts(libs, UPDATER, At(doc, "updater")) && Accepts(libs, LOGGING, At(doc, "logging"))
      && Accepts(libs, CLIENT_WS, At(doc, "clientWs"))
  {
    hide ValidSections, ValidHead, ValidIpc, Accepts, TopologyOf, ValidTopology;
    SectionRules(libs, doc);
  }

  lemma HeadRules(libs: Libs, doc: Object)
    ensures var at := At(doc, "generatedAt");
      ValidHead(libs, doc) <==>
        && AtLeast(At(doc, "schemaVersion"), -MAX_INT - 1) && AtLeast(At(doc, "revision"), 0)
        && at.Str? && at.s != "" && libs.parseTime(at.s).Some?
  {
    hide IsWhole;
  }

  predicate IsReference(t: Topology, name: string) {
    name != "" && name in t.servers
  }

  /** A site has subnets, all valid, and its servers exist. */
  lemma SiteRules(libs: Libs, t: Topology, site: Site)
    ensures ValidSite(libs, t.servers, site) <==>
      && site.subnets != [] && (forall c <- site.subnets :: libs.validCidr(c))
      && IsReference(t, site.baseServer) && forall b <- site.backups :: IsReference(t, b)
  {}

  /** Servers have names and valid URLs, the default server is one of them, and every site has a name of its own and
      is well formed. */
  lemma TopologyRules(libs: Libs, t: Topology)
    ensures ValidTopology(libs, t) <==>
      && t.servers != map[] && (forall name <- t.servers :: name != "" && libs.validUrl(t.servers[name]))
      && IsReference(t, t.defaultServer)
      && (forall name <- t.sites :: libs.lowerLabel(name) != "" && ValidSite(libs, t.servers, t.sites[name]))
      && forall a <- t.sites, b <- t.sites :: a != b ==> libs.lowerLabel(a) != libs.lowerLabel(b)
  {
    hide ValidSite;
  }

  // ---- reading the topology ----

  function TextsAs(texts: seq<string>): Json {
    Arr(seq(|texts|, i requires 0 <= i < |texts| => Str(texts[i])))
  }

  lemma TextsAreRead(texts: seq<string>)
    ensures TextsAs(texts).Arr? && IsTextList(TextsAs(texts)) && TextsOf(TextsAs(texts)) == texts
  {}

  /** A site is read from its own members, and is enabled unless it says otherwise. */
  lemma SiteIsRead(subnets: seq<string>, baseServer: string, backups: seq<string>, enabled: bool)
    ensures DecodeSite(Obj(map["internalSubnets" := TextsAs(subnets), "baseServer" := Str(baseServer),
                               "backupServer" := TextsAs(backups), "enabled" := Bool(enabled)]))
         == Some(Site(subnets, baseServer, backups, enabled))
    ensures DecodeSite(Obj(map["internalSubnets" := TextsAs(subnets), "baseServer" := Str(baseServer),
                               "backupServer" := TextsAs(backups)]))
         == Some(Site(subnets, baseServer, backups, true))
  {
    TextsAreRead(subnets);
    TextsAreRead(backups);
    hide TextsAs, TextsOf, IsTextList;
  }

  /** The topology of a document is its servers, its sites and its default server. */
  lemma TopologyIsRead(doc: Object, servers: map<string, string>, sites: map<string, Json>, server: string)
    requires At(doc, "servers") == Obj(map k | k in servers :: Str(servers[k]))
    requires At(doc, "dcLookupMap") == Obj(sites) && At(doc, "defaultServer") == Str(server)
    requires forall k <- sites :: DecodeSite(sites[k]).Some?
    ensures TopologyOf(doc) == Some(Topology(servers, map k | k in sites :: DecodeSite(sites[k]).value, server))
  {
    hide DecodeSite;
    assert DecodeServers(At(doc, "servers")).value == servers;
  }

  // ---- ipcProtocol ----

  predicate IsBound(libs: Libs, v: Json) {
    v.Null? || (v.Str? && libs.validVersion(v.s))
  }

  predicate IsRange(libs: Libs, v: Json) {
    IsBound(libs, Get(v, "min")) && IsBound(libs, Get(v, "max"))
  }

  lemma IpcFields()
    ensures IPC.Section? && IPC.fields.Keys == {"versions", "defaultVersion"} && IPC.fields["versions"].Table?
    ensures IPC.fields["defaultVersion"] == Field(Whole(-MAX_INT - 1, MAX_INT))
    ensures var entry := IPC.fields["versions"].entry;
      entry.Section? && entry.fields.Keys == {"updater", "emly", "enabled"}
      && entry.fields["updater"] == entry.fields["emly"] == RANGE && entry.fields["enabled"] == Field(OptionalFlag)
  {
    hide RANGE;
  }

  lemma RangeRules(libs: Libs, v: Json)
    requires Accepts(libs, RANGE, v)
    ensures ValidRange(libs, Typed(RANGE, v)) <==> IsRange(libs, v)
  {
    assert Accepts(libs, Field(OptionalText), Get(v, "min")) && Accepts(libs, Field(OptionalText), Get(v, "max"));
    assert Get(Typed(RANGE, v), "min") == Get(v, "min") && Get(Typed(RANGE, v), "max") == Get(v, "max");
  }

  lemma VersionRules(libs: Libs, v: Json)
    requires Accepts(libs, IPC.fields["versions"].entry, v)
    ensures var typed := Typed(IPC.fields["versions"].entry, v);
      && (ValidRange(libs, Get(typed, "updater")) <==> IsRange(libs, Get(v, "updater")))
      && (ValidRange(libs, Get(typed, "emly")) <==> IsRange(libs, Get(v, "emly")))
      && Get(typed, "enabled") == Get(v, "enabled")
  {
    IpcFields();
    hide IPC, RANGE, ValidRange, IsRange;
    RangeRules(libs, Get(v, "updater"));
    RangeRules(libs, Get(v, "emly"));
  }

  lemma VersionTable(libs: Libs, v: Json)
    requires Accepts(libs, IPC, v)
    ensures var typed, versions, entry := Typed(IPC, v), Fields(Get(v, "versions")), IPC.fields["versions"].entry;
      && Fields(Get(typed, "versions")).Keys == versions.Keys
      && forall key <- versions ::
           Fields(Get(typed, "versions"))[key] == Typed(entry, versions[key]) && Accepts(libs, entry, versions[key])
  {
    IpcFields();
    hide IPC, RANGE;
    var table := IPC.fields["versions"];
    assert Accepts(libs, table, Get(v, "versions"));
    assert Get(Typed(IPC, v), "versions") == Typed(table, Get(v, "versions"));
  }

  lemma DefaultVersion(libs: Libs, v: Json)
    requires Accepts(libs, IPC, v)
    ensures var default := Get(v, "defaultVersion");
      && (default.Null? || default.Num?)
      && Get(Typed(IPC, v), "defaultVersion") == if default.Null? then Num(0.0) else default
  {
    IpcFields();
    hide IPC, RANGE;
    assert Accepts(libs, IPC.fields["defaultVersion"], Get(v, "defaultVersion"));
    assert Get(Typed(IPC, v), "defaultVersion") == Typed(IPC.fields["defaultVersion"], Get(v, "defaultVersion"));
  }

  lemma VersionShape(libs: Libs, v: Json)
    ensures IPC.fields["versions"].Table?
    ensures Accepts(libs, IPC.fields["versions"].entry, v) <==>
      && IsStruct(v) && IsFlag(Get(v, "enabled"))
      && IsRangeShaped(Get(v, "updater")) && IsRangeShaped(Get(v, "emly"))
  {
    IpcFields();
    RangeShape(libs, Get(v, "updater"));
    RangeShape(libs, Get(v, "emly"));
    hide IPC, RANGE, IsRangeShaped;
  }

  lemma RangeShape(libs: Libs, v: Json)
    ensures Accepts(libs, RANGE, v) <==> IsRangeShaped(v)
  {}

  predicate IsRangeShaped(v: Json) {
    IsStruct(v) && IsText(Get(v, "min")) && IsText(Get(v, "max"))
  }

  predicate IsVersionTable(v: Json) {
    v.Null? || (v.Obj? && forall key <- v.fields ::
      && IsStruct(v.fields[key]) && IsFlag(Get(v.fields[key], "enabled"))
      && IsRangeShaped(Get(v.fields[key], "updater")) && IsRangeShaped(Get(v.fields[key], "emly")))
  }

  /** The types of ipcProtocol. */
  lemma IpcShape(libs: Libs, v: Json)
    ensures Accepts(libs, IPC, v) <==>
      IsStruct(v) && IsVersionTable(Get(v, "versions")) && AtLeast(Get(v, "defaultVersion"), -MAX_INT - 1)
  {
    IpcFields();
    hide IPC, RANGE, IsRangeShaped, IsWhole, IsVersionTable;
    VersionTableShape(libs, Get(v, "versions"));
  }

  lemma VersionTableShape(libs: Libs, v: Json)
    ensures Accepts(libs, IPC.fields["versions"], v) <==> IsVersionTable(v)
  {
    IpcFields();
    hide IPC, RANGE, IsRangeShaped;
    if v.Obj? {
      forall key | key in v.fields
        ensures Accepts(libs, IPC.fields["versions"].entry, v.fields[key]) <==>
          && IsStruct(v.fields[key]) && IsFlag(Get(v.fields[key], "enabled"))
          && IsRangeShaped(Get(v.fields[key], "updater")) && IsRangeShaped(Get(v.fields[key], "emly"))
      {
        VersionShape(libs, v.fields[key]);
      }
    }
  }

  /** Beyond the types, every version has a positive number and readable bounds, and the default, 0 when omitted, is a
      listed version that is not disabled. */
  lemma IpcRulesExactly(libs: Libs, v: Json)
    ensures var versions, default := Fields(Get(v, "versions")), Get(v, "defaultVersion");
      ValidIpc(libs, v) <==>
        && Accepts(libs, IPC, v)
        && (forall key <- versions ::
              && libs.atoi(key).Some? && libs.atoi(key).value > 0
              && IsRange(libs, Get(versions[key], "updater")) && IsRange(libs, Get(versions[key], "emly")))
        && var name := libs.itoa(if default.Num? then default.n.Floor else 0);
           name in versions && Get(versions[name], "enabled") != Bool(false)
  {
    if Accepts(libs, IPC, v) {
      AcceptedIpcRules(libs, v);
    }
    hide Accepts, IPC, IpcRules, Typed, IsRange;
  }

  lemma AcceptedIpcRules(libs: Libs, v: Json)
    requires Accepts(libs, IPC, v)
    ensures var versions, default := Fields(Get(v, "versions")), Get(v, "defaultVersion");
      IpcRules(libs, Typed(IPC, v)) <==>
        && (forall key <- versions ::
              && libs.atoi(key).Some? && libs.atoi(key).value > 0
              && IsRange(libs, Get(versions[key], "updater")) && IsRange(libs, Get(versions[key], "emly")))
        && var name := libs.itoa(if default.Num? then default.n.Floor else 0);
           name in versions && Get(versions[name], "enabled") != Bool(false)
  {
    hide IPC, ValidRange, IsRange, Accepts, Typed;
    IpcFields();
    VersionTable(libs, v);
    DefaultVersion(libs, v);
    var versions := Fields(Get(v, "versions"));
    forall key | key in versions
      ensures var e := Typed(IPC.fields["versions"].entry, versions[key]);
        && (ValidRange(libs, Get(e, "updater")) <==> IsRange(libs, Get(versions[key], "updater")))
        && (ValidRange(libs, Get(e, "emly")) <==> IsRange(libs, Get(versions[key], "emly")))
        && Get(e, "enabled") == Get(versions[key], "enabled")
    {
      VersionRules(libs, versions[key]);
    }
    assert (0.0).Floor == 0;
  }

  // ---- selectors and overrides ----

  /** A selector with `all` stands alone, is true, and is allowed only in match; null members do not count. */
  lemma AllSelectorRules(libs: Libs, raw: Json, s: Selector, allowAll: bool)
    requires raw.Obj? && !Get(raw, "all").Null?
    ensures ValidSelector(libs, raw, s, allowAll) <==>
      allowAll && Get(raw, "all") == Bool(true) && forall k :: k != "all" ==> Get(raw, k).Null?
  {
    var present := set k | k in raw.fields && !raw.fields[k].Null?;
    assert "all" in present;
    if present == {"all"} {
      forall k | k != "all" ensures Get(raw, k).Null? {
        assert k !in present;
      }
    }
    if forall k :: k != "all" ==> Get(raw, k).Null? {
      assert forall k <- present :: Get(raw, k) == raw.fields[k];
      assert present == {"all"};
    }
  }

  /** Any other needs a list that is not empty, and its subnets must be valid; what is not an object is no selector. */
  lemma ListSelectorRules(libs: Libs, raw: Json, s: Selector, allowAll: bool)
    ensures !raw.Obj? ==> !ValidSelector(libs, raw, s, allowAll)
    ensures raw.Obj? && Get(raw, "all").Null? ==>
      (ValidSelector(libs, raw, s, allowAll) <==>
         && (ListOf(s.hwids) != [] || ListOf(s.hostnames) != [] || ListOf(s.dcs) != [] || ListOf(s.domains) != []
             || ListOf(s.subnets) != [])
         && forall i | 0 <= i < |ListOf(s.subnets)| :: libs.validCidr(ListOf(s.subnets)[i]))
  {}

  /** An override needs an id, a match and a patch of patchable sections; except and until may be missing. */
  lemma OverrideRules(libs: Libs, item: Json)
    ensures var id, until, patch := Get(item, "id"), Get(item, "until"), Get(item, "patch");
      var m, e := Get(item, "match"), Get(item, "except");
      ParseOverride(libs, item).Some? <==>
        && item.Obj? && id.Str? && id.s != ""
        && DecodeSelector(m).Some? && ValidSelector(libs, m, DecodeSelector(m).value, true)
        && (e.Null? || (DecodeSelector(e).Some? && ValidSelector(libs, e, DecodeSelector(e).value, false)))
        && (until.Null? || (until.Str? && libs.parseTime(until.s).Some?))
        && patch.Obj? && forall k <- patch.fields :: k in ["control", "updater", "logging", "defaultServer", "clientWs"]
    ensures ParseOverride(libs, item).Some? ==>
      var o, until := ParseOverride(libs, item).value, Get(item, "until");
      && Str(o.id) == Get(item, "id") && Some(o.match_) == DecodeSelector(Get(item, "match"))
      && o.except == (if Get(item, "except").Null? then None else DecodeSelector(Get(item, "except")))
      && o.until == (if until.Null? then None else Some(until.s)) && Obj(o.patch) == Get(item, "patch")
  {
    PatchableNames();
    hide PATCHABLE, ValidSelector;
    NullSelector();
    hide DecodeSelector;
  }

  /** Each list of a selector is read from its own member, and so is `all`. */
  lemma SelectorIsRead(hwids: seq<string>, hostnames: seq<string>, dcs: seq<string>, subnets: seq<string>,
                       domains: seq<string>)
    ensures DecodeSelector(Obj(map["all" := Bool(true)])) == Some(Selector(true, None, None, None, None, None))
    ensures DecodeSelector(Obj(map["hwids" := TextsAs(hwids), "hostnames" := TextsAs(hostnames), "dcs" := TextsAs(dcs),
                                   "subnets" := TextsAs(subnets), "domains" := TextsAs(domains)]))
         == Some(Selector(false, Some(hwids), Some(hostnames), Some(dcs), Some(subnets), Some(domains)))
  {
    TextsAreRead(hwids);
    TextsAreRead(hostnames);
    TextsAreRead(dcs);
    TextsAreRead(subnets);
    TextsAreRead(domains);
    hide TextsAs, TextsOf;
  }

  /** A value is a selector when it is an object or null, `all` a flag and every list a list of texts. */
  lemma SelectorShape(v: Json)
    ensures DecodeSelector(v).Some? <==>
      && IsStruct(v) && IsFlag(Get(v, "all")) && IsTextList(Get(v, "hwids")) && IsTextList(Get(v, "hostnames"))
      && IsTextList(Get(v, "dcs")) && IsTextList(Get(v, "subnets")) && IsTextList(Get(v, "domains"))
  {
    hide IsTextList;
  }

  lemma NullSelector()
    ensures DecodeSelector(Null).Some?
  {}

  lemma PatchableNames()
    ensures forall k :: k in PATCHABLE <==> k in ["control", "updater", "logging", "defaultServer", "clientWs"]
  {}
}
