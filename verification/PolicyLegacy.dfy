/** The policy of a machine that has no remote document: config.ini's manifest URLs and subnets as servers and
    sites (FromLegacy in internal/policy/legacy.go, ManifestURL in internal/policy/match.go). */
module PolicyLegacy {
  import opened Json
  import opened PolicySchema
  import opened PolicySites

  const EXTERNAL := "external"
  const INTERNAL := "internal"
  const BACKUP := "internalBackup"
  const MANIFEST_PATH := "/v2/updates/manifest"

  datatype Config = Config(external: string, internal: string, backup: string, primaryInternal: bool,
    dcSubnets: map<string, seq<string>>)

  /** The topology, and the URLs kept whole because they do not end in the manifest path. */
  datatype Legacy = Legacy(topology: Topology, wholeUrls: map<string, string>)

  /** Config.validate: the primary's URL is set. */
  predicate Validated(c: Config) {
    if c.primaryInternal then c.internal != "" else c.external != ""
  }

  /** ParseDCSubnetMap: no domain controller is listed twice, compared as whole names in lower case. */
  predicate ListedOnce(libs: Libs, c: Config) {
    forall a <- c.dcSubnets, b <- c.dcSubnets :: libs.lower(a) == libs.lower(b) ==> a == b
  }

  /** The manifest URL config.ini gives a server name. */
  function Configured(c: Config, name: string): string {
    if name == EXTERNAL then c.external
    else if name == INTERNAL then c.internal
    else if name == BACKUP then c.backup
    else ""
  }

  /** strings.CutSuffix(url, ManifestPath). */
  function CutPath(url: string): (base: Option<string>)
    ensures base.Some? ==> url == base.value + MANIFEST_PATH
    ensures base.None? ==> forall b :: url != b + MANIFEST_PATH
  {
    var cut := |url| - |MANIFEST_PATH|;
    assert forall b :: url == b + MANIFEST_PATH ==> |b| == cut && url[|b|..] == MANIFEST_PATH;
    if cut >= 0 && url[cut..] == MANIFEST_PATH then
      assert url == url[..cut] + url[cut..];
      Some(url[..cut])
    else None
  }

  /** ManifestURL of a named server. */
  function ManifestUrl(l: Legacy, name: string): string {
    if name in l.wholeUrls then l.wholeUrls[name]
    else
      var base := if name in l.topology.servers then l.topology.servers[name] else "";
      if base == "" then "" else base + MANIFEST_PATH
  }

  lemma ThreeNames()
    ensures EXTERNAL != INTERNAL && INTERNAL != BACKUP && EXTERNAL != BACKUP
  {}

  /** The servers, and the URLs kept whole, that stand for the given manifest URLs. */
  predicate Represents(urls: map<string, string>, servers: map<string, string>, wholeUrls: map<string, string>) {
    && servers.Keys == urls.Keys && wholeUrls.Keys <= urls.Keys
    && forall name <- urls ::
         match CutPath(urls[name])
         case None => servers[name] == urls[name] && name in wholeUrls && wholeUrls[name] == urls[name]
         case Some(base) => servers[name] == base && name !in wholeUrls
  }

  lemma NothingRepresented()
    ensures Represents(map[], map[], map[])
  {}

  function With(urls: map<string, string>, name: string, url: string): map<string, string> {
    if url == "" then urls else urls[name := url]
  }

  function Urls(c: Config): map<string, string> {
    With(With(With(map[], EXTERNAL, c.external), INTERNAL, c.internal), BACKUP, c.backup)
  }

  lemma UrlOf(c: Config, name: string)
    ensures name in Urls(c) <==> Configured(c, name) != ""
    ensures name in Urls(c) ==> Urls(c)[name] == Configured(c, name)
  {
    ThreeNames();
    hide EXTERNAL, INTERNAL, BACKUP;
  }

  /** addServer. */
  method AddServer(ghost urls: map<string, string>, servers: map<string, string>, wholeUrls: map<string, string>,
                   name: string, url: string)
      returns (s: map<string, string>, w: map<string, string>)
    requires Represents(urls, servers, wholeUrls) && name !in urls
    ensures Represents(With(urls, name, url), s, w)
  {
    if url == "" {
      return servers, wholeUrls;
    }
    var base := CutPath(url);
    s, w := servers[name := if base.None? then url else base.value], wholeUrls;
    if base.None? {
      w := w[name := url];
    }
  }

  method AddServers(c: Config) returns (servers: map<string, string>, wholeUrls: map<string, string>)
    ensures Represents(Urls(c), servers, wholeUrls)
  {
    ThreeNames();
    NothingRepresented();
    hide EXTERNAL, INTERNAL, BACKUP, Represents;
    servers, wholeUrls := AddServer(map[], map[], map[], EXTERNAL, c.external);
    ghost var first := With(map[], EXTERNAL, c.external);
    servers, wholeUrls := AddServer(first, servers, wholeUrls, INTERNAL, c.internal);
    servers, wholeUrls := AddServer(With(first, INTERNAL, c.internal), servers, wholeUrls, BACKUP, c.backup);
  }

  predicate LegacyDefault(c: Config, l: Legacy) {
    l.topology.defaultServer ==
      if c.external == "" || (c.internal != "" && c.primaryInternal && c.dcSubnets == map[]) then INTERNAL else EXTERNAL
  }

  predicate LegacySites(c: Config, l: Legacy) {
    && (c.internal == "" ==> l.topology.sites == map[])
    && (c.internal != "" ==> l.topology.sites.Keys == c.dcSubnets.Keys)
    && forall dc <- l.topology.sites :: dc in c.dcSubnets && l.topology.sites[dc] ==
         Site(c.dcSubnets[dc], INTERNAL,
              (if c.backup != "" then [BACKUP] else []) + (if c.external != "" then [EXTERNAL] else []), true)
  }

  predicate IsLegacy(c: Config, l: Legacy) {
    Represents(Urls(c), l.topology.servers, l.wholeUrls) && LegacyDefault(c, l) && LegacySites(c, l)
  }

  method FromLegacy(c: Config) returns (l: Legacy)
    ensures IsLegacy(c, l)
  {
    UrlOf(c, EXTERNAL);
    UrlOf(c, INTERNAL);
    UrlOf(c, BACKUP);
    ThreeNames();
    hide EXTERNAL, INTERNAL, BACKUP, MANIFEST_PATH, CutPath, Urls;
    var servers, wholeUrls := AddServers(c);
    var default := EXTERNAL;
    if EXTERNAL !in servers {
      default := INTERNAL;
    }
    if INTERNAL in servers && c.dcSubnets == map[] && c.primaryInternal {
      default := INTERNAL;
    }
    var sites: map<string, Site> := map[];
    if INTERNAL in servers {
      var backups := [];
      if BACKUP in servers {
        backups := backups + [BACKUP];
      }
      if EXTERNAL in servers {
        backups := backups + [EXTERNAL];
      }
      sites := SitesOf(c.dcSubnets, backups);
    }
    l := Legacy(Topology(servers, sites, default), wholeUrls);
  }

  method SitesOf(dcSubnets: map<string, seq<string>>, backups: seq<string>) returns (sites: map<string, Site>)
    ensures sites.Keys == dcSubnets.Keys
    ensures forall dc <- sites :: sites[dc] == Site(dcSubnets[dc], INTERNAL, backups, true)
  {
    sites := map[];
    var todo := dcSubnets.Keys;
    while todo != {}
      invariant todo <= dcSubnets.Keys && sites.Keys == dcSubnets.Keys - todo
      invariant forall dc <- sites :: sites[dc] == Site(dcSubnets[dc], INTERNAL, backups, true)
      decreases todo
    {
      var dc :| dc in todo;
      todo := todo - {dc};
      sites := sites[dc := Site(dcSubnets[dc], INTERNAL, backups, true)];
    }
  }

  lemma LegacyNames(c: Config, l: Legacy)
    requires IsLegacy(c, l)
    ensures forall name <- [EXTERNAL, INTERNAL, BACKUP] :: name in l.topology.servers <==> Configured(c, name) != ""
    ensures Configured(c, EXTERNAL) == c.external && Configured(c, INTERNAL) == c.internal
    ensures Configured(c, BACKUP) == c.backup
  {
    ThreeNames();
    UrlOf(c, EXTERNAL);
    UrlOf(c, INTERNAL);
    UrlOf(c, BACKUP);
    hide Urls, EXTERNAL, INTERNAL, BACKUP, CutPath;
  }

  lemma LegacyChainResolves(libs: Libs, c: Config, l: Legacy, h: Host, answer: Option<string>)
    requires IsLegacy(c, l) && (c.external != "" || c.internal != "") && PossibleSite(libs, l.topology.sites, h, answer)
    ensures forall name <- Chain(l.topology, answer) :: name in l.topology.servers
  {
    hide EXTERNAL, INTERNAL, BACKUP, Urls, Represents, Configured;
    LegacyNames(c, l);
  }

  /** The chains of all hosts name only existing servers exactly when one of the two main URLs is set. */
  lemma LegacyChainsResolveExactlyWhen(libs: Libs, c: Config, l: Legacy)
    requires IsLegacy(c, l)
    ensures (forall h, answer | PossibleSite(libs, l.topology.sites, h, answer) ::
               forall name <- Chain(l.topology, answer) :: name in l.topology.servers)
        <==> c.external != "" || c.internal != ""
  {
    var t := l.topology;
    if c.external != "" || c.internal != "" {
      hide IsLegacy, PossibleSite;
      forall h, answer | PossibleSite(libs, t.sites, h, answer)
        ensures forall name <- Chain(t, answer) :: name in t.servers
      {
        LegacyChainResolves(libs, c, l, h, answer);
      }
    } else {
      hide EXTERNAL, INTERNAL, BACKUP, Urls, Represents, Configured;
      LegacyNames(c, l);
      var nowhere := Host("", "", "", "", [], 0);
      assert PossibleSite(libs, t.sites, nowhere, None);
      assert Chain(t, None) == [INTERNAL] && INTERNAL in Chain(t, None) && INTERNAL !in t.servers;
    }
  }

  /** A validated config has one of them. */
  lemma ValidatedConfigResolves(libs: Libs, c: Config, l: Legacy, h: Host, answer: Option<string>)
    requires Validated(c) && IsLegacy(c, l) && PossibleSite(libs, l.topology.sites, h, answer)
    ensures Chain(l.topology, answer) != [] && forall name <- Chain(l.topology, answer) :: name in l.topology.servers
  {
    LegacyChainResolves(libs, c, l, h, answer);
  }

  /** Splitting a URL into a base and the manifest path loses nothing: the server is asked at the very
      URL config.ini named, except when that URL is the bare path, which leaves no base to ask. */
  lemma UrlIsKeptExactlyWhen(c: Config, l: Legacy, name: string)
    requires IsLegacy(c, l)
    ensures ManifestUrl(l, name) == Configured(c, name) <==> Configured(c, name) != MANIFEST_PATH
  {
    UrlOf(c, name);
    hide CutPath, Urls, EXTERNAL, INTERNAL, BACKUP;
    var url := Configured(c, name);
    if url == MANIFEST_PATH {
      assert url == "" + MANIFEST_PATH;
    }
  }

  /** The manifest URLs of a chain of servers, in order. */
  function ManifestUrls(l: Legacy, chain: seq<string>): seq<string> {
    seq(|chain|, i requires 0 <= i < |chain| => ManifestUrl(l, chain[i]))
  }

  /** dc is the one domain controller of config.ini's mapping that is the host's. */
  predicate MappedOnce(libs: Libs, c: Config, h: Host, dc: string) {
    && h.dc != "" && dc in c.dcSubnets && libs.dcLabel(dc) == libs.dcLabel(h.dc)
    && forall other <- c.dcSubnets :: libs.dcLabel(other) == libs.dcLabel(h.dc) ==> other == dc
  }

  predicate OnMappedNetwork(libs: Libs, c: Config, h: Host, dc: string) {
    dc in c.dcSubnets && exists subnet <- c.dcSubnets[dc], ip <- h.ips :: libs.contains(subnet, ip)
  }

  /** Apart from the bare manifest path, whose base is empty, any URL can be asked. */
  predicate NoBarePath(c: Config) {
    "/v2/updates/manifest" !in [c.internal, c.backup, c.external]
  }

  lemma ServerUrls(c: Config, l: Legacy)
    requires IsLegacy(c, l) && NoBarePath(c)
    ensures ManifestUrl(l, "internal") == c.internal && ManifestUrl(l, "internalBackup") == c.backup
    ensures ManifestUrl(l, "external") == c.external
  {
    LegacyNames(c, l);
    UrlIsKeptExactlyWhen(c, l, EXTERNAL);
    UrlIsKeptExactlyWhen(c, l, INTERNAL);
    UrlIsKeptExactlyWhen(c, l, BACKUP);
    hide ManifestUrl, IsLegacy, Configured;
  }

  lemma MappedChain(libs: Libs, c: Config, l: Legacy, h: Host, dc: string, answer: Option<string>)
    requires IsLegacy(c, l) && c.internal != "" && MappedOnce(libs, c, h, dc) && OnMappedNetwork(libs, c, h, dc)
    requires PossibleSite(libs, l.topology.sites, h, answer)
    ensures answer == Some(dc) && dc in l.topology.sites
    ensures Chain(l.topology, answer) == ["internal"] + (if c.backup != "" then ["internalBackup"] else [])
                                       + (if c.external != "" then ["external"] else [])
  {
    hide Represents, LegacyDefault, Urls;
    assert Candidate(libs, l.topology.sites, h, dc);
  }

  /** A host mapped to one domain controller, on one of its networks, asks the internal URL, its backup and the
      external one, in this order and as far as they are set. */
  lemma MappedHostAsks(libs: Libs, c: Config, l: Legacy, h: Host, dc: string, answer: Option<string>)
    requires IsLegacy(c, l) && c.internal != "" && MappedOnce(libs, c, h, dc) && OnMappedNetwork(libs, c, h, dc)
    requires PossibleSite(libs, l.topology.sites, h, answer) && NoBarePath(c)
    ensures answer == Some(dc) && dc in l.topology.sites
    ensures ManifestUrls(l, Chain(l.topology, answer))
         == [c.internal] + (if c.backup != "" then [c.backup] else []) + (if c.external != "" then [c.external] else [])
  {
    MappedChain(libs, c, l, h, dc, answer);
    ServerUrls(c, l);
    hide ManifestUrl, IsLegacy, Chain, PossibleSite, MappedOnce, OnMappedNetwork;
  }

  /** Every other host asks one URL: the internal one where no external one is set, or where it is the primary and no
      controller is mapped at all, and the external one everywhere else. */
  lemma UnmappedHostAsks(libs: Libs, c: Config, l: Legacy, h: Host, answer: Option<string>)
    requires IsLegacy(c, l) && PossibleSite(libs, l.topology.sites, h, answer) && NoBarePath(c)
    requires c.internal == "" || h.dc == "" || forall dc <- c.dcSubnets ::
               libs.dcLabel(dc) == libs.dcLabel(h.dc) ==> !OnMappedNetwork(libs, c, h, dc)
    ensures answer == None
    ensures ManifestUrls(l, Chain(l.topology, answer)) ==
      [if c.external == "" || (c.primaryInternal && c.internal != "" && c.dcSubnets == map[]) then c.internal
       else c.external]
  {
    ServerUrls(c, l);
    hide ManifestUrl, Represents, Urls;
  }

  /** config.ini compares whole names, the site lookup only their first label, so a validated config can
      still leave a host's site to the iteration order. */
  lemma LegacySiteCanBeAmbiguous(libs: Libs, c: Config, l: Legacy, h: Host, a: string, b: string)
    requires IsLegacy(c, l) && c.internal != "" && ListedOnce(libs, c) && c.dcSubnets.Keys == {a, b} && h.dc != ""
    requires libs.lower(a) != libs.lower(b) && libs.dcLabel(a) == libs.dcLabel(b) == libs.dcLabel(h.dc)
    requires InSubnets(libs, h.ips, c.dcSubnets[a]) && !InSubnets(libs, h.ips, c.dcSubnets[b])
    ensures PossibleSite(libs, l.topology.sites, h, Some(a)) && PossibleSite(libs, l.topology.sites, h, None)
  {
    var sites := l.topology.sites;
    assert Candidate(libs, sites, h, a) && AnswerAt(libs, sites, h, a) == Some(a);
    assert Candidate(libs, sites, h, b) && AnswerAt(libs, sites, h, b) == None;
  }
}
