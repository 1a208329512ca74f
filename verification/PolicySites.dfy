/** The topology of a completed document: its servers and sites, their rules in validateDocument
    (internal/policy/parse.go), and the site and server chain of a host (internal/policy/match.go). */
module PolicySites {
  import opened Json
  import opened PolicySchema

  datatype Site = Site(subnets: seq<string>, baseServer: string, backups: seq<string>, enabled: bool)

  datatype Topology = Topology(servers: map<string, string>, sites: map<string, Site>, defaultServer: string)

  datatype Host = Host(hwid: string, hostname: string, dc: string, domain: string, ips: seq<string>, now: int)

  /** Decoding: null is the zero value, a wrong type an error. */
  function DecodeText(v: Json): Option<string> {
    match v
    case Null => Some("")
    case Str(s) => Some(s)
    case _ => None
  }

  function TextsOf(v: Json): (r: seq<string>)
    requires IsTextList(v)
  {
    if v.Null? then []
    else seq(|v.items|, i requires 0 <= i < |v.items| => if v.items[i].Str? then v.items[i].s else "")
  }

  function DecodeServers(v: Json): Option<map<string, string>> {
    if v.Null? then Some(map[])
    else if v.Obj? && forall k <- v.fields :: DecodeText(v.fields[k]).Some? then
      Some(map k | k in v.fields :: DecodeText(v.fields[k]).value)
    else None
  }

  function DecodeSite(v: Json): Option<Site> {
    var base, enabled := DecodeText(Get(v, "baseServer")), Get(v, "enabled");
    var subnets, backups := Get(v, "internalSubnets"), Get(v, "backupServer");
    if (v.Null? || v.Obj?) && base.Some? && IsTextList(subnets) && IsTextList(backups)
       && (enabled.Null? || enabled.Bool?)
    then Some(Site(TextsOf(subnets), base.value, TextsOf(backups), enabled.Null? || enabled.b))
    else None
  }

  function DecodeSites(v: Json): Option<map<string, Site>> {
    if v.Null? then Some(map[])
    else if v.Obj? && forall k <- v.fields :: DecodeSite(v.fields[k]).Some? then
      Some(map k | k in v.fields :: DecodeSite(v.fields[k]).value)
    else None
  }

  function TopologyOf(doc: Object): Option<Topology> {
    var servers, sites := DecodeServers(At(doc, "servers")), DecodeSites(At(doc, "dcLookupMap"));
    var default := DecodeText(At(doc, "defaultServer"));
    if servers.Some? && sites.Some? && default.Some?
    then Some(Topology(servers.value, sites.value, default.value))
    else None
  }

  /** serverRef: a reference is required and must name a server. */
  predicate ServerRef(servers: map<string, string>, name: string) {
    name != "" && name in servers
  }

  predicate ValidServers(libs: Libs, servers: map<string, string>) {
    servers != map[] && forall name <- servers :: name != "" && libs.validUrl(servers[name])
  }

  predicate ValidSite(libs: Libs, servers: map<string, string>, site: Site) {
    && site.subnets != [] && (forall c <- site.subnets :: libs.validCidr(c))
    && ServerRef(servers, site.baseServer)
    && forall b <- site.backups :: ServerRef(servers, b)
  }

  /** No two keys of the map name the same domain controller, as far as lower case tells. */
  predicate DistinctControllers(libs: Libs, sites: map<string, Site>) {
    forall a <- sites, b <- sites :: libs.lowerLabel(a) == libs.lowerLabel(b) ==> a == b
  }

  predicate ValidTopology(libs: Libs, t: Topology) {
    && ValidServers(libs, t.servers)
    && ServerRef(t.servers, t.defaultServer)
    && (forall name <- t.sites :: libs.lowerLabel(name) != "" && ValidSite(libs, t.servers, t.sites[name]))
    && DistinctControllers(libs, t.sites)
  }

  /** The site loop of validateDocument, with the labels it has seen. */
  method CheckSites(libs: Libs, t: Topology) returns (ok: bool)
    ensures ok <==>
      && (forall name <- t.sites :: libs.lowerLabel(name) != "" && ValidSite(libs, t.servers, t.sites[name]))
      && DistinctControllers(libs, t.sites)
  {
    hide ValidSite;
    ok := true;
    var seen: set<string> := {};
    var todo := t.sites.Keys;
    while todo != {}
      invariant todo <= t.sites.Keys
      invariant forall l :: l in seen <==> exists name :: name in t.sites && name !in todo && libs.lowerLabel(name) == l
      invariant ok <==> forall name | name in t.sites && name !in todo ::
        && libs.lowerLabel(name) != "" && ValidSite(libs, t.servers, t.sites[name])
        && forall other | other in t.sites && other !in todo ::
             libs.lowerLabel(other) == libs.lowerLabel(name) ==> other == name
      decreases todo
    {
      var name :| name in todo;
      ghost var before := todo;
      todo := todo - {name};
      var controller := libs.lowerLabel(name);
      if controller == "" || controller in seen || !ValidSite(libs, t.servers, t.sites[name]) {
        assert ok && controller in seen ==> exists other ::
          other in t.sites && other !in before && libs.lowerLabel(other) == controller && other != name;
        ok := false;
      }
      seen := seen + {controller};
    }
  }

  predicate InSubnets(libs: Libs, ips: seq<string>, subnets: seq<string>) {
    exists c <- subnets, ip <- ips :: libs.contains(c, ip)
  }

  predicate Candidate(libs: Libs, sites: map<string, Site>, h: Host, key: string) {
    key in sites && libs.dcLabel(key) == libs.dcLabel(h.dc) && sites[key].enabled
  }

  /** What the site loop answers when key is the first enabled entry of the host's controller. */
  function AnswerAt(libs: Libs, sites: map<string, Site>, h: Host, key: string): Option<string>
    requires key in sites
  {
    if InSubnets(libs, h.ips, sites[key].subnets) then Some(key) else None
  }

  /** The answers some iteration order of the map can produce. */
  ghost predicate PossibleSite(libs: Libs, sites: map<string, Site>, h: Host, answer: Option<string>) {
    if h.dc == "" || forall key :: !Candidate(libs, sites, h, key) then answer.None?
    else exists key :: Candidate(libs, sites, h, key) && answer == AnswerAt(libs, sites, h, key)
  }

  method FindSite(libs: Libs, sites: map<string, Site>, h: Host) returns (answer: Option<string>)
    ensures PossibleSite(libs, sites, h, answer)
  {
    if h.dc == "" {
      return None;
    }
    var todo := sites.Keys;
    while todo != {}
      invariant forall key :: Candidate(libs, sites, h, key) ==> key in todo
      decreases todo
    {
      var key :| key in todo;
      todo := todo - {key};
      if libs.dcLabel(key) == libs.dcLabel(h.dc) && sites[key].enabled {
        assert Candidate(libs, sites, h, key);
        return AnswerAt(libs, sites, h, key);
      }
    }
    return None;
  }

  /** Every order of the map gives the same site exactly when all enabled entries of the host's
      controller give the same answer. */
  lemma SiteIsUniqueExactlyWhen(libs: Libs, sites: map<string, Site>, h: Host)
    requires h.dc != ""
    ensures (forall a, b :: PossibleSite(libs, sites, h, a) && PossibleSite(libs, sites, h, b) ==> a == b)
      <==> (forall k, l :: Candidate(libs, sites, h, k) && Candidate(libs, sites, h, l) ==>
              k == l || (!InSubnets(libs, h.ips, sites[k].subnets) && !InSubnets(libs, h.ips, sites[l].subnets)))
  {
    if k, l :| (
      && Candidate(libs, sites, h, k) && Candidate(libs, sites, h, l) && k != l
      && (InSubnets(libs, h.ips, sites[k].subnets) || InSubnets(libs, h.ips, sites[l].subnets)))
    {
      var a, b := AnswerAt(libs, sites, h, k), AnswerAt(libs, sites, h, l);
      assert PossibleSite(libs, sites, h, a) && PossibleSite(libs, sites, h, b) && a != b;
    }
  }

  /** Lower case tells apart whatever labels folding does. */
  predicate LowerFollowsFold(libs: Libs, names: set<string>) {
    forall a <- names, b <- names :: libs.dcLabel(a) == libs.dcLabel(b) ==> libs.lowerLabel(a) == libs.lowerLabel(b)
  }

  /** Validation makes the site, and with it the chain, independent of the iteration order, as long as the lower
      case it compares controllers by tells apart no two labels the lookup folds together. */
  lemma ValidSiteIsUnique(libs: Libs, t: Topology, h: Host, a: Option<string>, b: Option<string>)
    requires ValidTopology(libs, t) && LowerFollowsFold(libs, t.sites.Keys)
    requires PossibleSite(libs, t.sites, h, a) && PossibleSite(libs, t.sites, h, b)
    ensures a == b
  {
    if h.dc != "" {
      SiteIsUniqueExactlyWhen(libs, t.sites, h);
    }
  }

  /** In a validated topology every order gives a host one site exactly when no two of its controller's enabled
      entries are told apart by lower case alone while it is on the network of one of them. */
  lemma ValidSiteIsUniqueExactlyWhen(libs: Libs, t: Topology, h: Host)
    requires ValidTopology(libs, t) && h.dc != ""
    ensures (forall a, b :: PossibleSite(libs, t.sites, h, a) && PossibleSite(libs, t.sites, h, b) ==> a == b)
      <==> !(exists k, l :: Candidate(libs, t.sites, h, k) && Candidate(libs, t.sites, h, l)
               && libs.lowerLabel(k) != libs.lowerLabel(l) && InSubnets(libs, h.ips, t.sites[k].subnets))
  {
    SiteIsUniqueExactlyWhen(libs, t.sites, h);
  }

  /** The letter s and the long s: folding takes them for one, lower case does not, so a document with a site for
      each is accepted and a host's site is left to the iteration order. */
  lemma LongSIsAmbiguous(libs: Libs, t: Topology, h: Host)
    requires t.sites.Keys == {"s", "\U{17F}"} && ValidServers(libs, t.servers) && ServerRef(t.servers, t.defaultServer)
    requires forall name <- t.sites :: ValidSite(libs, t.servers, t.sites[name]) && t.sites[name].enabled
    requires libs.lowerLabel("s") == "s" && libs.lowerLabel("\U{17F}") == "\U{17F}"
    requires libs.dcLabel("s") == libs.dcLabel("\U{17F}") == libs.dcLabel(h.dc) && h.dc != ""
    requires InSubnets(libs, h.ips, t.sites["s"].subnets) && !InSubnets(libs, h.ips, t.sites["\U{17F}"].subnets)
    ensures ValidTopology(libs, t)
    ensures PossibleSite(libs, t.sites, h, Some("s")) && PossibleSite(libs, t.sites, h, None)
  {
    assert "s"[0] != "\U{17F}"[0];
    assert Candidate(libs, t.sites, h, "s") && AnswerAt(libs, t.sites, h, "s") == Some("s");
    assert Candidate(libs, t.sites, h, "\U{17F}") && AnswerAt(libs, t.sites, h, "\U{17F}") == None;
  }

  /** Without the rule the order decides: two entries of one controller, only one of them on the host's network. */
  lemma DuplicateControllersAmbiguous(libs: Libs, h: Host, k: string, l: string, s: Site, r: Site)
    requires h.dc != "" && k != l && libs.dcLabel(k) == libs.dcLabel(l) == libs.dcLabel(h.dc)
    requires s.enabled && r.enabled
    requires InSubnets(libs, h.ips, s.subnets) && !InSubnets(libs, h.ips, r.subnets)
    ensures PossibleSite(libs, map[k := s, l := r], h, Some(k)) && PossibleSite(libs, map[k := s, l := r], h, None)
  {
    var sites := map[k := s, l := r];
    assert Candidate(libs, sites, h, k) && AnswerAt(libs, sites, h, k) == Some(k);
    assert Candidate(libs, sites, h, l) && AnswerAt(libs, sites, h, l) == None;
  }

  /** Chain: the site's base server and its backups, or the default server alone. */
  function Chain(t: Topology, answer: Option<string>): seq<string>
    requires answer.Some? ==> answer.value in t.sites
  {
    if answer.Some? then [t.sites[answer.value].baseServer] + t.sites[answer.value].backups else [t.defaultServer]
  }

  /** Chain of the effective document: the site is looked up, and its servers or the default one are returned. */
  method HostChain(libs: Libs, t: Topology, h: Host) returns (site: Option<string>, chain: seq<string>)
    ensures PossibleSite(libs, t.sites, h, site) && (site.Some? ==> site.value in t.sites) && chain == Chain(t, site)
    ensures forall key <- t.sites :: OnlyEnabledEntry(libs, t, h, key) && OnNetwork(libs, h, t.sites[key]) ==>
      && site == Some(key) && |chain| == 1 + |t.sites[key].backups| && chain[0] == t.sites[key].baseServer
      && forall i | 0 <= i < |t.sites[key].backups| :: chain[i + 1] == t.sites[key].backups[i]
    ensures h.dc == "" || (forall key <- t.sites ::
        libs.dcLabel(key) == libs.dcLabel(h.dc) && t.sites[key].enabled ==> !OnNetwork(libs, h, t.sites[key])) ==>
      site == None && |chain| == 1 && chain[0] == t.defaultServer
  {
    site := FindSite(libs, t.sites, h);
    SiteOfOnlyEntry(libs, t, h, site);
    if site.Some? {
      chain := [t.sites[site.value].baseServer];
      chain := chain + t.sites[site.value].backups;
    } else {
      chain := [t.defaultServer];
    }
  }

  /** key is the one enabled entry of the host's domain controller. */
  predicate OnlyEnabledEntry(libs: Libs, t: Topology, h: Host, key: string) {
    && h.dc != "" && key in t.sites && t.sites[key].enabled && libs.dcLabel(key) == libs.dcLabel(h.dc)
    && forall other <- t.sites ::
         t.sites[other].enabled && libs.dcLabel(other) == libs.dcLabel(h.dc) ==> other == key
  }

  /** One of the host's addresses is in one of the site's subnets. */
  predicate OnNetwork(libs: Libs, h: Host, site: Site) {
    exists i, j :: 0 <= i < |site.subnets| && 0 <= j < |h.ips| && libs.contains(site.subnets[i], h.ips[j])
  }

  lemma NetworkIsSubnets(libs: Libs, h: Host, site: Site)
    ensures OnNetwork(libs, h, site) <==> InSubnets(libs, h.ips, site.subnets)
  {
    if i, j :| 0 <= i < |site.subnets| && 0 <= j < |h.ips| && libs.contains(site.subnets[i], h.ips[j]) {
      assert site.subnets[i] in site.subnets && h.ips[j] in h.ips;
    }
  }

  lemma SiteOfOnlyEntry(libs: Libs, t: Topology, h: Host, site: Option<string>)
    requires PossibleSite(libs, t.sites, h, site)
    ensures site.Some? ==> site.value in t.sites
    ensures forall key <- t.sites ::
      OnlyEnabledEntry(libs, t, h, key) && OnNetwork(libs, h, t.sites[key]) ==> site == Some(key)
    ensures h.dc == "" || (forall key <- t.sites ::
        libs.dcLabel(key) == libs.dcLabel(h.dc) && t.sites[key].enabled ==> !OnNetwork(libs, h, t.sites[key])) ==>
      site == None
  {
    forall key | key in t.sites
      ensures OnNetwork(libs, h, t.sites[key]) <==> InSubnets(libs, h.ips, t.sites[key].subnets)
    {
      NetworkIsSubnets(libs, h, t.sites[key]);
    }
    hide OnNetwork, InSubnets;
    forall key | key in t.sites && OnlyEnabledEntry(libs, t, h, key) && OnNetwork(libs, h, t.sites[key])
      ensures site == Some(key)
    {
      assert Candidate(libs, t.sites, h, key);
    }
  }

  lemma ChainResolves(libs: Libs, t: Topology, h: Host, answer: Option<string>)
    requires ValidTopology(libs, t) && PossibleSite(libs, t.sites, h, answer)
    ensures answer.Some? ==> answer.value in t.sites
    ensures Chain(t, answer) != []
    ensures forall name <- Chain(t, answer) :: name in t.servers && libs.validUrl(t.servers[name])
  {
    if answer.Some? {
      assert ValidSite(libs, t.servers, t.sites[answer.value]);
    }
  }
}
