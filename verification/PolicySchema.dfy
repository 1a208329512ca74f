/** The typed schema of the sections a document fills from defaults: decoding into the Go structs
    (internal/policy/document.go) followed by the field rules of validateDocument. Decoding reads an
    absent key and a null alike as the zero value, ignores unknown keys and refuses a wrong type. */
module PolicySchema {
  import opened Json

  /** The libraries a document is checked with, as arbitrary total functions. */
  datatype Libs = Libs(
    parseTime: string -> Option<int>,      // time.Parse(time.RFC3339, _)
    validCidr: string -> bool,             // validCIDR
    contains: (string, string) -> bool,    // a CIDR block contains an IP address
    validUrl: string -> bool,              // validServerURL
    fold: string -> string,                // trimmed text, folded as strings.EqualFold compares
    dcLabel: string -> string,             // leading label of a host name, folded the same way
    lower: string -> string,               // strings.ToLower
    lowerLabel: string -> string,          // leading label of a host name in lower case
    atoi: string -> Option<int>,           // strconv.Atoi
    itoa: int -> string,                   // strconv.Itoa
    validVersion: string -> bool)          // validVersion

  datatype Leaf =
    | Flag
    | OptionalFlag
    | Text
    | OptionalText
    | Timestamp
    | Whole(lo: int, hi: int)
    | Minutes(lo: int, hi: int)
    | OneOf(words: set<string>)
    | OptionalOneOf(words: set<string>)
    | Texts
    | Commands

  /** A scalar or list, a Go struct, or a Go map from names to values of one type. */
  datatype Schema = Field(leaf: Leaf) | Section(fields: map<string, Schema>) | Table(entry: Schema)

  const MAX_INT := 0x7FFF_FFFF_FFFF_FFFF

  predicate IsWhole(v: Json, lo: int, hi: int) {
    v.Num? && v.n == v.n.Floor as real && lo <= v.n.Floor <= hi
  }

  predicate IsTextList(v: Json) {
    v.Null? || (v.Arr? && forall item <- v.items :: item.Null? || item.Str?)
  }

  predicate LeafAccepts(libs: Libs, leaf: Leaf, v: Json) {
    match leaf
    case Flag => v.Null? || v.Bool?
    case OptionalFlag => v.Null? || v.Bool?
    case Text => v.Null? || v.Str?
    case OptionalText => v.Null? || v.Str?
    case Timestamp => v.Null? || (v.Str? && libs.parseTime(v.s).Some?)
    case Whole(lo, hi) => (v.Null? && lo <= 0 <= hi) || IsWhole(v, lo, hi)
    case Minutes(_, _) => v.Null? || IsWhole(v, -MAX_INT - 1, MAX_INT)  // out of range is clamped, not refused
    case OneOf(words) => v.Str? && v.s in words
    case OptionalOneOf(words) => v.Null? || (v.Str? && v.s in words)
    case Texts => IsTextList(v)
    case Commands => v.Null? || (v.Arr? && forall item <- v.items :: item.Str? && item.s in KNOWN_COMMANDS)
  }

  predicate Accepts(libs: Libs, schema: Schema, v: Json) {
    match schema
    case Field(leaf) => LeafAccepts(libs, leaf, v)
    case Section(fields) =>
      (v.Null? || v.Obj?) && forall k <- fields :: Accepts(libs, fields[k], Get(v, k))
    case Table(entry) =>
      v.Null? || (v.Obj? && forall k <- v.fields :: Accepts(libs, entry, v.fields[k]))
  }

  /** No map of Go's in the schema, whose members a patch could delete. */
  predicate Tableless(schema: Schema) {
    match schema
    case Field(_) => true
    case Section(fields) => forall k <- fields :: Tableless(fields[k])
    case Table(_) => false
  }

  const KNOWN_COMMANDS: set<string> := {"machine.info", "emly.manifest.check", "updater.manifest.check",
    "apps.list_upgradable", "service.restart", "machine.reboot"}

  const REFRESH := Section(map[
    "intervalMinutes" := Field(Minutes(1, 1440)),
    "staleAfterDays" := Field(Whole(0, MAX_INT))])

  const CONTROL := Section(map[
    "updater" := Section(map[
      "enabled" := Field(Flag), "reason" := Field(OptionalText), "until" := Field(Timestamp)]),
    "app" := Section(map[
      "enabled" := Field(Flag), "mode" := Field(OneOf({"normal", "readonly", "maintenance"})),
      "reason" := Field(OptionalText), "until" := Field(Timestamp)])])

  const TOGGLE := Section(map["enabled" := Field(Flag)])

  const UPDATER := Section(map[
    "pollIntervalMinutes" := Field(Whole(1, MAX_INT)),
    "channelOverride" := Field(OptionalOneOf({"", "stable", "beta"})),
    "criticalWarning" := Section(map["enabled" := Field(Flag), "seconds" := Field(Whole(0, MAX_INT))]),
    "dcLookupRetry" := Section(map["attempts" := Field(Whole(0, 60)), "delaySeconds" := Field(Whole(0, 300))]),
    "resolver" := Section(map[
      "attempts" := Field(Whole(1, MAX_INT)), "baseBackoffSeconds" := Field(Whole(0, MAX_INT))]),
    "selfUpdate" := TOGGLE,
    "installCertificate" := TOGGLE])

  const LOGGING := Section(map[
    "level" := Field(OneOf({"debug", "info", "warn", "error"})),
    "maxSizeMB" := Field(Whole(1, 100)), "backups" := Field(Whole(0, 50)),
    "compress" := Field(Flag), "eventLog" := Field(Flag)])

  const CLIENT_WS := Section(map["enabled" := Field(Flag), "commands" := Field(Commands)])

  const SERVERS := Table(Field(Text))

  const SITES := Table(Section(map[
    "internalSubnets" := Field(Texts), "baseServer" := Field(Text), "backupServer" := Field(Texts),
    "enabled" := Field(OptionalFlag)]))

  const HOST_INTEGRITY := Section(map[
    "enabled" := Field(Flag),
    "whitelist" := Section(map["hostnames" := Field(Texts), "hwids" := Field(Texts)])])

  const RANGE := Section(map["min" := Field(OptionalText), "max" := Field(OptionalText)])

  const IPC := Section(map[
    "versions" := Table(Section(map["updater" := RANGE, "emly" := RANGE, "enabled" := Field(OptionalFlag)])),
    "defaultVersion" := Field(Whole(-MAX_INT - 1, MAX_INT))])

  predicate ValidBound(libs: Libs, v: Json) {
    v.Str? ==> libs.validVersion(v.s)
  }

  predicate ValidRange(libs: Libs, v: Json) {
    ValidBound(libs, Get(v, "min")) && ValidBound(libs, Get(v, "max"))
  }

  /** The rules on a decoded ipcProtocol: positive version keys, valid bounds, and a default that is listed and
      not disabled. */
  predicate IpcRules(libs: Libs, v: Json) {
    var versions, default := Fields(Get(v, "versions")), Get(v, "defaultVersion");
    && (forall key <- versions ::
          && libs.atoi(key).Some? && libs.atoi(key).value > 0
          && ValidRange(libs, Get(versions[key], "updater")) && ValidRange(libs, Get(versions[key], "emly")))
    && default.Num?
    && var name := libs.itoa(default.n.Floor); name in versions && Get(versions[name], "enabled") != Bool(false)
  }

  /** mergedSections, each with its schema. */
  const MERGED: map<string, Schema> := map["refresh" := REFRESH, "control" := CONTROL,
    "updater" := UPDATER, "logging" := LOGGING, "clientWs" := CLIENT_WS]

  const PATCHABLE: set<string> := {"control", "updater", "logging", "defaultServer", "clientWs"}

  // ---- decoding and writing out again ----

  function PlainItems(items: seq<Json>): seq<Json> {
    seq(|items|, i requires 0 <= i < |items| => if items[i].Null? then Str("") else items[i])
  }

  function Clamped(v: Json, lo: int, hi: int): Json {
    if !IsWhole(v, -MAX_INT - 1, MAX_INT) then v
    else if v.n.Floor < lo then Num(lo as real)
    else if v.n.Floor > hi then Num(hi as real)
    else v
  }

  /** What json.Marshal writes for a field decoded from v: pointers and lists keep their null, everything else
      has a zero value. A value of the wrong type is never written; it stands for itself. */
  function TypedLeaf(leaf: Leaf, v: Json): Json {
    match leaf
    case Flag => if v.Null? then Bool(false) else v
    case Text => if v.Null? then Str("") else v
    case Whole(_, _) => if v.Null? then Num(0.0) else v
    case Minutes(lo, hi) => Clamped(if v.Null? then Num(0.0) else v, lo, hi)
    case OneOf(_) => if v.Null? then Str("") else v
    case Texts => if v.Arr? then Arr(PlainItems(v.items)) else v
    case Commands => if v.Arr? then Arr(PlainItems(v.items)) else v
    case _ => v
  }

  /** The same for a whole schema: unknown members are gone, omitted ones are written out. */
  function Typed(schema: Schema, v: Json): Json {
    match schema
    case Field(leaf) => TypedLeaf(leaf, v)
    case Section(fields) =>
      if v.Null? || v.Obj? then Obj(map k | k in fields :: Typed(fields[k], Get(v, k))) else v
    case Table(entry) => if v.Obj? then Obj(map k | k in v.fields :: Typed(entry, v.fields[k])) else v
  }
}
