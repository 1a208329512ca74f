/** What a document decoded and written out again says at each path (internal/policy/parse.go, document.go). */
module PolicyWritten {
  import opened Json
  import opened JsonPaths
  import opened PolicySchema
  import opened PolicyComplete
  import opened PolicyOverrides
  import opened PolicyTyped

  /** The schema a path leads to in a value; a Go map has the entries the value lists. */
  function SchemaAt(schema: Schema, v: Json, path: Path): Option<Schema>
    decreases |path|
  {
    if path == [] then Some(schema)
    else
      var k := path[0];
      match schema
      case Field(_) => None
      case Section(fields) => if k in fields then SchemaAt(fields[k], Get(v, k), path[1..]) else None
      case Table(entry) => if k in Fields(v) then SchemaAt(entry, Get(v, k), path[1..]) else None
  }

  function Clamp(n: int, lo: int, hi: int): int {
    if n < lo then lo else if n > hi then hi else n
  }

  /** A value v of a field is written as w: omitted flags, texts and numbers as their zero value, pointers and lists
      as null, minutes clamped, everything else as it is. */
  predicate WrittenAs(leaf: Leaf, v: Json, w: Json) {
    match leaf
    case Flag => w == if v.Null? then Bool(false) else v
    case Text => w == if v.Null? then Str("") else v
    case OneOf(_) => w == if v.Null? then Str("") else v
    case Whole(_, _) => w == if v.Null? then Num(0.0) else v
    case Minutes(lo, hi) =>
      w.Num? && w.n == Clamp(if v.Num? then v.n.Floor else 0, lo, hi) as real
    case OptionalFlag => w == v
    case OptionalText => w == v
    case OptionalOneOf(_) => w == v
    case Timestamp => w == v
    case Texts => v == w == Null || (v.Arr? && w.Arr? && SameTexts(v.items, w.items))
    case Commands => v == w == Null || (v.Arr? && v == w)
  }

  predicate SameTexts(a: seq<Json>, b: seq<Json>) {
    |a| == |b| && forall i | 0 <= i < |a| :: b[i] == if a[i].Null? then Str("") else a[i]
  }

  lemma LeafIsWritten(libs: Libs, leaf: Leaf, v: Json)
    requires LeafAccepts(libs, leaf, v) && ProperLeaf(leaf)
    ensures WrittenAs(leaf, v, TypedLeaf(leaf, v))
  {
    hide KNOWN_COMMANDS;
    if leaf.Minutes? {
      assert (0.0).Floor == 0;
    } else if leaf.Commands? && v.Arr? {
      forall i | 0 <= i < |v.items| ensures PlainItems(v.items)[i] == v.items[i] {
        assert v.items[i] in v.items;
      }
      assert PlainItems(v.items) == v.items;
    }
  }

  /** Every field is written as its leaf asks, and nothing is written that the schema does not name. */
  lemma {:induction false} WrittenAt(libs: Libs, schema: Schema, v: Json, path: Path)
    requires Accepts(libs, schema, v) && Proper(schema)
    ensures match SchemaAt(schema, v, path)
      case None => Lookup(Typed(schema, v), path).Null?
      case Some(Field(leaf)) => WrittenAs(leaf, Lookup(v, path), Lookup(Typed(schema, v), path))
      case Some(_) => true
    decreases |path|
  {
    hide WrittenAs;
    if path == [] {
      if schema.Field? {
        LeafIsWritten(libs, schema.leaf, v);
      }
    } else {
      var k := path[0];
      match schema
      case Field(leaf) =>
        assert Get(TypedLeaf(leaf, v), k) == Null;
        NullLeadsNowhere(path[1..]);
      case Section(fields) =>
        if k in fields {
          assert Get(Typed(schema, v), k) == Typed(fields[k], Get(v, k));
          WrittenAt(libs, fields[k], Get(v, k), path[1..]);
        } else {
          NullLeadsNowhere(path[1..]);
        }
      case Table(entry) =>
        if k in Fields(v) {
          assert Get(Typed(schema, v), k) == Typed(entry, Get(v, k));
          WrittenAt(libs, entry, Get(v, k), path[1..]);
        } else {
          NullLeadsNowhere(path[1..]);
        }
    }
  }

  /** The written interval is the document's, moved into a day: at least one minute, at most 1440. */
  lemma WrittenInterval(libs: Libs, doc: Object)
    requires Accepts(libs, REFRESH, At(doc, "refresh"))
    ensures var v := Lookup(Obj(doc), ["refresh", "intervalMinutes"]);
      Lookup(Obj(TypedDoc(doc)), ["refresh", "intervalMinutes"])
        == Num(Clamp(if v.Num? then v.n.Floor else 0, 1, 1440) as real)
  {
    hide TypedDoc, DOCUMENT, Typed, Accepts, Lookup;
    RefreshIsWritten(doc);
    LookupAppend(Obj(doc), "refresh", ["intervalMinutes"]);
    LookupAppend(Obj(TypedDoc(doc)), "refresh", ["intervalMinutes"]);
    assert ["refresh"] + ["intervalMinutes"] == ["refresh", "intervalMinutes"];
    IntervalSchema(At(doc, "refresh"));
    ProperFlatSections();
    hide REFRESH, Proper;
    WrittenAt(libs, REFRESH, At(doc, "refresh"), ["intervalMinutes"]);
  }

  lemma IntervalSchema(v: Json)
    ensures SchemaAt(REFRESH, v, ["intervalMinutes"]) == Some(Field(Minutes(1, 1440)))
  {}

  lemma RefreshIsWritten(doc: Object)
    ensures At(TypedDoc(doc), "refresh") == Typed(REFRESH, At(doc, "refresh"))
  {
    hide TOPOLOGY, CONTROL, UPDATER, LOGGING, CLIENT_WS, REFRESH, Typed;
  }

  lemma SectionNames()
    ensures MERGED.Keys == {"refresh", "control", "updater", "logging", "clientWs"}
  {
    hide CONTROL, UPDATER, LOGGING, CLIENT_WS, REFRESH;
  }

  /** The members of a written document. */
  lemma WrittenNames(doc: Object)
    ensures TypedDoc(doc).Keys == {"schemaVersion", "revision", "generatedAt", "servers", "defaultServer",
      "ipcProtocol", "dcLookupMap", "hostIntegrity", "refresh", "control", "updater", "logging", "clientWs"}
  {
    hide TOPOLOGY, MERGED, Typed;
    SectionNames();
    TopologySchemas();
    assert TypedDoc(doc).Keys == TOPOLOGY.Keys + MERGED.Keys;
  }
}
