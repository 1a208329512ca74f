/** A completed document decoded into the Go structs and written out again (decode and json.Marshal,
    internal/policy/parse.go and document.go): what is lost, and why that changes no later evaluation. */
module PolicyTyped {
  import opened Json
  import opened MergePatch
  import opened PolicySchema
  import opened PolicyComplete
  import opened PolicySites
  import opened PolicyOverrides

  const INT := Field(Whole(-MAX_INT - 1, MAX_INT))

  const TOPOLOGY: map<string, Schema> := map["schemaVersion" := INT, "revision" := INT, "generatedAt" := Field(Text),
    "servers" := SERVERS, "defaultServer" := Field(Text), "ipcProtocol" := IPC, "dcLookupMap" := SITES,
    "hostIntegrity" := HOST_INTEGRITY]

  /** The top-level members of Document but for overrides. */
  const DOCUMENT: map<string, Schema> := TOPOLOGY + MERGED

  function TypedDoc(doc: Object): Object {
    map k | k in DOCUMENT :: Typed(DOCUMENT[k], At(doc, k))
  }

  // ---- writing out is idempotent and invisible to validation ----

  /** No enumeration contains the empty word, so an omitted one is refused either way, and clamping stays
      inside the integers. */
  predicate ProperLeaf(leaf: Leaf) {
    && (leaf.OneOf? ==> "" !in leaf.words)
    && (leaf.Minutes? ==> -MAX_INT - 1 <= leaf.lo <= leaf.hi <= MAX_INT)
  }

  predicate Proper(schema: Schema) {
    match schema
    case Field(leaf) => ProperLeaf(leaf)
    case Section(fields) => forall k <- fields :: Proper(fields[k])
    case Table(entry) => Proper(entry)
  }

  lemma LeafTypedTwice(leaf: Leaf, v: Json)
    requires Proper(Field(leaf))
    ensures TypedLeaf(leaf, TypedLeaf(leaf, v)) == TypedLeaf(leaf, v)
  {
    if v.Arr? {
      assert PlainItems(PlainItems(v.items)) == PlainItems(v.items);
    }
    if leaf.Minutes? {
      assert (leaf.lo as real).Floor == leaf.lo && (leaf.hi as real).Floor == leaf.hi && (0.0).Floor == 0;
    }
  }

  lemma {:induction false} TypedTwice(schema: Schema, v: Json)
    requires Proper(schema)
    ensures Typed(schema, Typed(schema, v)) == Typed(schema, v)
    decreases schema
  {
    match schema
    case Field(leaf) => LeafTypedTwice(leaf, v);
    case Section(fields) =>
      if v.Null? || v.Obj? {
        var once := Typed(schema, v);
        forall k | k in fields ensures Typed(fields[k], Get(once, k)) == Get(once, k) {
          TypedTwice(fields[k], Get(v, k));
        }
        assert Typed(schema, once).fields == once.fields;
      }
    case Table(entry) =>
      if v.Obj? {
        var once := Typed(schema, v);
        forall k | k in v.fields ensures Typed(entry, once.fields[k]) == once.fields[k] {
          TypedTwice(entry, v.fields[k]);
        }
        assert Typed(schema, once).fields == once.fields;
      }
  }

  lemma TypedNull(schema: Schema, v: Json)
    ensures Typed(schema, v).Null? ==> v.Null?
    ensures schema.Section? ==> !Typed(schema, v).Null?
  {}

  predicate IsCommand(item: Json) {
    item.Str? && item.s in KNOWN_COMMANDS
  }

  lemma EmptyIsNoCommand()
    ensures !IsCommand(Str(""))
  {}

  lemma ItemsAcceptTyped(items: seq<Json>, accepts: Json -> bool)
    requires accepts(Null) <==> accepts(Str(""))
    ensures (forall item <- items :: accepts(item)) <==> (forall item <- PlainItems(items) :: accepts(item))
  {
    var plain := PlainItems(items);
    assert forall i | 0 <= i < |items| :: accepts(items[i]) <==> accepts(plain[i]);
    forall item | item in items ensures exists i :: 0 <= i < |items| && items[i] == item && plain[i] in plain {}
  }

  lemma CommandsAcceptTyped(libs: Libs, v: Json)
    ensures LeafAccepts(libs, Commands, v) <==> LeafAccepts(libs, Commands, TypedLeaf(Commands, v))
  {
    if v.Arr? {
      EmptyIsNoCommand();
      ItemsAcceptTyped(v.items, IsCommand);
      assert forall item <- v.items :: IsCommand(item) <==> item.Str? && item.s in KNOWN_COMMANDS;
      assert forall item <- PlainItems(v.items) :: IsCommand(item) <==> item.Str? && item.s in KNOWN_COMMANDS;
      hide KNOWN_COMMANDS;
    }
  }

  lemma LeafAcceptsTyped(libs: Libs, leaf: Leaf, v: Json)
    requires Proper(Field(leaf))
    ensures LeafAccepts(libs, leaf, v) <==> LeafAccepts(libs, leaf, TypedLeaf(leaf, v))
  {
    hide KNOWN_COMMANDS;
    match leaf
    case Commands => CommandsAcceptTyped(libs, v);
    case Texts => TypedTexts(v);
    case Minutes(lo, hi) =>
      assert (lo as real).Floor == lo && (hi as real).Floor == hi && (0.0).Floor == 0;
    case _ =>
      assert (0.0).Floor == 0;
  }

  lemma {:induction false} AcceptsTyped(libs: Libs, schema: Schema, v: Json)
    requires Proper(schema)
    ensures Accepts(libs, schema, v) <==> Accepts(libs, schema, Typed(schema, v))
    decreases schema
  {
    match schema
    case Field(leaf) => LeafAcceptsTyped(libs, leaf, v);
    case Section(fields) =>
      forall k | k in fields
        ensures Accepts(libs, fields[k], Get(v, k)) <==> Accepts(libs, fields[k], Typed(fields[k], Get(v, k)))
      {
        AcceptsTyped(libs, fields[k], Get(v, k));
      }
    case Table(entry) =>
      if v.Obj? {
        var typed := Typed(schema, v).fields;
        forall k | k in v.fields
          ensures k in typed && (Accepts(libs, entry, v.fields[k]) <==> Accepts(libs, entry, typed[k]))
        {
          AcceptsTyped(libs, entry, v.fields[k]);
        }
        assert typed.Keys == v.fields.Keys;
      }
  }

  // ---- filling and patching what was written out ----

  /** The member k of a value filled or kept, whatever its shape. */
  lemma FilledMember(d: Json, v: Json, k: string)
    requires Fill(d, v).Null? || Fill(d, v).Obj?
    ensures Get(Fill(d, v), k) == Fill(Get(d, k), Get(v, k))
  {
    if v.Obj? {
      FillMember(d, v, k);
    }
  }

  /** Written out and filled again from the same defaults, a filled value reads the same. */
  lemma {:induction false} RefillTyped(schema: Schema, d: Json, v: Json)
    requires Tableless(schema) && Proper(schema)
    ensures Typed(schema, Fill(d, Typed(schema, Fill(d, v)))) == Typed(schema, Fill(d, v))
    decreases schema
  {
    var filled := Fill(d, v);
    var typed := Typed(schema, filled);
    if schema.Section? && (filled.Null? || filled.Obj?) {
      var again := Typed(schema, Fill(d, typed));
      forall k | k in schema.fields ensures again.fields[k] == typed.fields[k] {
        FilledMember(d, v, k);
        FilledMember(d, typed, k);
        RefillTyped(schema.fields[k], Get(d, k), Get(v, k));
      }
      assert again.fields == typed.fields;
    } else {
      RefillScalar(schema, d, v);
    }
  }

  lemma RefillScalar(schema: Schema, d: Json, v: Json)
    requires Tableless(schema) && Proper(schema)
    requires schema.Section? ==> !Fill(d, v).Null? && !Fill(d, v).Obj?
    ensures Typed(schema, Fill(d, Typed(schema, Fill(d, v)))) == Typed(schema, Fill(d, v))
  {
    var filled := Fill(d, v);
    var typed := Typed(schema, filled);
    TypedTwice(schema, filled);
    if filled.Obj? {
      assert typed == filled;
      FillTwice(d, v);
    } else {
      assert !typed.Obj?;
    }
  }

  /** The simulation step: what reads the same written out still does after the same patch. */
  lemma {:induction false} TypedAfterPatch(schema: Schema, d: Json, t: Json, f: Json, p: Json)
    requires Tableless(schema) && p.Obj?
    requires Typed(schema, Fill(d, t)) == Typed(schema, Fill(d, f))
    ensures Typed(schema, Fill(d, Merge(t, p))) == Typed(schema, Fill(d, Merge(f, p)))
    decreases schema
  {
    var x, y := Fill(d, t), Fill(d, f);
    if x == y {
      AlikeAfterPatch(d, t, f, p);
    } else if schema.Field? || !(x.Null? || x.Obj?) || !(y.Null? || y.Obj?) {
      assert !t.Obj? && !f.Obj?;
      assert Merge(t, p) == Merge(f, p);
    } else {
      SectionTypedAfterPatch(schema, d, t, f, p);
    }
  }

  lemma {:induction false} SectionTypedAfterPatch(schema: Schema, d: Json, t: Json, f: Json, p: Json)
    requires Tableless(schema) && schema.Section? && p.Obj?
    requires (Fill(d, t).Null? || Fill(d, t).Obj?) && (Fill(d, f).Null? || Fill(d, f).Obj?)
    requires Typed(schema, Fill(d, t)) == Typed(schema, Fill(d, f))
    ensures Typed(schema, Fill(d, Merge(t, p))) == Typed(schema, Fill(d, Merge(f, p)))
    decreases schema, 0
  {
    var x, y := Fill(d, Merge(t, p)), Fill(d, Merge(f, p));
    forall k | k in schema.fields ensures Typed(schema.fields[k], Get(x, k)) == Typed(schema.fields[k], Get(y, k)) {
      FilledMember(d, t, k);
      FilledMember(d, f, k);
      FilledMember(d, Merge(t, p), k);
      FilledMember(d, Merge(f, p), k);
      MergeMember(t, p, k);
      MergeMember(f, p, k);
      assert Typed(schema, Fill(d, t)).fields[k] == Typed(schema, Fill(d, f)).fields[k];
      if k in p.fields && p.fields[k].Obj? {
        TypedAfterPatch(schema.fields[k], Get(d, k), Get(t, k), Get(f, k), p.fields[k]);
      }
    }
    assert Typed(schema, x).fields == Typed(schema, y).fields;
  }

  lemma FilledAfterPatch(schema: Schema, d: Json, t: Json, f: Json, p: Json)
    requires Tableless(schema) && !p.Null?
    requires Typed(schema, FillSection(d, t)) == Typed(schema, FillSection(d, f))
    ensures Typed(schema, FillSection(d, Merge(t, p))) == Typed(schema, FillSection(d, Merge(f, p)))
  {
    if p.Obj? {
      var t', f' := if t.Obj? then t else Null, if f.Obj? then f else Null;
      assert Merge(t, p) == Merge(t', p) && Merge(f, p) == Merge(f', p);
      TypedAfterPatch(schema, d, t', f', p);
    }
  }

  // ---- whole documents ----

  lemma TopologyIsNotLayered()
    ensures TOPOLOGY.Keys + (set k | k in LAYERED) == KEYS
    ensures forall k <- TOPOLOGY :: !TreatmentOf(k).Layered?
  {
    hide SERVERS, SITES, IPC, HOST_INTEGRITY, INT;
  }

  lemma MergedAreLayeredKeys()
    ensures MERGED.Keys == set k | k in LAYERED
  {
    hide REFRESH, CONTROL, UPDATER, LOGGING, CLIENT_WS;
  }

  lemma DocumentKeys()
    ensures DOCUMENT.Keys == KEYS
    ensures forall k <- MERGED :: k in DOCUMENT && DOCUMENT[k] == MERGED[k]
    ensures forall k <- DOCUMENT :: k !in MERGED ==> !TreatmentOf(k).Layered?
  {
    hide TOPOLOGY, MERGED, KEYS, LAYERED, TreatmentOf;
    TopologyIsNotLayered();
    MergedAreLayeredKeys();
  }

  lemma NotMerged()
    ensures MERGED.Keys !! TOPOLOGY.Keys
  {
    hide SERVERS, SITES, IPC, HOST_INTEGRITY, REFRESH, CONTROL, UPDATER, LOGGING, CLIENT_WS, INT;
  }

  lemma TopologySchemas()
    ensures TOPOLOGY.Keys == {"schemaVersion", "revision", "generatedAt", "servers", "defaultServer", "ipcProtocol",
      "dcLookupMap", "hostIntegrity"}
    ensures TOPOLOGY["schemaVersion"] == TOPOLOGY["revision"] == INT
    ensures TOPOLOGY["generatedAt"] == TOPOLOGY["defaultServer"] == Field(Text)
    ensures TOPOLOGY["servers"] == SERVERS && TOPOLOGY["dcLookupMap"] == SITES
    ensures TOPOLOGY["hostIntegrity"] == HOST_INTEGRITY && TOPOLOGY["ipcProtocol"] == IPC
  {
    hide SERVERS, SITES, IPC, HOST_INTEGRITY, INT;
  }

  lemma FixedSchemas()
    ensures DOCUMENT.Keys >= {"schemaVersion", "revision", "generatedAt", "servers", "defaultServer", "ipcProtocol",
      "dcLookupMap", "hostIntegrity"}
    ensures DOCUMENT["schemaVersion"] == DOCUMENT["revision"] == INT
    ensures DOCUMENT["generatedAt"] == DOCUMENT["defaultServer"] == Field(Text)
    ensures DOCUMENT["servers"] == SERVERS && DOCUMENT["dcLookupMap"] == SITES
    ensures DOCUMENT["hostIntegrity"] == HOST_INTEGRITY && DOCUMENT["ipcProtocol"] == IPC
  {
    hide TOPOLOGY, MERGED, SERVERS, SITES, IPC, HOST_INTEGRITY, INT;
    NotMerged();
    TopologySchemas();
  }

  predicate ProperFlat(schema: Schema) {
    Flat(schema) && forall k <- schema.fields :: ProperLeaf(schema.fields[k].leaf)
  }

  lemma FlatIsProper(schema: Schema)
    requires ProperFlat(schema)
    ensures Proper(schema)
  {}

  lemma NestedIsProper(schema: Schema)
    requires schema.Section?
    requires forall k <- schema.fields ::
               ProperFlat(schema.fields[k]) || (schema.fields[k].Field? && ProperLeaf(schema.fields[k].leaf))
    ensures Proper(schema)
  {
    forall k | k in schema.fields ensures Proper(schema.fields[k]) {
      if schema.fields[k].Section? {
        FlatIsProper(schema.fields[k]);
      }
    }
  }

  lemma ProperFixedSchemas()
    ensures Proper(INT) && Proper(Field(Text)) && Proper(SERVERS) && Proper(SITES) && Proper(HOST_INTEGRITY)
  {
    NestedIsProper(SITES.entry);
    NestedIsProper(HOST_INTEGRITY);
  }

  lemma ProperIpc()
    ensures Proper(IPC)
  {
    NestedIsProper(IPC.fields["versions"].entry);
    assert Proper(IPC.fields["versions"]) && Proper(IPC.fields["defaultVersion"]);
    hide RANGE;
  }

  lemma ProperFlatSections()
    ensures Proper(REFRESH) && Proper(LOGGING) && Proper(CLIENT_WS)
  {
    FlatIsProper(REFRESH);
    FlatIsProper(LOGGING);
    FlatIsProper(CLIENT_WS);
    hide Proper, REFRESH, LOGGING, CLIENT_WS;
  }

  lemma ProperControl()
    ensures Proper(CONTROL)
  {
    NestedIsProper(CONTROL);
    hide Proper, CONTROL;
  }

  lemma ProperUpdater()
    ensures Proper(UPDATER)
  {
    NestedIsProper(UPDATER);
    hide Proper, UPDATER;
  }

  lemma ProperSections()
    ensures forall k <- MERGED :: Proper(MERGED[k])
  {
    ProperFlatSections();
    ProperControl();
    ProperUpdater();
    hide REFRESH, CONTROL, UPDATER, LOGGING, CLIENT_WS, Proper;
  }

  lemma ProperDocument()
    ensures forall k <- DOCUMENT :: Proper(DOCUMENT[k])
  {
    ProperFixedSchemas();
    ProperIpc();
    ProperSections();
    TopologySchemas();
    hide Proper, INT, SERVERS, SITES, IPC, HOST_INTEGRITY, MERGED, TOPOLOGY;
  }

  /** What is written out under key k when the raw document holds v there. */
  function Shown(defaults: Object, k: string, v: Json): Json
    requires k in DOCUMENT
  {
    var c := CompleteKey(defaults, k, v);
    Typed(DOCUMENT[k], if c.Some? then c.value else Null)
  }

  lemma TypedDocMember(defaults: Object, raw: Object, k: string)
    requires k in DOCUMENT
    ensures k in TypedDoc(Complete(defaults, raw))
    ensures TypedDoc(Complete(defaults, raw))[k] == Shown(defaults, k, At(raw, k))
  {
    DocumentKeys();
    hide DOCUMENT, KEYS, TreatmentOf, Complete, Typed;
    CompletedMember(defaults, raw, k);
  }

  /** Completed and written out, the two documents are the same. */
  ghost predicate SameShown(defaults: Object, raw: Object, other: Object) {
    forall k <- DOCUMENT :: Shown(defaults, k, At(raw, k)) == Shown(defaults, k, At(other, k))
  }

  lemma SameShownSameTyped(defaults: Object, raw: Object, other: Object)
    requires SameShown(defaults, raw, other)
    ensures TypedDoc(Complete(defaults, raw)) == TypedDoc(Complete(defaults, other))
  {
    hide DOCUMENT, Shown, Typed, Complete;
    forall k | k in DOCUMENT ensures TypedDoc(Complete(defaults, raw))[k] == TypedDoc(Complete(defaults, other))[k] {
      TypedDocMember(defaults, raw, k);
      TypedDocMember(defaults, other, k);
    }
    assert TypedDoc(Complete(defaults, raw)).Keys == DOCUMENT.Keys;
  }

  lemma LayeredSchema(k: string)
    requires k in DOCUMENT && TreatmentOf(k).Layered?
    ensures DOCUMENT[k].Section? && Tableless(DOCUMENT[k])
  {
    DocumentKeys();
    MergedAreTableless();
    hide Tableless, TreatmentOf, KEYS, DOCUMENT;
    MergedAreSections();
  }

  lemma MergedAreSections()
    ensures forall k <- MERGED :: MERGED[k].Section?
  {}

  lemma DefaultsKeySchema(k: string)
    requires k in DOCUMENT && TreatmentOf(k).FromDefaults?
    ensures DOCUMENT[k].Section?
  {
    hide TreatmentOf, DOCUMENT;
    OnlyIpcFromDefaults(k);
    FixedSchemas();
  }

  lemma OnlyIpcFromDefaults(k: string)
    requires TreatmentOf(k).FromDefaults?
    ensures k == "ipcProtocol"
  {}

  /** Reading back what was written out shows the same. */
  lemma ReadBack(defaults: Object, raw: Object)
    ensures SameShown(defaults, raw, TypedDoc(Complete(defaults, raw)))
  {
    ProperDocument();
    hide DOCUMENT, TreatmentOf, Complete, Typed, Proper;
    forall k | k in DOCUMENT
      ensures Shown(defaults, k, At(raw, k)) == Shown(defaults, k, At(TypedDoc(Complete(defaults, raw)), k))
    {
      TypedDocMember(defaults, raw, k);
      ReadBackKey(defaults, k, At(raw, k));
    }
  }

  lemma ReadBackSection(defaults: Object, k: string, v: Json)
    requires k in DOCUMENT && Proper(DOCUMENT[k]) && TreatmentOf(k).Layered?
    requires DOCUMENT[k].Section? && Tableless(DOCUMENT[k])
    ensures Shown(defaults, k, Shown(defaults, k, v)) == Shown(defaults, k, v)
  {
    hide DOCUMENT, TreatmentOf, Tableless, Proper;
    RefillTyped(DOCUMENT[k], At(defaults, k), if v.Obj? then v else Null);
  }

  lemma ReadBackKey(defaults: Object, k: string, v: Json)
    requires k in DOCUMENT && Proper(DOCUMENT[k])
    ensures Shown(defaults, k, Shown(defaults, k, v)) == Shown(defaults, k, v)
  {
    hide DOCUMENT, TreatmentOf, Typed, Proper, Tableless, KEYS, FillSection;
    var schema, c := DOCUMENT[k], CompleteKey(defaults, k, v);
    var w := if c.Some? then c.value else Null;
    TypedTwice(schema, w);
    TypedNull(schema, w);
    match TreatmentOf(k)
    case Layered =>
      LayeredSchema(k);
      ReadBackSection(defaults, k, v);
    case FromDefaults => DefaultsKeySchema(k);
    case Neutral(_) => NeutralIsNotNull(k);
    case Copied =>
    case Dropped => DroppedIsNoKey(k);
  }

  lemma DroppedIsNoKey(k: string)
    requires TreatmentOf(k).Dropped?
    ensures k !in DOCUMENT
  {
    hide DOCUMENT;
    DocumentKeys();
  }

  lemma NeutralIsNotNull(k: string)
    ensures TreatmentOf(k).Neutral? ==> !TreatmentOf(k).value.Null?
  {}

  lemma ShownAfterPatch(defaults: Object, raw: Object, other: Object, patch: Object)
    requires SameShown(defaults, raw, other) && patch.Keys <= PATCHABLE
    ensures SameShown(defaults, Patched(raw, patch), Patched(other, patch))
  {
    hide DOCUMENT, TreatmentOf, PATCHABLE, Shown, Patched;
    forall k | k in DOCUMENT
      ensures Shown(defaults, k, At(Patched(raw, patch), k)) == Shown(defaults, k, At(Patched(other, patch), k))
    {
      PatchedMember(raw, patch, k);
      PatchedMember(other, patch, k);
      if k in patch && !patch[k].Null? {
        ShownAfterMerge(defaults, k, At(raw, k), At(other, k), patch[k]);
      }
    }
  }

  lemma PatchableTreatment(k: string)
    requires k in PATCHABLE
    ensures TreatmentOf(k).Layered? || (k == "defaultServer" && TreatmentOf(k).Copied?)
  {}

  lemma ShownSectionAfterMerge(defaults: Object, k: string, t: Json, f: Json, p: Json)
    requires k in DOCUMENT && TreatmentOf(k).Layered? && Tableless(DOCUMENT[k])
    requires !p.Null? && Shown(defaults, k, t) == Shown(defaults, k, f)
    ensures Shown(defaults, k, Merge(t, p)) == Shown(defaults, k, Merge(f, p))
  {
    hide TreatmentOf, DOCUMENT, Typed, FillSection, Merge, Tableless;
    FilledAfterPatch(DOCUMENT[k], At(defaults, k), t, f, p);
  }

  lemma ShownTextAfterMerge(defaults: Object, k: string, t: Json, f: Json, p: Json)
    requires k in DOCUMENT && TreatmentOf(k).Copied? && DOCUMENT[k] == Field(Text)
    requires !p.Null? && Shown(defaults, k, t) == Shown(defaults, k, f)
    ensures Shown(defaults, k, Merge(t, p)) == Shown(defaults, k, Merge(f, p))
  {
    hide TreatmentOf, DOCUMENT;
    if t != f {
      assert !t.Obj? && !f.Obj?;
      assert Merge(t, p) == Merge(f, p);
    }
  }

  lemma ShownAfterMerge(defaults: Object, k: string, t: Json, f: Json, p: Json)
    requires k in PATCHABLE && k in DOCUMENT && !p.Null? && Shown(defaults, k, t) == Shown(defaults, k, f)
    ensures Shown(defaults, k, Merge(t, p)) == Shown(defaults, k, Merge(f, p))
  {
    hide TreatmentOf, DOCUMENT, Typed, FillSection, Merge, Tableless, PATCHABLE, Shown;
    PatchableTreatment(k);
    FixedSchemas();
    if TreatmentOf(k).Layered? {
      LayeredSchema(k);
      ShownSectionAfterMerge(defaults, k, t, f, p);
    } else {
      ShownTextAfterMerge(defaults, k, t, f, p);
    }
  }

  lemma {:induction false} ShownAfterPatches(defaults: Object, raw: Object, other: Object, patches: seq<Object>)
    requires SameShown(defaults, raw, other) && OnlyPatchable(patches)
    ensures SameShown(defaults, PatchAll(raw, patches), PatchAll(other, patches))
    decreases |patches|
  {
    hide SameShown, PATCHABLE, Patched;
    if patches != [] {
      var last := |patches| - 1;
      ShownAfterPatches(defaults, raw, other, patches[..last]);
      ShownAfterPatch(defaults, PatchAll(raw, patches[..last]), PatchAll(other, patches[..last]), patches[last]);
    }
  }

  /** Decoding into the structs and writing out, between filling and patching, loses nothing that decoding the
      patched document would have kept. */
  lemma TypedFillingCommutesWithPatching(defaults: Object, raw: Object, patches: seq<Object>)
    requires OnlyPatchable(patches)
    ensures TypedDoc(Complete(defaults, PatchAll(TypedDoc(Complete(defaults, raw)), patches)))
         == TypedDoc(Complete(defaults, PatchAll(raw, patches)))
  {
    ReadBack(defaults, raw);
    ShownAfterPatches(defaults, raw, TypedDoc(Complete(defaults, raw)), patches);
    SameShownSameTyped(defaults, PatchAll(raw, patches), PatchAll(TypedDoc(Complete(defaults, raw)), patches));
  }

  // ---- validation sees only what is written out ----

  lemma TypedEntries(table: Schema, v: Json)
    requires table.Table? && v.Obj?
    ensures var typed := Typed(table, v);
      && typed.Obj? && typed.fields.Keys == v.fields.Keys
      && forall k <- v.fields :: typed.fields[k] == Typed(table.entry, v.fields[k])
  {}

  lemma TypedText(v: Json)
    ensures DecodeText(Typed(Field(Text), v)) == DecodeText(v)
  {}

  lemma TypedServers(v: Json)
    ensures DecodeServers(Typed(SERVERS, v)) == DecodeServers(v)
  {
    if v.Obj? {
      hide Typed, DecodeText;
      TypedEntries(SERVERS, v);
      var typed := Typed(SERVERS, v);
      forall k | k in v.fields ensures DecodeText(typed.fields[k]) == DecodeText(v.fields[k]) {
        TypedText(v.fields[k]);
      }
      if DecodeServers(v).Some? {
        assert DecodeServers(typed).value == DecodeServers(v).value;
      }
    }
  }

  lemma TypedTexts(v: Json)
    ensures var typed := TypedLeaf(Texts, v);
      (IsTextList(typed) <==> IsTextList(v)) && (IsTextList(v) ==> TextsOf(typed) == TextsOf(v))
  {
    if v.Arr? {
      ItemsAcceptTyped(v.items, (item: Json) => item.Null? || item.Str?);
    }
  }

  lemma TypedSite(v: Json)
    ensures DecodeSite(Typed(SITES.entry, v)) == DecodeSite(v)
  {
    TypedTexts(Get(v, "internalSubnets"));
    TypedTexts(Get(v, "backupServer"));
    hide TextsOf;
  }

  lemma SameSites(v: Json, w: Json)
    requires v.Obj? && w.Obj? && v.fields.Keys == w.fields.Keys
    requires forall k <- v.fields :: DecodeSite(w.fields[k]) == DecodeSite(v.fields[k])
    ensures DecodeSites(w) == DecodeSites(v)
  {
    hide DecodeSite;
    if DecodeSites(v).Some? {
      assert DecodeSites(w).value == DecodeSites(v).value;
    }
  }

  lemma TypedSites(v: Json)
    ensures DecodeSites(Typed(SITES, v)) == DecodeSites(v)
  {
    assert SITES.Table?;
    if v.Obj? {
      hide Typed, DecodeSite, SITES, DecodeSites;
      TypedEntries(SITES, v);
      var typed := Typed(SITES, v);
      forall k | k in v.fields ensures DecodeSite(typed.fields[k]) == DecodeSite(v.fields[k]) {
        TypedSite(v.fields[k]);
      }
      SameSites(v, typed);
    }
  }

  lemma TypedTopology(doc: Object)
    ensures TopologyOf(TypedDoc(doc)) == TopologyOf(doc)
  {
    FixedSchemas();
    TypedServers(At(doc, "servers"));
    TypedSites(At(doc, "dcLookupMap"));
    hide DOCUMENT, SERVERS, SITES, DecodeServers, DecodeSites;
  }

  lemma TypedHead(libs: Libs, doc: Object)
    ensures ValidHead(libs, TypedDoc(doc)) <==> ValidHead(libs, doc)
  {
    FixedSchemas();
    hide DOCUMENT;
    assert (0.0).Floor == 0;
  }

  lemma TypedUnpatchable(libs: Libs, doc: Object)
    ensures ValidUnpatchable(libs, TypedDoc(doc)) <==> ValidUnpatchable(libs, doc)
  {
    TypedHead(libs, doc);
    FixedSchemas();
    ProperDocument();
    hide DOCUMENT, ValidHead, Accepts, Typed, Proper, IpcRules;
    AcceptsTyped(libs, IPC, At(doc, "ipcProtocol"));
    AcceptsTyped(libs, HOST_INTEGRITY, At(doc, "hostIntegrity"));
    TypedTwice(IPC, At(doc, "ipcProtocol"));
  }

  lemma TypedSections(libs: Libs, doc: Object)
    ensures ValidSections(libs, TypedDoc(doc)) <==> ValidSections(libs, doc)
  {
    DocumentKeys();
    ProperSections();
    hide DOCUMENT, MERGED, Accepts, Typed, Proper, KEYS, TreatmentOf;
    forall k | k in MERGED
      ensures Accepts(libs, MERGED[k], At(TypedDoc(doc), k)) <==> Accepts(libs, MERGED[k], At(doc, k))
    {
      AcceptsTyped(libs, MERGED[k], At(doc, k));
    }
  }

  lemma ValidTyped(libs: Libs, doc: Object)
    ensures Valid(libs, TypedDoc(doc)) <==> Valid(libs, doc)
  {
    TypedUnpatchable(libs, doc);
    TypedTopology(doc);
    TypedSections(libs, doc);
    hide ValidUnpatchable, TopologyOf, ValidSections, TypedDoc, ValidTopology;
  }

  /** A document builds together with some patches exactly when its written-out form does. */
  lemma TypedBuilds(libs: Libs, defaults: Object, raw: Object, patches: seq<Object>)
    requires OnlyPatchable(patches)
    ensures Builds(libs, defaults, PatchAll(TypedDoc(Complete(defaults, raw)), patches))
      <==> Builds(libs, defaults, PatchAll(raw, patches))
  {
    hide Valid, TypedDoc, Complete, PATCHABLE;
    TypedFillingCommutesWithPatching(defaults, raw, patches);
    ValidTyped(libs, Complete(defaults, PatchAll(TypedDoc(Complete(defaults, raw)), patches)));
    ValidTyped(libs, Complete(defaults, PatchAll(raw, patches)));
  }
}
