/** Filling a document's omitted parts from the defaults (complete, internal/policy/parse.go), and
    why filling before patching loses nothing. */
module PolicyComplete {
  import opened Json
  import opened JsonPaths
  import opened MergePatch
  import opened PolicySchema

  /** How complete treats one top-level key. */
  datatype Treatment = Copied | Neutral(value: Json) | FromDefaults | Layered | Dropped

  const COPIED: seq<string> := ["schemaVersion", "revision", "generatedAt", "servers", "defaultServer",
    "dcLookupMap", "hostIntegrity"]

  const LAYERED: seq<string> := ["refresh", "control", "updater", "logging", "clientWs"]

  const KEYS: set<string> := (set k | k in COPIED) + {"ipcProtocol"} + (set k | k in LAYERED)

  const NO_SITES := Obj(map[])
  const NO_HOST_INTEGRITY := Obj(map["enabled" := Bool(false)])

  function TreatmentOf(k: string): Treatment {
    if k == "dcLookupMap" then Neutral(NO_SITES)
    else if k == "hostIntegrity" then Neutral(NO_HOST_INTEGRITY)
    else if k in COPIED then Copied
    else if k == "ipcProtocol" then FromDefaults
    else if k in LAYERED then Layered
    else Dropped
  }

  /** A default with a section value layered over it; a section that is not an object keeps the default. */
  function FillSection(d: Json, v: Json): Json {
    if v.Obj? then Merge(d, Strip(v)) else d
  }

  /** The same one level down, where a scalar replaces the default and only a missing value keeps it. */
  function Fill(d: Json, v: Json): Json {
    if v.Null? then d else Merge(d, Strip(v))
  }

  /** What complete puts under key k when the raw document holds v there. */
  function CompleteKey(defaults: Object, k: string, v: Json): Option<Json> {
    match TreatmentOf(k)
    case Copied => if v.Null? then None else Some(v)
    case Neutral(value) => Some(if v.Null? then value else v)
    case FromDefaults => Some(if v.Null? then At(defaults, k) else v)
    case Layered => Some(FillSection(At(defaults, k), v))
    case Dropped => None
  }

  function Complete(defaults: Object, raw: Object): Object {
    map k | k in KEYS && CompleteKey(defaults, k, At(raw, k)).Some? :: CompleteKey(defaults, k, At(raw, k)).value
  }

  /** The patches of a list applied in order. */
  function PatchAll(raw: Object, patches: seq<Object>): Object
    decreases |patches|
  {
    if patches == [] then raw
    else Patched(PatchAll(raw, patches[..|patches| - 1]), patches[|patches| - 1])
  }

  function Patched(raw: Object, patch: Object): Object {
    Merge(Obj(raw), Obj(patch)).fields
  }

  /** The two sections whose defaults a patch could tell from nothing at all. */
  const SENSITIVE: set<string> := {"hostIntegrity", "ipcProtocol"}

  ghost predicate Insensitive(patches: seq<Object>) {
    forall p <- patches :: p.Keys !! SENSITIVE
  }

  lemma PatchableIsInsensitive(patches: seq<Object>)
    requires OnlyPatchable(patches)
    ensures Insensitive(patches)
  {
    assert PATCHABLE !! SENSITIVE;
  }

  ghost predicate OnlyPatchable(patches: seq<Object>) {
    forall p <- patches :: p.Keys <= PATCHABLE
  }

  // ---- what completing means, path by path ----

  /** r is the default section d with the document's section v over it: a scalar or list of the document is what
      stands there, a missing or null member has the default's value, and a section that is not an object is the
      default section. */
  ghost predicate Layers(d: Json, v: Json, r: Json) {
    && (!v.Obj? ==> r == d)
    && (v.Obj? ==> r.Obj? && forall path: Path | path != [] && Reached(v, path) :: PathLayers(d, v, r, path))
  }

  predicate PathLayers(d: Json, v: Json, r: Json, path: Path) {
    && (IsPlain(Lookup(v, path)) ==> Lookup(r, path) == Lookup(v, path))
    && (Lookup(v, path).Null? ==> Lookup(r, path) == Lookup(d, path))
    && (Lookup(v, path).Obj? ==> Lookup(r, path).Obj?)
  }

  /** What a completed document consists of, key by key. */
  ghost predicate CompletedFrom(defaults: Object, raw: Object, out: Object) {
    && (forall k <- out :: k in ["schemaVersion", "revision", "generatedAt", "servers", "defaultServer", "dcLookupMap",
          "hostIntegrity", "ipcProtocol", "refresh", "control", "updater", "logging", "clientWs"])
    && (forall k <- ["schemaVersion", "revision", "generatedAt", "servers", "defaultServer"] ::
          At(out, k) == At(raw, k) && (k in out ==> !out[k].Null?))
    && At(out, "dcLookupMap") == (if At(raw, "dcLookupMap").Null? then Obj(map[]) else At(raw, "dcLookupMap"))
    && At(out, "hostIntegrity") ==
         (if At(raw, "hostIntegrity").Null? then Obj(map["enabled" := Bool(false)]) else At(raw, "hostIntegrity"))
    && At(out, "ipcProtocol") ==
         (if At(raw, "ipcProtocol").Null? then At(defaults, "ipcProtocol") else At(raw, "ipcProtocol"))
    && forall k <- ["refresh", "control", "updater", "logging", "clientWs"] ::
         k in out && Layers(At(defaults, k), At(raw, k), out[k])
  }

  lemma {:induction false} FilledAt(d: Json, v: Json, path: Path)
    requires Reached(v, path)
    ensures Lookup(Fill(d, v), path) == Fill(Lookup(d, path), Lookup(v, path))
    decreases |path|
  {
    if path != [] {
      if v.Obj? {
        FillMember(d, v, path[0]);
      }
      FilledAt(Get(d, path[0]), Get(v, path[0]), path[1..]);
    }
  }

  lemma FillSectionLayers(d: Json, v: Json)
    ensures Layers(d, v, FillSection(d, v))
  {
    if v.Obj? {
      forall path: Path | path != [] && Reached(v, path) ensures PathLayers(d, v, FillSection(d, v), path) {
        FilledAt(d, v, path);
      }
    }
  }

  lemma LayeredByName()
    ensures forall k <- ["refresh", "control", "updater", "logging", "clientWs"] :: k in KEYS && TreatmentOf(k).Layered?
  {}

  lemma CopiedByName()
    ensures forall k <- ["schemaVersion", "revision", "generatedAt", "servers", "defaultServer"] ::
      k in KEYS && TreatmentOf(k).Copied?
  {}

  lemma SpecialByName()
    ensures "dcLookupMap" in KEYS && TreatmentOf("dcLookupMap") == Neutral(Obj(map[]))
    ensures "hostIntegrity" in KEYS && TreatmentOf("hostIntegrity") == Neutral(Obj(map["enabled" := Bool(false)]))
    ensures "ipcProtocol" in KEYS && TreatmentOf("ipcProtocol") == FromDefaults
  {}

  lemma KeysByName()
    ensures forall k <- KEYS :: k in ["schemaVersion", "revision", "generatedAt", "servers", "defaultServer",
      "dcLookupMap", "hostIntegrity", "ipcProtocol", "refresh", "control", "updater", "logging", "clientWs"]
  {}

  lemma CompletedSection(defaults: Object, raw: Object, k: string)
    requires k in KEYS && TreatmentOf(k).Layered?
    ensures k in Complete(defaults, raw) && Layers(At(defaults, k), At(raw, k), Complete(defaults, raw)[k])
  {
    hide KEYS, TreatmentOf, FillSection, Layers;
    FillSectionLayers(At(defaults, k), At(raw, k));
  }

  lemma CompleteIsCompletedFrom(defaults: Object, raw: Object)
    ensures CompletedFrom(defaults, raw, Complete(defaults, raw))
  {
    LayeredByName();
    CopiedByName();
    SpecialByName();
    KeysByName();
    hide KEYS, TreatmentOf, Layers, FillSection, Complete;
    forall k | k in ["refresh", "control", "updater", "logging", "clientWs"]
      ensures k in Complete(defaults, raw) && Layers(At(defaults, k), At(raw, k), Complete(defaults, raw)[k])
    {
      CompletedSection(defaults, raw, k);
    }
    forall k | k in ["schemaVersion", "revision", "generatedAt", "servers", "defaultServer"]
      ensures At(Complete(defaults, raw), k) == At(raw, k)
      ensures k in Complete(defaults, raw) ==> !Complete(defaults, raw)[k].Null?
    {
      CompletedCopy(defaults, raw, k);
    }
    CompletedMember(defaults, raw, "dcLookupMap");
    CompletedMember(defaults, raw, "hostIntegrity");
    CompletedMember(defaults, raw, "ipcProtocol");
    CompletedKeys(defaults, raw);
  }

  lemma CompletedCopy(defaults: Object, raw: Object, k: string)
    requires k in KEYS && TreatmentOf(k).Copied?
    ensures At(Complete(defaults, raw), k) == At(raw, k)
    ensures k in Complete(defaults, raw) ==> !Complete(defaults, raw)[k].Null?
  {
    hide KEYS, TreatmentOf;
  }

  lemma CompletedKeys(defaults: Object, raw: Object)
    ensures Complete(defaults, raw).Keys <= KEYS
  {
    hide KEYS, TreatmentOf, CompleteKey;
  }

  /** complete: copy the topology keys, give the missing ones their neutral value, layer the sections. */
  method CompleteDocument(defaults: Object, raw: Object) returns (out: Object)
    ensures out == Complete(defaults, raw)
    ensures CompletedFrom(defaults, raw, out)
  {
    CompleteIsCompletedFrom(defaults, raw);
    hide CompletedFrom;
    LayeredKeys();
    hide COPIED, LAYERED, KEYS, TreatmentOf, FillSection;
    out := CopyKeys(raw);
    out := FixedKeys(defaults, raw, out);
    out := LayerSections(defaults, raw, out);
  }

  lemma LayeredKeys()
    ensures forall k <- LAYERED :: k in KEYS && TreatmentOf(k).Layered?
  {}

  method CopyKeys(raw: Object) returns (out: Object)
    ensures forall k :: k in out <==> k in COPIED && !At(raw, k).Null?
    ensures forall k <- out :: out[k] == At(raw, k)
  {
    hide COPIED;
    out := map[];
    for i := 0 to |COPIED|
      invariant forall k :: k in out <==> k in COPIED[..i] && !At(raw, k).Null?
      invariant forall k <- out :: out[k] == At(raw, k)
    {
      var k := COPIED[i];
      if k in raw && !raw[k].Null? {
        out := out[k := raw[k]];
      }
    }
  }

  method LayerSections(defaults: Object, raw: Object, fixed: Object) returns (out: Object)
    requires forall k <- fixed :: k !in LAYERED
    ensures forall k :: k in out <==> k in fixed || k in LAYERED
    ensures forall k <- fixed :: out[k] == fixed[k]
    ensures forall k <- LAYERED :: out[k] == FillSection(At(defaults, k), At(raw, k))
  {
    hide LAYERED;
    out := fixed;
    for i := 0 to |LAYERED|
      invariant forall k :: k in out <==> k in fixed || k in LAYERED[..i]
      invariant forall k <- fixed :: out[k] == fixed[k]
      invariant forall k <- LAYERED[..i] :: out[k] == FillSection(At(defaults, k), At(raw, k))
    {
      var k := LAYERED[i];
      var filled := At(defaults, k);
      if k in raw && raw[k].Obj? {
        var section := StripNulls(raw[k]);
        filled := MergePatch.MergePatch(At(defaults, k), section);
      }
      assert filled == FillSection(At(defaults, k), At(raw, k));
      out := out[k := filled];
    }
  }

  /** What a completed document has apart from its layered sections. */
  ghost predicate Fixed(defaults: Object, raw: Object, out: Object) {
    && (forall k :: k in out <==> k in KEYS && k !in LAYERED && CompleteKey(defaults, k, At(raw, k)).Some?)
    && forall k <- out :: k !in LAYERED && Some(out[k]) == CompleteKey(defaults, k, At(raw, k))
  }

  lemma FixedTreatments(k: string)
    ensures k in KEYS && k !in LAYERED <==> k in COPIED || k == "ipcProtocol"
    ensures k in COPIED && k != "dcLookupMap" && k != "hostIntegrity" ==> TreatmentOf(k).Copied?
    ensures TreatmentOf("dcLookupMap") == Neutral(NO_SITES) && TreatmentOf("ipcProtocol").FromDefaults?
    ensures TreatmentOf("hostIntegrity") == Neutral(NO_HOST_INTEGRITY)
  {}

  /** The topology sections that are never absent, and ipcProtocol. */
  method FixedKeys(defaults: Object, raw: Object, copied: Object) returns (out: Object)
    requires forall k :: k in copied <==> k in COPIED && !At(raw, k).Null?
    requires forall k <- copied :: copied[k] == At(raw, k)
    ensures Fixed(defaults, raw, out)
  {
    KeyNames();
    hide COPIED, LAYERED, KEYS, TreatmentOf, FillSection, NO_SITES, NO_HOST_INTEGRITY;
    out := copied;
    if "dcLookupMap" !in out {
      out := out["dcLookupMap" := NO_SITES];
    }
    if "hostIntegrity" !in out {
      out := out["hostIntegrity" := NO_HOST_INTEGRITY];
    }
    if "ipcProtocol" in raw && !raw["ipcProtocol"].Null? {
      out := out["ipcProtocol" := raw["ipcProtocol"]];
    } else {
      out := out["ipcProtocol" := At(defaults, "ipcProtocol")];
    }
    forall k
      ensures k in out <==> k in KEYS && k !in LAYERED && CompleteKey(defaults, k, At(raw, k)).Some?
      ensures k in out ==> k !in LAYERED && Some(out[k]) == CompleteKey(defaults, k, At(raw, k))
    {
      FixedTreatments(k);
    }
  }

  lemma KeyNames()
    ensures "dcLookupMap" in COPIED && "hostIntegrity" in COPIED && "ipcProtocol" !in COPIED
    ensures "dcLookupMap" !in LAYERED && "hostIntegrity" !in LAYERED && "ipcProtocol" !in LAYERED
    ensures "dcLookupMap" != "hostIntegrity" && "ipcProtocol" != "dcLookupMap" && "ipcProtocol" != "hostIntegrity"
    ensures forall k <- LAYERED :: k !in COPIED
  {}

  /** The member k of a value layered over a default. */
  lemma FillMember(d: Json, v: Json, k: string)
    requires v.Obj?
    ensures var filled := Merge(d, Strip(v)).fields;
      && (k in filled <==> k in Fields(d) || !Get(v, k).Null?)
      && At(filled, k) == Fill(Get(d, k), Get(v, k))
  {
  }

  lemma MergeMember(t: Json, p: Json, k: string)
    requires p.Obj?
    ensures Get(Merge(t, p), k) ==
      if k !in p.fields then Get(t, k) else if p.fields[k].Null? then Null else Merge(Get(t, k), p.fields[k])
  {
  }

  lemma CompletedMember(defaults: Object, raw: Object, k: string)
    requires k in KEYS
    ensures At(Complete(defaults, raw), k) ==
      var c := CompleteKey(defaults, k, At(raw, k)); if c.Some? then c.value else Null
  {
  }

  lemma FilledMembers(d: Json, v: Json, filled: Object, r: Object)
    requires v.Obj? && filled == Merge(d, Strip(v)).fields
    requires forall k :: (k in r <==> k in Fields(d) || !Get(v, k).Null?) && At(r, k) == Fill(Get(d, k), Get(v, k))
    ensures filled == r
  {
    forall k ensures (k in filled <==> k in r) && At(filled, k) == At(r, k) {
      FillMember(d, v, k);
    }
    SameObject(filled, r);
  }

  /** Filling twice with the same defaults is filling once. */
  lemma {:induction false} FillTwice(d: Json, v: Json)
    ensures Fill(d, Fill(d, v)) == Fill(d, v)
    decreases v
  {
    if v.Obj? {
      var once := Merge(d, Strip(v));
      forall k
        ensures k in once.fields <==> k in Fields(d) || !Get(once, k).Null?
        ensures Get(once, k) == Fill(Get(d, k), Get(once, k))
      {
        FillMember(d, v, k);
        if k in v.fields && !v.fields[k].Null? {
          FillTwice(Get(d, k), v.fields[k]);
        } else {
          FillSelf(Get(d, k));
        }
      }
      FilledMembers(d, once, Merge(d, Strip(once)).fields, once.fields);
    } else {
      FillSelf(d);
    }
  }

  lemma {:induction false} FillSelf(d: Json)
    ensures Fill(d, d) == d
  {
    if d.Obj? {
      forall k | k in d.fields { FillSelf(d.fields[k]); }
      assert Merge(d, Strip(d)).fields == d.fields;
    }
  }

  /** Two values are alike under a default when filling cannot tell them apart. */
  ghost predicate Alike(d: Json, t: Json, f: Json) {
    Fill(d, t) == Fill(d, f)
  }

  lemma AlikeMembers(d: Json, t: Json, f: Json, k: string)
    requires Alike(d, t, f)
    ensures Alike(Get(d, k), Get(t, k), Get(f, k))
    ensures k in Fields(d) || (Get(t, k).Null? <==> Get(f, k).Null?)
  {
    if t.Obj? { FillMember(d, t, k); }
    if f.Obj? { FillMember(d, f, k); }
  }

  /** The simulation step: patching alike values leaves them alike. */
  lemma {:induction false} AlikeAfterPatch(d: Json, t: Json, f: Json, p: Json)
    requires Alike(d, t, f) && !p.Null?
    ensures Alike(d, Merge(t, p), Merge(f, p))
    decreases p
  {
    if p.Obj? {
      var fx, fy := Merge(d, Strip(Merge(t, p))).fields, Merge(d, Strip(Merge(f, p))).fields;
      forall k ensures (k in fx <==> k in fy) && At(fx, k) == At(fy, k) {
        if k in p.fields && !p.fields[k].Null? {
          AlikeMembers(d, t, f, k);
          AlikeAfterPatch(Get(d, k), Get(t, k), Get(f, k), p.fields[k]);
        }
        AlikeMemberAfterPatch(d, t, f, p, k);
      }
      SameObject(fx, fy);
    }
  }

  lemma AlikeMemberAfterPatch(d: Json, t: Json, f: Json, p: Json, k: string)
    requires Alike(d, t, f) && p.Obj?
    requires k in p.fields && !p.fields[k].Null? ==>
      Alike(Get(d, k), Merge(Get(t, k), p.fields[k]), Merge(Get(f, k), p.fields[k]))
    ensures var fx, fy := Merge(d, Strip(Merge(t, p))).fields, Merge(d, Strip(Merge(f, p))).fields;
      (k in fx <==> k in fy) && At(fx, k) == At(fy, k)
  {
    FillMember(d, Merge(t, p), k);
    FillMember(d, Merge(f, p), k);
    MergeMember(t, p, k);
    MergeMember(f, p, k);
    AlikeMembers(d, t, f, k);
    hide Merge, Strip;
    if k in p.fields && !p.fields[k].Null? {
      MergeIsNull(Get(t, k), p.fields[k]);
      MergeIsNull(Get(f, k), p.fields[k]);
    }
  }

  lemma MergeIsNull(t: Json, p: Json)
    ensures Merge(t, p).Null? <==> p.Null?
  {}

  /** Completing cannot tell the two documents apart. */
  ghost predicate SameCompleted(defaults: Object, raw: Object, filled: Object) {
    forall k :: CompleteKey(defaults, k, At(raw, k)) == CompleteKey(defaults, k, At(filled, k))
  }

  lemma SectionAfterPatch(d: Json, t: Json, f: Json, p: Json)
    requires FillSection(d, t) == FillSection(d, f) && !p.Null?
    ensures FillSection(d, Merge(t, p)) == FillSection(d, Merge(f, p))
  {
    if p.Obj? {
      var t', f' := if t.Obj? then t else Null, if f.Obj? then f else Null;
      assert Merge(t, p) == Merge(t', p) && Merge(f, p) == Merge(f', p);
      AlikeAfterPatch(d, t', f', p);
    }
  }

  /** Every other section is absent or null before filling just when filling leaves an empty value there. */
  lemma InsensitiveTreatment(k: string)
    requires k !in SENSITIVE
    ensures var t := TreatmentOf(k); t.Layered? || t.Copied? || t.Dropped? || t == Neutral(NO_SITES)
  {}

  lemma SameCompletedAfterPatch(defaults: Object, raw: Object, filled: Object, patch: Object)
    requires SameCompleted(defaults, raw, filled) && patch.Keys !! SENSITIVE
    ensures SameCompleted(defaults, Patched(raw, patch), Patched(filled, patch))
  {
    hide TreatmentOf, SENSITIVE;
    forall k ensures CompleteKey(defaults, k, At(Patched(raw, patch), k))
                  == CompleteKey(defaults, k, At(Patched(filled, patch), k))
    {
      MergeMember(Obj(raw), Obj(patch), k);
      MergeMember(Obj(filled), Obj(patch), k);
      assert CompleteKey(defaults, k, At(raw, k)) == CompleteKey(defaults, k, At(filled, k));
      if k in patch && !patch[k].Null? {
        InsensitiveTreatment(k);
        if TreatmentOf(k).Layered? {
          SectionAfterPatch(At(defaults, k), At(raw, k), At(filled, k), patch[k]);
        } else if TreatmentOf(k).Neutral? {
          assert Merge(Null, patch[k]) == Merge(NO_SITES, patch[k]);
        }
      }
    }
  }

  lemma CompletedIsAlike(defaults: Object, raw: Object)
    ensures SameCompleted(defaults, raw, Complete(defaults, raw))
  {
    forall k
      ensures CompleteKey(defaults, k, At(raw, k)) == CompleteKey(defaults, k, At(Complete(defaults, raw), k))
    {
      if k in KEYS {
        CompletedMember(defaults, raw, k);
        if TreatmentOf(k).Layered? {
          var d, v := At(defaults, k), At(raw, k);
          FillTwice(d, if v.Obj? then v else Null);
        }
      }
    }
  }

  lemma {:induction false} SameCompletedAfterPatches(defaults: Object, raw: Object, filled: Object,
                                                     patches: seq<Object>)
    requires SameCompleted(defaults, raw, filled) && Insensitive(patches)
    ensures SameCompleted(defaults, PatchAll(raw, patches), PatchAll(filled, patches))
    decreases |patches|
  {
    if patches != [] {
      var last := |patches| - 1;
      SameCompletedAfterPatches(defaults, raw, filled, patches[..last]);
      var r, f := PatchAll(raw, patches[..last]), PatchAll(filled, patches[..last]);
      SameCompletedAfterPatch(defaults, r, f, patches[last]);
    }
  }

  /** Filling the defaults before patching loses nothing: patching the completed document and completing
      again gives what patching the raw document and completing once gives. */
  lemma FillingCommutesWithPatching(defaults: Object, raw: Object, patches: seq<Object>)
    requires Insensitive(patches)
    ensures Complete(defaults, PatchAll(Complete(defaults, raw), patches)) == Complete(defaults, PatchAll(raw, patches))
  {
    CompletedIsAlike(defaults, raw);
    SameCompletedAfterPatches(defaults, raw, Complete(defaults, raw), patches);
    SameCompletions(defaults, PatchAll(raw, patches), PatchAll(Complete(defaults, raw), patches));
  }

  lemma SameCompletions(defaults: Object, raw: Object, filled: Object)
    requires SameCompleted(defaults, raw, filled)
    ensures Complete(defaults, raw) == Complete(defaults, filled)
  {
    assert forall k ::
      CompleteKey(defaults, k, At(raw, k)) == CompleteKey(defaults, k, At(filled, k));
  }

  // ---- exactly two sections break the law ----

  predicate CommutesFor(defaults: Object, raw: Object, patch: Object) {
    Complete(defaults, Patched(Complete(defaults, raw), patch)) == Complete(defaults, Patched(raw, patch))
  }

  function OneKey(k: string, p: Json): Object {
    map[k := p]
  }

  lemma CompletedAfterPatch(defaults: Object, raw: Object, k: string, p: Json)
    requires k in KEYS
    ensures At(Complete(defaults, Patched(raw, OneKey(k, p))), k) ==
      var patched := if p.Null? then Null else Merge(At(raw, k), p);
      var c := CompleteKey(defaults, k, patched); if c.Some? then c.value else Null
  {
    CompletedMember(defaults, Patched(raw, OneKey(k, p)), k);
    MergeMember(Obj(raw), Obj(OneKey(k, p)), k);
    hide Complete, KEYS, TreatmentOf, CompleteKey;
  }

  lemma SensitiveKeys()
    ensures "hostIntegrity" in KEYS && TreatmentOf("hostIntegrity") == Neutral(NO_HOST_INTEGRITY)
    ensures "ipcProtocol" in KEYS && TreatmentOf("ipcProtocol").FromDefaults?
  {}

  /** An empty patch of such a section finds the default after filling and nothing before it. */
  lemma EmptyPatchTells(defaults: Object, k: string)
    requires k in SENSITIVE && At(defaults, "ipcProtocol").Obj? && Fields(At(defaults, "ipcProtocol")) != map[]
    ensures !CommutesFor(defaults, map[], OneKey(k, Obj(map[])))
  {
    SensitiveKeys();
    hide KEYS, Complete, COPIED, LAYERED, TreatmentOf;
    var filled, p := Complete(defaults, map[]), Obj(map[]);
    CompletedMember(defaults, map[], k);
    CompletedAfterPatch(defaults, filled, k, p);
    CompletedAfterPatch(defaults, map[], k, p);
    var d := if k == "ipcProtocol" then At(defaults, "ipcProtocol") else NO_HOST_INTEGRITY;
    assert Merge(d, p).fields == d.fields && Merge(Null, p).fields == map[];
    assert "enabled" in NO_HOST_INTEGRITY.fields;
  }

  /** With defaults that name an IPC table, as the compiled-in ones do, patches of one section commute with
      filling for all documents exactly when the section is not one of the two. */
  lemma CommutesExactlyOutsideTwoSections(defaults: Object, k: string)
    requires At(defaults, "ipcProtocol").Obj? && Fields(At(defaults, "ipcProtocol")) != map[]
    ensures (forall raw, p :: CommutesFor(defaults, raw, OneKey(k, p))) <==> k !in SENSITIVE
  {
    if k in SENSITIVE {
      EmptyPatchTells(defaults, k);
    } else {
      forall raw, p ensures CommutesFor(defaults, raw, OneKey(k, p)) {
        var patches := [OneKey(k, p)];
        assert Insensitive(patches) && patches[..0] == [];
        FillingCommutesWithPatching(defaults, raw, patches);
      }
    }
    hide SENSITIVE, Complete, KEYS;
  }
}
