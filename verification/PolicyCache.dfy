/** The cached document at the next start: saveCache writes the typed document and its typed overrides
    (internal/service/remoteconfig.go), initPolicy parses it again. */
module PolicyCache {
  import opened Json
  import opened PolicySchema
  import opened PolicyComplete
  import opened PolicySites
  import opened PolicyOverrides
  import opened PolicyTyped

  function SaveWords(w: Words): Json {
    if w.None? then Null else Arr(seq(|w.value|, i requires 0 <= i < |w.value| => Str(w.value[i])))
  }

  /** json.Marshal of a Selector: `all` has no omitempty, so it is always written. */
  function SaveSelector(s: Selector): Json {
    Obj(map["all" := Bool(s.all), "hwids" := SaveWords(s.hwids), "hostnames" := SaveWords(s.hostnames),
            "dcs" := SaveWords(s.dcs), "subnets" := SaveWords(s.subnets), "domains" := SaveWords(s.domains)])
  }

  function SaveOverride(o: Override): Json {
    Obj(map["id" := Str(o.id), "match" := SaveSelector(o.match_),
            "except" := if o.except.None? then Null else SaveSelector(o.except.value),
            "until" := if o.until.None? then Null else Str(o.until.value),
            "patch" := Obj(o.patch)])
  }

  function Saved(p: Parsed): Object {
    TypedDoc(p.global)["overrides" :=
      Arr(seq(|p.overrides|, i requires 0 <= i < |p.overrides| => SaveOverride(p.overrides[i])))]
  }

  /** What the next start makes of the cache when it is accepted. */
  function Reread(p: Parsed): Parsed {
    Parsed(Complete(p.defaults, TypedDoc(p.global)), TypedDoc(p.global), p.defaults, p.overrides)
  }

  /** The override applies to every host until it expires. */
  predicate Unconditional(o: Override) {
    o.match_.all && o.except.None?
  }

  predicate AllUnconditional(overrides: seq<Override>) {
    forall o <- overrides :: Unconditional(o)
  }

  lemma WordsRoundTrip(w: Words)
    ensures IsTextList(SaveWords(w)) && WordsOf(SaveWords(w)) == w
  {
    if w.Some? {
      assert TextsOf(SaveWords(w)) == w.value;
    }
  }

  lemma SelectorRoundTrip(s: Selector)
    ensures DecodeSelector(SaveSelector(s)) == Some(s)
  {
    WordsRoundTrip(s.hwids);
    WordsRoundTrip(s.hostnames);
    WordsRoundTrip(s.dcs);
    WordsRoundTrip(s.subnets);
    WordsRoundTrip(s.domains);
  }

  /** An `all` selector that passed validation has no lists at all. */
  lemma AllStandsAlone(libs: Libs, raw: Json, s: Selector)
    requires DecodeSelector(raw) == Some(s) && ValidSelector(libs, raw, s, true) && s.all
    ensures s == Selector(true, None, None, None, None, None)
  {
    var present := set k | k in raw.fields && !raw.fields[k].Null?;
    assert "all" in present;
    forall k | k != "all" ensures Get(raw, k).Null? {
      assert k !in present;
    }
  }

  /** A saved selector passes validation again exactly when it is the bare `all` of a match. */
  lemma SavedSelectorValid(libs: Libs, s: Selector, allowAll: bool)
    ensures ValidSelector(libs, SaveSelector(s), s, allowAll)
      <==> allowAll && s == Selector(true, None, None, None, None, None)
  {
    var raw := SaveSelector(s);
    var present := set k | k in raw.fields && !raw.fields[k].Null?;
    assert "all" in present;
    if s == Selector(true, None, None, None, None, None) {
      assert present == {"all"};
    } else if present == {"all"} {
      assert "hwids" !in present && "hostnames" !in present && "dcs" !in present;
      assert "subnets" !in present && "domains" !in present;
      assert raw.fields["hwids"] == SaveWords(s.hwids) && raw.fields["hostnames"] == SaveWords(s.hostnames);
      assert raw.fields["dcs"] == SaveWords(s.dcs) && raw.fields["subnets"] == SaveWords(s.subnets);
      assert raw.fields["domains"] == SaveWords(s.domains);
    }
  }

  const ONE_HOST := Obj(map["hostnames" := Arr([Str("pc-1")])])

  /** The smallest loss: a selector naming one host is fine in the document and refused from the cache. */
  lemma HostnameSelectorIsLost(libs: Libs)
    ensures var s := DecodeSelector(ONE_HOST);
      && s.Some? && ValidSelector(libs, ONE_HOST, s.value, true)
      && !ValidSelector(libs, SaveSelector(s.value), s.value, true)
  {
    var s := DecodeSelector(ONE_HOST).value;
    assert TextsOf(ONE_HOST.fields["hostnames"]) == ["pc-1"];
    SavedSelectorValid(libs, s, true);
  }

  lemma SavedOverride(libs: Libs, item: Json, o: Override)
    requires ParseOverride(libs, item) == Some(o)
    ensures ParseOverride(libs, SaveOverride(o)) == if Unconditional(o) then Some(o) else None
  {
    SelectorRoundTrip(o.match_);
    SavedSelectorValid(libs, o.match_, true);
    if o.match_.all {
      AllStandsAlone(libs, Get(item, "match"), o.match_);
    }
    if o.except.Some? {
      SelectorRoundTrip(o.except.value);
      SavedSelectorValid(libs, o.except.value, false);
    }
    SavedMembers(o);
    hide SaveOverride, SaveSelector, DecodeSelector, ValidSelector, PATCHABLE;
  }

  lemma SavedMembers(o: Override)
    ensures var saved := SaveOverride(o);
      && saved.Obj? && Get(saved, "id") == Str(o.id) && Get(saved, "match") == SaveSelector(o.match_)
      && Get(saved, "except") == (if o.except.None? then Null else SaveSelector(o.except.value))
      && Get(saved, "until") == (if o.until.None? then Null else Str(o.until.value))
      && Get(saved, "patch") == Obj(o.patch)
  {
    hide SaveSelector;
  }

  lemma SavedDocument(p: Parsed)
    requires At(p.global, "schemaVersion") == Num(1.0)
    ensures Saved(p) - {"overrides"} == TypedDoc(p.global)
    ensures At(Saved(p), "schemaVersion") == Num(1.0)
  {
    NoOverridesKey();
    FixedSchemas();
    hide DOCUMENT, SaveOverride;
    assert (Saved(p) - {"overrides"}) == TypedDoc(p.global);
  }

  lemma HeadKeys()
    ensures "overrides" !in KEYS && "schemaVersion" != "overrides"
    ensures "schemaVersion" in KEYS && TreatmentOf("schemaVersion").Copied?
  {}

  lemma NoOverridesKey()
    ensures "overrides" !in DOCUMENT && "schemaVersion" != "overrides"
    ensures "schemaVersion" in KEYS && TreatmentOf("schemaVersion").Copied?
  {
    hide KEYS, DOCUMENT, TreatmentOf, MERGED;
    HeadKeys();
    DocumentKeys();
  }

  /** The overrides of the saved document are those of the original, or none at all. */
  lemma SavedOverrides(libs: Libs, v: Json, overrides: seq<Override>, saved: seq<Json>)
    requires OverridesOf(libs, v, overrides)
    requires |saved| == |overrides| && forall i | 0 <= i < |saved| :: saved[i] == SaveOverride(overrides[i])
    ensures (exists again :: OverridesOf(libs, Arr(saved), again)) <==> AllUnconditional(overrides)
    ensures AllUnconditional(overrides) ==> OverridesOf(libs, Arr(saved), overrides)
  {
    hide ParseOverride, SaveOverride, Unconditional;
    forall i | 0 <= i < |overrides|
      ensures ParseOverride(libs, saved[i]) == if Unconditional(overrides[i]) then Some(overrides[i]) else None
    {
      if v.Arr? {
        Entry(libs, v, overrides, i);
        SavedOverride(libs, v.items[i], overrides[i]);
      }
    }
    if again :| OverridesOf(libs, Arr(saved), again) {
      forall i | 0 <= i < |overrides| ensures Unconditional(overrides[i]) {
        Entry(libs, Arr(saved), again, i);
      }
    }
    if AllUnconditional(overrides) {
      forall i | 0 <= i < |overrides| ensures ParseOverride(libs, saved[i]) == Some(overrides[i]) {
        assert Unconditional(overrides[i]);
      }
      assert OverridesOf(libs, Arr(saved), overrides);
    }
  }

  lemma SameDryRun(libs: Libs, defaults: Object, p: Parsed)
    requires p.global == Complete(defaults, p.raw) && AllPatchable(p.overrides)
    ensures DryRun(libs, defaults, TypedDoc(p.global), p.overrides) <==> DryRun(libs, defaults, p.raw, p.overrides)
  {
    hide Builds, Complete, TypedDoc, PATCHABLE, Patched;
    forall o | o in p.overrides
      ensures Builds(libs, defaults, Patched(TypedDoc(p.global), o.patch))
        <==> Builds(libs, defaults, Patched(p.raw, o.patch))
    {
      assert [o.patch][..0] == [];
      TypedBuilds(libs, defaults, p.raw, [o.patch]);
    }
    TypedBuilds(libs, defaults, p.raw, Patches(p.overrides));
  }

  /** The saved document of an accepted one is accepted at the next start exactly when every override
      is unconditional; any selector makes the cache unreadable. */
  lemma CacheIsReadBackExactlyWhen(libs: Libs, defaults: Object, doc: Object, p: Parsed)
    requires Accepted(libs, defaults, doc, p)
    ensures (exists q :: Accepted(libs, defaults, Saved(p), q)) <==> AllUnconditional(p.overrides)
    ensures AllUnconditional(p.overrides) ==> Accepted(libs, defaults, Saved(p), Reread(p))
  {
    hide Valid, Complete, TypedDoc, DryRun, OverridesOf, AllUnconditional, SaveOverride, KEYS, TreatmentOf, DOCUMENT;
    NoOverridesKey();
    CompletedMember(defaults, p.raw, "schemaVersion");
    SavedDocument(p);
    AcceptedIsPatchable(libs, At(doc, "overrides"), p.overrides);
    SameDryRun(libs, defaults, p);
    TypedBuilds(libs, defaults, p.raw, []);
    SavedOverrides(libs, At(doc, "overrides"), p.overrides, At(Saved(p), "overrides").items);
    if q :| Accepted(libs, defaults, Saved(p), q) {
      assert OverridesOf(libs, At(Saved(p), "overrides"), q.overrides);
    }
    if AllUnconditional(p.overrides) {
      assert Accepted(libs, defaults, Saved(p), Reread(p));
    }
  }

  const NO_OP := Obj(map["id" := Str("o1"), "match" := ONE_HOST, "patch" := Obj(map[])])

  lemma NoOpParses(libs: Libs)
    ensures ParseOverride(libs, NO_OP).Some?
    ensures var o := ParseOverride(libs, NO_OP).value; o.patch == map[] && !Unconditional(o)
  {
    HostnameSelectorIsLost(libs);
    NoOpMembers();
    hide NO_OP, ONE_HOST, PATCHABLE, ValidSelector;
  }

  lemma NoOpMembers()
    ensures NO_OP.Obj? && Get(NO_OP, "id") == Str("o1") && Get(NO_OP, "match") == ONE_HOST
    ensures Get(NO_OP, "except") == Null && Get(NO_OP, "until") == Null && Get(NO_OP, "patch") == Obj(map[])
    ensures DecodeText(Str("o1")) == Some("o1") && "o1" != "" && DecodeSelector(Null).Some?
    ensures DecodeSelector(ONE_HOST).Some? && !DecodeSelector(ONE_HOST).value.all
  {}

  lemma EmptyPatch(raw: Object)
    ensures Patched(raw, map[]) == raw
  {
    assert Patched(raw, map[]) == raw;
  }

  /** Every accepted document is one harmless override away from a cache that is lost: the override may
      patch nothing, it is enough that it names a host. */
  lemma OneHostOverrideLosesCache(libs: Libs, defaults: Object, doc: Object, p: Parsed)
    requires Accepted(libs, defaults, doc, p)
    ensures var o := ParseOverride(libs, NO_OP);
      o.Some? &&
      var changed, parsed := doc["overrides" := Arr([NO_OP])], p.(overrides := [o.value]);
      Accepted(libs, defaults, changed, parsed) && forall q :: !Accepted(libs, defaults, Saved(parsed), q)
  {
    hide Valid, Complete, ParseOverride, NO_OP, Unconditional, KEYS, TreatmentOf, Saved, TypedDoc;
    NoOpParses(libs);
    NoOverridesKey();
    var o := ParseOverride(libs, NO_OP).value;
    var changed, parsed := doc["overrides" := Arr([NO_OP])], p.(overrides := [o]);
    assert changed - {"overrides"} == doc - {"overrides"};
    EmptyPatch(p.raw);
    hide Patched;
    assert OverridesOf(libs, At(changed, "overrides"), [o]);
    assert Accepted(libs, defaults, changed, parsed);
    CacheIsReadBackExactlyWhen(libs, defaults, changed, parsed);
    assert o in parsed.overrides;
  }

  /** A cache that is read back gives every host, at every time, the typed policy it had before the restart. */
  lemma CacheKeepsEffectivePolicy(libs: Libs, defaults: Object, doc: Object, p: Parsed, h: Host)
    requires Accepted(libs, defaults, doc, p)
    ensures TypedDoc(Complete(defaults, PatchedFor(libs, Reread(p), h)))
         == TypedDoc(Complete(defaults, PatchedFor(libs, p, h)))
  {
    AcceptedIsPatchable(libs, At(doc, "overrides"), p.overrides);
    ChosenIsSubsequence(libs, p.overrides, h);
    SubsequencePatchable(Patches(Chosen(libs, p.overrides, h)), Patches(p.overrides));
    TypedFillingCommutesWithPatching(defaults, p.raw, Patches(Chosen(libs, p.overrides, h)));
  }
}
