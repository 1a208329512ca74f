/** Parse (internal/policy/parse.go): the whole acceptance of a decoded document. */
module PolicyParse {
  import opened Json
  import opened PolicySchema
  import opened PolicyComplete
  import opened PolicyOverrides

  /** A document is refused for its schema version, for the completed document, for its overrides, or for what they
      make of it; otherwise it is taken over with its overrides in order. */
  method Parse(libs: Libs, defaults: Object, doc: Object) returns (r: Option<Parsed>)
    ensures r.Some? ==> Accepted(libs, defaults, doc, r.value)
    ensures r.None? ==> forall parsed :: !Accepted(libs, defaults, doc, parsed)
    ensures At(doc, "schemaVersion") != Num(1.0) ==> r.None?
    ensures r.Some? ==> r.value.raw == doc - {"overrides"} && Valid(libs, r.value.global)
  {
    hide Valid, Complete, DryRun, OverridesOf, CompletedFrom;
    if At(doc, "schemaVersion") != Num(1.0) {
      return None;
    }
    var raw := doc - {"overrides"};
    var global := CompleteDocument(defaults, raw);
    var overrides := ParseOverrides(libs, At(doc, "overrides"));
    if !Valid(libs, global) || overrides.None? {
      return None;
    }
    var ok := DryRunOverrides(libs, defaults, raw, overrides.value);
    if !ok {
      forall parsed ensures !Accepted(libs, defaults, doc, parsed) {
        if Accepted(libs, defaults, doc, parsed) {
          SameOverrides(libs, At(doc, "overrides"), overrides.value, parsed.overrides);
        }
      }
      return None;
    }
    return Some(Parsed(global, raw, defaults, overrides.value));
  }

  lemma SameOverrides(libs: Libs, v: Json, a: seq<Override>, b: seq<Override>)
    requires OverridesOf(libs, v, a) && OverridesOf(libs, v, b)
    ensures a == b
  {
    hide ParseOverride;
    forall i | 0 <= i < |a| ensures a[i] == b[i] {
      Entry(libs, v, a, i);
      Entry(libs, v, b, i);
    }
  }

  /** A document is accepted exactly when its schema version is 1, the completed document is valid, every entry of
      its overrides parses, no id repeats, and each override's patch on its own gives a valid document. What is then
      in force is the completed document and the overrides in their order. */
  lemma AcceptedExactlyWhen(libs: Libs, defaults: Object, doc: Object, p: Parsed)
    ensures var items := if At(doc, "overrides").Arr? then At(doc, "overrides").items else [];
      Accepted(libs, defaults, doc, p) <==>
        && At(doc, "schemaVersion") == Num(1.0)
        && p.raw == doc - {"overrides"} && p.defaults == defaults && p.global == Complete(defaults, p.raw)
        && Valid(libs, p.global)
        && (At(doc, "overrides").Null? || At(doc, "overrides").Arr?) && |items| == |p.overrides|
        && (forall i | 0 <= i < |items| :: ParseOverride(libs, items[i]) == Some(p.overrides[i]))
        && (forall i, j | 0 <= i < j < |p.overrides| :: p.overrides[i].id != p.overrides[j].id)
        && forall o <- p.overrides :: Valid(libs, Complete(defaults, Patched(p.raw, o.patch)))
  {
    hide Valid, Complete, ParseOverride, Patched, PATCHABLE;
    if OverridesOf(libs, At(doc, "overrides"), p.overrides) && Valid(libs, Complete(defaults, p.raw)) {
      AcceptedIsPatchable(libs, At(doc, "overrides"), p.overrides);
      CombinedDryRunIsRedundant(libs, defaults, p.raw, p.overrides);
    }
  }
}
