/** JSON Merge Patch (RFC 7386, section 2) and null stripping, internal/policy/merge.go. */
module MergePatch {
  import opened Json

  /** A key the patch names with null is deleted, one it names with a value is merged,
      every other key of the target stays. */
  function Merge(target: Json, patch: Json): Json
    decreases patch
  {
    if !patch.Obj? then patch
    else
      var base := Fields(target);
      Obj(map k | k in base.Keys + patch.fields.Keys && !(k in patch.fields && patch.fields[k].Null?)
            :: if k in patch.fields then Merge(At(base, k), patch.fields[k]) else base[k])
  }

  function Strip(v: Json): Json {
    if v.Obj? then Obj(map k | k in v.fields && !v.fields[k].Null? :: Strip(v.fields[k])) else v
  }

  /** No object member reachable through objects is null. */
  predicate NullFree(v: Json) {
    v.Obj? ==> forall k <- v.fields :: !v.fields[k].Null? && NullFree(v.fields[k])
  }

  /** The recursion and the loop over the patch, whose keys Go visits in an unspecified order. */
  method MergePatch(target: Json, patch: Json) returns (r: Json)
    ensures r == Merge(target, patch)
    decreases patch
  {
    if !patch.Obj? {
      return patch;
    }
    var base := Fields(target);
    var out := base;
    var todo := patch.fields.Keys;
    while todo != {}
      invariant todo <= patch.fields.Keys
      invariant forall k :: k in out <==>
                  if k in patch.fields && k !in todo then !patch.fields[k].Null? else k in base
      invariant forall k <- out :: out[k] ==
                  if k in patch.fields && k !in todo then Merge(At(base, k), patch.fields[k]) else base[k]
      decreases todo
    {
      var k :| k in todo;
      todo := todo - {k};
      if patch.fields[k].Null? {
        out := out - {k};
      } else {
        var merged := MergePatch(At(out, k), patch.fields[k]);
        out := out[k := merged];
      }
    }
    r := Obj(out);
  }

  method StripNulls(v: Json) returns (r: Json)
    ensures r == Strip(v)
    decreases v
  {
    if !v.Obj? {
      return v;
    }
    var out: Object := map[];
    var todo := v.fields.Keys;
    while todo != {}
      invariant todo <= v.fields.Keys
      invariant forall k :: k in out <==> k in v.fields && k !in todo && !v.fields[k].Null?
      invariant forall k <- out :: k in v.fields && out[k] == Strip(v.fields[k])
      decreases todo
    {
      var k :| k in todo;
      todo := todo - {k};
      if !v.fields[k].Null? {
        var stripped := StripNulls(v.fields[k]);
        out := out[k := stripped];
      }
    }
    r := Obj(out);
  }

  lemma {:induction false} MergeTwice(target: Json, patch: Json)
    ensures Merge(Merge(target, patch), patch) == Merge(target, patch)
    decreases patch
  {
    if patch.Obj? {
      forall k | k in patch.fields && !patch.fields[k].Null?
        ensures Merge(Merge(Get(target, k), patch.fields[k]), patch.fields[k])
             == Merge(Get(target, k), patch.fields[k])
      {
        MergeTwice(Get(target, k), patch.fields[k]);
      }
      assert Merge(Merge(target, patch), patch).fields == Merge(target, patch).fields;
    }
  }

  lemma MergeTwoMember(target: Json, p: Json, q: Json, k: string)
    requires p.Obj? && q.Obj? && k !in q.fields
    ensures var both := Merge(Merge(target, p), q).fields;
      (k in both <==> k in Merge(target, p).fields) && At(both, k) == At(Merge(target, p).fields, k)
    ensures var other := Merge(Merge(target, q), p).fields;
      (k in other <==> k in Merge(target, p).fields) && At(other, k) == At(Merge(target, p).fields, k)
  {
    assert k in Fields(Merge(target, q)) <==> k in Fields(target);
    assert At(Fields(Merge(target, q)), k) == At(Fields(target), k);
  }

  lemma DisjointPatchesCommute(target: Json, p: Json, q: Json)
    requires p.Obj? && q.Obj? && p.fields.Keys !! q.fields.Keys
    ensures Merge(Merge(target, p), q) == Merge(Merge(target, q), p)
  {
    var pq, qp := Merge(Merge(target, p), q).fields, Merge(Merge(target, q), p).fields;
    forall k ensures (k in pq <==> k in qp) && At(pq, k) == At(qp, k) {
      if k in q.fields {
        MergeTwoMember(target, q, p, k);
      } else {
        MergeTwoMember(target, p, q, k);
      }
    }
    hide Merge;
    SameObject(pq, qp);
  }

  lemma {:induction false} StripIsNullFree(v: Json)
    ensures NullFree(Strip(v))
  {
    if v.Obj? {
      forall k | k in v.fields { StripIsNullFree(v.fields[k]); }
    }
  }

  lemma {:induction false} NullFreeIsFixed(v: Json)
    requires NullFree(v)
    ensures Strip(v) == v
  {
    if v.Obj? {
      forall k | k in v.fields { NullFreeIsFixed(v.fields[k]); }
      assert Strip(v).fields == v.fields;
    }
  }

  /** A null-stripped object patch never removes a key of the object it patches. */
  lemma StrippedPatchKeepsKeys(target: Json, patch: Json, k: string)
    requires target.Obj? && patch.Obj? && k in target.fields
    ensures k in Merge(target, Strip(patch)).fields
  {
    StripIsNullFree(patch);
  }

  /** What a stripped patch leaves of a null-free target is again null-free, so filled defaults
      carry no null of the document's making. */
  lemma {:induction false} MergeKeepsNullFree(target: Json, patch: Json)
    requires NullFree(target) && NullFree(patch)
    ensures NullFree(Merge(target, patch))
    decreases patch
  {
    if patch.Obj? {
      forall k | k in patch.fields { MergeKeepsNullFree(Get(target, k), patch.fields[k]); }
    }
  }
}
