/** Values by path: what merging a patch (internal/policy/merge.go) means for the member a path of keys leads to. */
module JsonPaths {
  import opened Json
  import opened MergePatch

  type Path = seq<string>

  /** The value a path leads to; a path that leaves the objects, or names a missing key, leads to null. */
  function Lookup(v: Json, path: Path): Json
    decreases |path|
  {
    if path == [] then v else Lookup(Get(v, path[0]), path[1..])
  }

  /** Nothing but objects, or missing and null members, on the way to the end of the path. */
  predicate Reached(v: Json, path: Path)
    decreases |path|
  {
    path != [] ==> (v.Null? || v.Obj?) && Reached(Get(v, path[0]), path[1..])
  }

  /** Every key of the path is there. */
  predicate Mentions(v: Json, path: Path)
    decreases |path|
  {
    path != [] ==> v.Obj? && path[0] in v.fields && Mentions(v.fields[path[0]], path[1..])
  }

  /** The path leads through objects of the patch to a key it does not name. */
  predicate Untouched(p: Json, path: Path)
    decreases |path|
  {
    p.Obj? && path != [] && (path[0] in p.fields ==> Untouched(p.fields[path[0]], path[1..]))
  }

  /** Neither null nor an object: what a merge takes over whole. */
  predicate IsPlain(v: Json) {
    !v.Null? && !v.Obj?
  }

  lemma LookupAppend(v: Json, k: string, path: Path)
    ensures Lookup(v, [k] + path) == Lookup(Get(v, k), path)
    ensures Reached(v, [k] + path) <==> (v.Null? || v.Obj?) && Reached(Get(v, k), path)
    ensures Mentions(v, [k] + path) <==> v.Obj? && k in v.fields && Mentions(v.fields[k], path)
    ensures Untouched(v, [k] + path) <==> v.Obj? && (k in v.fields ==> Untouched(v.fields[k], path))
  {
    assert ([k] + path)[1..] == path;
  }

  lemma {:induction false} NullLeadsNowhere(path: Path)
    ensures Lookup(Null, path) == Null && Reached(Null, path)
    decreases |path|
  {
    if path != [] {
      NullLeadsNowhere(path[1..]);
    }
  }

  /** Only objects lead to something. */
  lemma {:induction false} LeadingIsReached(v: Json, path: Path)
    requires !Lookup(v, path).Null?
    ensures Reached(v, path) && (path != [] ==> v.Obj?)
    decreases |path|
  {
    if path != [] {
      LeadingIsReached(Get(v, path[0]), path[1..]);
      NullLeadsNowhere(path[1..]);
    }
  }

  lemma MergedMember(t: Json, p: Json, k: string)
    requires p.Obj?
    ensures var r := Merge(t, p);
      && r.Obj?
      && (k in r.fields <==> if k in p.fields then !p.fields[k].Null? else k in Fields(t))
      && Get(r, k) == if k !in p.fields then Get(t, k)
                      else if p.fields[k].Null? then Null else Merge(Get(t, k), p.fields[k])
  {}

  /** A scalar or list of the patch is what stands there afterwards. */
  lemma {:induction false} PatchSets(t: Json, p: Json, path: Path)
    requires IsPlain(Lookup(p, path))
    ensures Lookup(Merge(t, p), path) == Lookup(p, path)
    decreases |path|
  {
    if path != [] {
      LeadingIsReached(p, path);
      NullLeadsNowhere(path[1..]);
      MergedMember(t, p, path[0]);
      PatchSets(Get(t, path[0]), p.fields[path[0]], path[1..]);
    }
  }

  lemma {:induction false} PatchOpens(t: Json, p: Json, path: Path)
    requires Lookup(p, path).Obj?
    ensures Lookup(Merge(t, p), path).Obj?
    decreases |path|
  {
    if path != [] {
      LeadingIsReached(p, path);
      NullLeadsNowhere(path[1..]);
      MergedMember(t, p, path[0]);
      PatchOpens(Get(t, path[0]), p.fields[path[0]], path[1..]);
    }
  }

  /** A null of the patch deletes the member: afterwards the path is not there. */
  lemma {:induction false} PatchDeletes(t: Json, p: Json, path: Path)
    requires path != [] && Mentions(p, path) && Lookup(p, path).Null?
    ensures !Mentions(Merge(t, p), path) && Lookup(Merge(t, p), path) == Null
    decreases |path|
  {
    MergedMember(t, p, path[0]);
    NullLeadsNowhere(path[1..]);
    if path[1..] != [] && !p.fields[path[0]].Null? {
      PatchDeletes(Get(t, path[0]), p.fields[path[0]], path[1..]);
    }
  }

  /** What the patch does not name stays as it was. */
  lemma {:induction false} PatchKeeps(t: Json, p: Json, path: Path)
    requires Untouched(p, path)
    ensures Lookup(Merge(t, p), path) == Lookup(t, path)
    ensures Mentions(Merge(t, p), path) <==> Mentions(t, path)
    ensures Reached(t, path) ==> Reached(Merge(t, p), path)
    decreases |path|
  {
    var k := path[0];
    MergedMember(t, p, k);
    if k in p.fields {
      PatchKeeps(Get(t, k), p.fields[k], path[1..]);
    }
  }

  /** Stripping takes away the nulls and nothing else. */
  lemma {:induction false} StripKeeps(v: Json, path: Path)
    ensures IsPlain(Lookup(v, path)) ==> Lookup(Strip(v), path) == Lookup(v, path)
    ensures Lookup(v, path).Null? <==> Lookup(Strip(v), path).Null?
    ensures Lookup(v, path).Obj? <==> Lookup(Strip(v), path).Obj?
    decreases |path|
  {
    if path != [] {
      var k := path[0];
      if v.Obj? && k in v.fields && !v.fields[k].Null? {
        StripKeeps(v.fields[k], path[1..]);
      } else {
        NullLeadsNowhere(path[1..]);
      }
    }
  }
}
