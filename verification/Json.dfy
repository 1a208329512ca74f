/** Decoded JSON values, as Go's encoding/json hands them over in an `any`, and the
    option type the other modules use for a value that may be missing. */
module Json {
  datatype Option<+T> = None | Some(value: T)

  datatype Json =
    | Null
    | Bool(b: bool)
    | Num(n: real)
    | Str(s: string)
    | Arr(items: seq<Json>)
    | Obj(fields: Object)

  type Object = map<string, Json>

  /** Go's index expression on a map of `any`: a missing key reads as nil. */
  function At(m: Object, k: string): Json {
    if k in m then m[k] else Null
  }

  /** The members of an object; every other value has none. */
  function Fields(v: Json): Object {
    if v.Obj? then v.fields else map[]
  }

  function Get(v: Json, k: string): Json {
    At(Fields(v), k)
  }

  lemma SameObject(a: Object, b: Object)
    requires forall k :: (k in a <==> k in b) && At(a, k) == At(b, k)
    ensures a == b
  {
    assert forall k <- a :: At(a, k) == a[k] && At(b, k) == b[k];
  }
}
