/** Deleting from a list by id, as slices.DeleteFunc does it for the pending commands. */
module Records {
  function Without<T>(items: seq<T>, idOf: T -> string, id: string): (r: seq<T>)
    ensures forall x <- items :: x in r <==> idOf(x) != id
    ensures forall x <- r :: x in items
  {
    if items == [] then []
    else (if idOf(items[0]) == id then [] else [items[0]]) + Without(items[1..], idOf, id)
  }

  lemma {:induction false} WithoutLast<T>(items: seq<T>, idOf: T -> string, x: T)
    ensures Without(items + [x], idOf, idOf(x)) == Without(items, idOf, idOf(x))
  {
    if items == [] {
      assert items + [x] == [x];
    } else {
      assert (items + [x])[1..] == items[1..] + [x];
      WithoutLast(items[1..], idOf, x);
    }
  }

  lemma {:induction false} WithoutIsPart<T>(items: seq<T>, idOf: T -> string, id: string)
    ensures multiset(Without(items, idOf, id)) <= multiset(items)
    ensures forall x :: multiset(Without(items, idOf, id))[x] == if idOf(x) == id then 0 else multiset(items)[x]
  {
    if items != [] {
      WithoutIsPart(items[1..], idOf, id);
      assert items == [items[0]] + items[1..];
    }
  }

  ghost predicate Distinct<T>(items: seq<T>) {
    forall i, j | 0 <= i < j < |items| :: items[i] != items[j]
  }

  lemma {:induction false} WithoutKeepsDistinct<T>(items: seq<T>, idOf: T -> string, id: string)
    requires Distinct(items)
    ensures Distinct(Without(items, idOf, id))
  {
    if items != [] {
      var rest := Without(items[1..], idOf, id);
      WithoutKeepsDistinct(items[1..], idOf, id);
      forall i | 0 <= i < |rest| ensures rest[i] != items[0] {
        assert rest[i] in rest;
        var j :| 0 <= j < |items[1..]| && items[1..][j] == rest[i];
        assert items[j + 1] == rest[i];
      }
    }
  }
}
