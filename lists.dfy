/** Removing the elements of a list that carry a given id, as `filter(x => x.id !== id)` does. */
module Lists {

  /** `s` without the elements whose id (as given by `idOf`) is `id`, in their original order. */
  function RemoveId<T(!new)>(s: seq<T>, id: string, idOf: T -> string): (r: seq<T>)
    ensures forall x :: x in r <==> x in s && idOf(x) != id
    ensures |r| <= |s|
    ensures (forall x :: x in s ==> idOf(x) != id) ==> r == s
  {
    if s == [] then []
    else if idOf(s[|s| - 1]) == id then RemoveId(s[..|s| - 1], id, idOf)
    else RemoveId(s[..|s| - 1], id, idOf) + [s[|s| - 1]]
  }

  /** Removing by id distributes over concatenation, so the survivors keep their order. */
  lemma {:induction false} RemoveIdAppend<T(!new)>(a: seq<T>, b: seq<T>, id: string, idOf: T -> string)
    ensures RemoveId(a + b, id, idOf) == RemoveId(a, id, idOf) + RemoveId(b, id, idOf)
    decreases |b|
  {
    if b == [] {
      assert a + b == a;
    } else {
      var b' := b[..|b| - 1];
      assert (a + b)[..|a + b| - 1] == a + b';
      assert (a + b)[|a + b| - 1] == b[|b| - 1];
      RemoveIdAppend(a, b', id, idOf);
    }
  }

  /** A new item appended to a collection that lacks its id is removed again, and nothing else is. */
  lemma RemoveAppended<T(!new)>(s: seq<T>, item: T, idOf: T -> string)
    requires forall x :: x in s ==> idOf(x) != idOf(item)
    ensures RemoveId(s + [item], idOf(item), idOf) == s
  {
    assert (s + [item])[..|s + [item]| - 1] == s;
  }
}
