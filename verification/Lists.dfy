/** Lists without repetition, as the source's linked lists are, and taking an element out of one. */
module Lists {

  predicate NoRepeat<T(==)>(list: seq<T>) {
    forall i, j :: 0 <= i < j < |list| ==> list[i] != list[j]
  }

  lemma {:induction false} OnceInList<T>(list: seq<T>, x: T)
    requires NoRepeat(list)
    ensures multiset(list)[x] == if x in list then 1 else 0
  {
    if list != [] {
      assert list == [list[0]] + list[1..];
      OnceInList(list[1..], x);
    }
  }

  /** The list without this element. */
  function Without<T(==)>(list: seq<T>, x: T): seq<T> {
    if list == [] then [] else if list[0] == x then list[1..] else [list[0]] + Without(list[1..], x)
  }

  lemma {:induction false} WithoutIsShorter<T>(list: seq<T>, x: T)
    requires x in list && NoRepeat(list)
    ensures var r := Without(list, x);
            && |r| == |list| - 1
            && (forall y :: y in r <==> y in list && y != x)
            && NoRepeat(r)
  {
    if list[0] != x {
      var rest := Without(list[1..], x);
      WithoutIsShorter(list[1..], x);
      forall j | 0 <= j < |rest| ensures rest[j] != list[0] {
        assert rest[j] in rest;
      }
    }
  }

  lemma InWithout<T>(list: seq<T>, x: T, y: T)
    requires x in list && NoRepeat(list)
    ensures y in Without(list, x) <==> y in list && y != x
  {
    WithoutIsShorter(list, x);
  }
}
