/** Round robin over a circular list: what the choices of the nameserver picker come to over time. */
module DnsPick {
  import opened Lists

  /** The list as seen from the next element on. */
  function Rotate<T>(list: seq<T>): (r: seq<T>)
    ensures |r| == |list|
  {
    if list == [] then [] else list[1..] + [list[0]]
  }

  lemma RotateKeepsMembers<T>(list: seq<T>)
    ensures forall x :: x in Rotate(list) <==> x in list
  {
    if list != [] {
      assert list == [list[0]] + list[1..];
    }
  }

  lemma RotateAgain<T>(list: seq<T>, i: nat)
    requires i < |list|
    ensures Rotate(list[i..] + list[..i]) == if i + 1 < |list| then list[i + 1..] + list[..i + 1] else list
  {
    assert list[..i] + [list[i]] == list[..i + 1];
    assert (list[i..] + list[..i])[1..] == list[i + 1..] + list[..i];
    if i + 1 == |list| {
      assert list[..i + 1] == list;
    }
  }

  lemma RotateKeepsDistinct<T>(list: seq<T>)
    requires NoRepeat(list)
    ensures NoRepeat(Rotate(list))
  {
  }

  /** The first of the list, then the first of what is left after rotating, and so on, n times. */
  function Picks<T>(list: seq<T>, n: nat): (picks: seq<T>)
    requires list != []
    ensures |picks| == n
    decreases n
  {
    if n == 0 then [] else [list[0]] + Picks(Rotate(list), n - 1)
  }

  lemma FirstPick<T>(x: T, rest: seq<T>, n: nat)
    ensures Picks([x] + rest, n + 1) == [x] + Picks(rest + [x], n)
  {
    assert ([x] + rest)[1..] == rest;
  }

  /** Choosing once from each element of `front` brings that part to the back of the list. */
  lemma {:induction false} PassFront<T>(front: seq<T>, back: seq<T>, more: nat)
    requires front + back != []
    ensures Picks(front + back, |front| + more) == front + Picks(back + front, more)
    decreases |front|
  {
    hide Picks;
    if front == [] {
      assert front + back == back == back + front;
      assert front + Picks(back + front, more) == Picks(back + front, more);
    } else {
      var x, rest := front[0], front[1..];
      assert front + back == [x] + (rest + back);
      FirstPick(x, rest + back, |rest| + more);
      assert rest + back + [x] == rest + (back + [x]);
      PassFront(rest, back + [x], more);
      assert back + [x] + rest == back + front;
      assert [x] + (rest + Picks(back + front, more)) == front + Picks(back + front, more);
    }
  }

  lemma OneRound<T>(list: seq<T>, more: nat)
    requires list != []
    ensures Picks(list, |list| + more) == list + Picks(list, more)
  {
    assert list + [] == list == [] + list;
    PassFront(list, [], more);
  }

  lemma MultisetOfTwo<T>(a: seq<T>, b: seq<T>, x: T)
    ensures multiset(a + b)[x] == multiset(a)[x] + multiset(b)[x]
  {
  }

  /** As many rounds as you like choose each element just as often. */
  lemma {:induction false} RoundsAreFair<T>(list: seq<T>, rounds: nat, x: T)
    requires list != [] && NoRepeat(list)
    ensures multiset(Picks(list, rounds * |list|))[x] == if x in list then rounds else 0
    decreases rounds
  {
    hide Picks, NoRepeat;
    if rounds == 0 {
      assert rounds * |list| == 0;
      assert Picks(list, 0) == [];
    } else {
      var n := (rounds - 1) * |list|;
      assert rounds * |list| == |list| + n;
      OneRound(list, n);
      MultisetOfTwo(list, Picks(list, n), x);
      RoundsAreFair(list, rounds - 1, x);
      OnceInList(list, x);
    }
  }

  /** The list after so many turns have passed. */
  function Turned<T>(list: seq<T>, n: nat): (r: seq<T>)
    ensures |r| == |list|
    decreases n
  {
    if n == 0 then list else Rotate(Turned(list, n - 1))
  }

  lemma {:induction false} TurnedTwice<T>(list: seq<T>, m: nat, n: nat)
    ensures Turned(Turned(list, m), n) == Turned(list, m + n)
    decreases n
  {
    if n > 0 {
      TurnedTwice(list, m, n - 1);
    }
  }

  /** Whose turn it is after n turns, and which ones follow. */
  lemma {:induction false} TurnedAt<T>(list: seq<T>, n: nat, k: nat)
    requires k < |list|
    ensures Turned(list, n)[k] == list[(n + k) % |list|]
    decreases n
  {
    if n == 0 {
      SmallRemainder(k, |list|);
    } else {
      var before, next := Turned(list, n - 1), if k + 1 < |list| then k + 1 else 0;
      assert Rotate(before)[k] == before[next];
      TurnedAt(list, n - 1, next);
      if next == 0 {
        WholeRound(n - 1, |list|);
      }
    }
  }

  lemma TurnedAround<T>(list: seq<T>, n: nat, k: nat)
    requires list != []
    ensures Turned(list, n)[k % |list|] == list[(n + k) % |list|]
  {
    hide Turned;
    TurnedAt(list, n, k % |list|);
    SumRemainder(n, k, |list|);
  }

  lemma SmallRemainder(k: nat, g: nat)
    requires k < g
    ensures k % g == k
  {
  }

  lemma WholeRound(n: nat, g: nat)
    requires g > 0
    ensures (n + g) % g == n % g
  {
    SameRemainder(n, n + g, g);
  }

  lemma {:induction false} Grows(g: nat, x: nat, y: nat)
    requires x < y
    ensures g * x + g <= g * y
    decreases y
  {
    assert g * y == g * (y - 1) + g;
    if x < y - 1 {
      Grows(g, x, y - 1);
    }
  }

  lemma QuotientIs(a: nat, g: nat, q: nat, r: nat)
    requires g > 0 && r < g && a == g * q + r
    ensures a % g == r
  {
    var d := a / g;
    assert a == g * d + a % g;
    if d < q {
      Grows(g, d, q);
    } else if d > q {
      Grows(g, q, d);
    }
  }

  /** Two numbers leave the same remainder exactly if their difference leaves none. */
  lemma SameRemainder(p: nat, m: nat, g: nat)
    requires g > 0 && p <= m
    ensures p % g == m % g <==> (m - p) % g == 0
  {
    var d := m - p;
    var q, r, e, t := p / g, p % g, d / g, d % g;
    assert p == g * q + r && d == g * e + t;
    assert m == g * (q + e) + (r + t);
    if r + t < g {
      QuotientIs(m, g, q + e, r + t);
    } else {
      assert m == g * (q + e + 1) + (r + t - g);
      QuotientIs(m, g, q + e + 1, r + t - g);
    }
  }

  lemma SumRemainder(n: nat, k: nat, g: nat)
    requires g > 0
    ensures (n + k % g) % g == (n + k) % g
  {
    var q, r := k / g, k % g;
    assert k == g * q + r;
    QuotientIs(g * q, g, q, 0);
    SameRemainder(n + r, n + k, g);
  }
}
