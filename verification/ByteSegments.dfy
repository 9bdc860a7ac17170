/** The value of a chained buffer: one byte string per chain, and the bytes they hold in order. */
module ByteSegments {
  import opened Words

  type Segments = seq<seq<byte>>

  function Flat(segs: Segments): seq<byte> {
    if segs == [] then [] else segs[0] + Flat(segs[1..])
  }

  predicate HasData(segs: Segments) {
    exists i :: 0 <= i < |segs| && segs[i] != []
  }

  predicate AllEmpty(segs: Segments) {
    forall i :: 0 <= i < |segs| ==> segs[i] == []
  }

  // The index of the last chain that holds data, or 0 if none does.
  function LastData(segs: Segments): (k: nat)
    ensures segs != [] ==> k < |segs|
  {
    if segs == [] then 0
    else if segs[|segs| - 1] != [] then |segs| - 1
    else LastData(segs[..|segs| - 1])
  }

  // No chain is empty, except a lone one.
  predicate Tight(segs: Segments) {
    |segs| <= 1 || forall i :: 0 <= i < |segs| ==> segs[i] != []
  }

  lemma {:induction false} FlatConcat(a: Segments, b: Segments)
    ensures Flat(a + b) == Flat(a) + Flat(b)
    decreases |a|
  {
    if a == [] {
      assert a + b == b;
    } else {
      FlatConcat(a[1..], b);
      assert (a + b)[1..] == a[1..] + b;
    }
  }

  lemma {:induction false} FlatEmpty(segs: Segments)
    ensures AllEmpty(segs) <==> Flat(segs) == []
    ensures HasData(segs) <==> !AllEmpty(segs)
    decreases |segs|
  {
    if segs != [] {
      FlatEmpty(segs[1..]);
      assert forall i :: 1 <= i < |segs| ==> segs[i] == segs[1..][i - 1];
      assert forall i :: 0 <= i < |segs[1..]| ==> segs[1..][i] == segs[i + 1];
    }
  }

  lemma {:induction false} LastDataIs(segs: Segments, k: nat)
    requires k < |segs| && AllEmpty(segs[k + 1..]) && (segs[k] != [] || k == 0)
    ensures LastData(segs) == k
    decreases |segs|
  {
    if k < |segs| - 1 {
      assert segs[|segs| - 1] == segs[k + 1..][|segs| - k - 2];
      var shorter := segs[..|segs| - 1];
      assert shorter[k + 1..] == segs[k + 1..][..|segs| - k - 2];
      LastDataIs(shorter, k);
    }
  }

  lemma {:induction false} AfterLastData(segs: Segments)
    ensures var k := LastData(segs);
            && (HasData(segs) ==> segs[k] != [])
            && (!HasData(segs) ==> k == 0)
            && forall i :: k < i < |segs| ==> segs[i] == []
    decreases |segs|
  {
    if segs != [] && segs[|segs| - 1] == [] {
      var shorter := segs[..|segs| - 1];
      AfterLastData(shorter);
      assert HasData(segs) ==> HasData(shorter) by {
        if HasData(segs) {
          var i :| 0 <= i < |segs| && segs[i] != [];
          assert shorter[i] != [];
        }
      }
      if HasData(shorter) {
        var i :| 0 <= i < |shorter| && shorter[i] != [];
        assert segs[i] != [];
      }
    }
  }

  // The number of chains up to and including the last one that holds data.
  function EndOfData(segs: Segments): (k: nat)
    ensures k <= |segs|
  {
    if segs == [] then 0
    else if segs[|segs| - 1] != [] then |segs|
    else EndOfData(segs[..|segs| - 1])
  }

  lemma {:induction false} EndOfDataIs(segs: Segments)
    ensures var k := EndOfData(segs);
            && AllEmpty(segs[k..])
            && (k > 0 ==> segs[k - 1] != [])
            && LastData(segs) == (if k > 0 then k - 1 else 0)
    decreases |segs|
  {
    var k := EndOfData(segs);
    if segs != [] && segs[|segs| - 1] == [] {
      var shorter := segs[..|segs| - 1];
      EndOfDataIs(shorter);
      assert segs[k..] == shorter[k..] + [[]];
    }
  }

  lemma CutAfterData(segs: Segments)
    ensures var k := EndOfData(segs);
            && AllEmpty(segs[k..]) && Flat(segs[..k]) == Flat(segs)
            && (k > 0 ==> segs[k - 1] != [])
            && LastData(segs) == (if k > 0 then k - 1 else 0)
            && (k == 0 <==> Flat(segs) == [])
  {
    hide Flat, EndOfData, LastData;
    var k := EndOfData(segs);
    EndOfDataIs(segs);
    FlatConcat(segs[..k], segs[k..]);
    FlatEmpty(segs[k..]);
    FlatEmpty(segs[..k]);
    assert segs == segs[..k] + segs[k..];
    assert k > 0 ==> segs[..k][k - 1] != [];
  }

  lemma FlatSplit(segs: Segments, k: nat)
    requires k < |segs|
    ensures Flat(segs) == Flat(segs[..k]) + segs[k] + Flat(segs[k + 1..])
  {
    assert segs == segs[..k] + segs[k..];
    FlatConcat(segs[..k], segs[k..]);
    assert segs[k..][1..] == segs[k + 1..];
  }

  // Growing the last chain with data appends to the contents.
  lemma GrowLast(segs: Segments, d: seq<byte>)
    requires segs != []
    ensures var k := LastData(segs); var segs' := segs[k := segs[k] + d];
            && Flat(segs') == Flat(segs) + d
            && LastData(segs') == k
            && (Tight(segs) ==> Tight(segs'))
  {
    hide LastData, Flat;
    var k := LastData(segs);
    var segs' := segs[k := segs[k] + d];
    AfterLastData(segs);
    FlatSplit(segs, k);
    FlatSplit(segs', k);
    assert segs'[..k] == segs[..k] && segs'[k + 1..] == segs[k + 1..];
    FlatEmpty(segs[k + 1..]);
    LastDataIs(segs', k);
  }

  lemma FlatOfOne(d: seq<byte>)
    ensures Flat([d]) == d
  {
    assert [d][1..] == [];
  }

  // Replacing everything behind the last data by one more chain.
  lemma InsertLast(segs: Segments, d: seq<byte>)
    ensures var k := EndOfData(segs); var segs' := segs[..k] + [d];
            && Flat(segs') == Flat(segs) + d
            && LastData(segs') == (if d != [] || k == 0 then k else k - 1)
            && (Tight(segs) && (d != [] || segs == []) ==> Tight(segs'))
  {
    hide LastData, EndOfData, Flat;
    var k := EndOfData(segs);
    var segs' := segs[..k] + [d];
    CutAfterData(segs);
    FlatConcat(segs[..k], [d]);
    FlatOfOne(d);
    if d != [] || k == 0 {
      LastDataIs(segs', k);
    } else {
      assert segs'[k - 1] == segs[k - 1];
      LastDataIs(segs', k - 1);
    }
  }

  // Growing the first chain at its front prepends to the contents.
  lemma GrowFirst(segs: Segments, d: seq<byte>)
    requires segs != []
    ensures var segs' := segs[0 := d + segs[0]];
            && Flat(segs') == d + Flat(segs)
            && LastData(segs') == LastData(segs)
            && (Tight(segs) ==> Tight(segs'))
  {
    hide LastData;
    var segs' := segs[0 := d + segs[0]];
    assert segs'[1..] == segs[1..];
    assert Flat(segs') == d + segs[0] + Flat(segs[1..]);
    AfterLastData(segs);
    var k := LastData(segs);
    assert AllEmpty(segs'[k + 1..]);
    LastDataIs(segs', k);
  }

  // A new chain in front.
  lemma InsertFirst(segs: Segments, d: seq<byte>)
    requires segs != [] && segs[LastData(segs)] != []
    ensures Flat([d] + segs) == d + Flat(segs)
    ensures LastData([d] + segs) == LastData(segs) + 1
    ensures Tight(segs) && d != [] ==> Tight([d] + segs)
  {
    hide LastData;
    assert ([d] + segs)[1..] == segs;
    AfterLastData(segs);
    LastDataIs([d] + segs, LastData(segs) + 1);
  }

  lemma NonEmptyHasLast(segs: Segments, k: nat)
    requires k < |segs| && segs[k] != []
    ensures segs[LastData(segs)] != []
  {
    AfterLastData(segs);
  }

  // Cutting off chains that lie in front of the last data.
  lemma DropChains(segs: Segments, i: nat)
    requires i <= LastData(segs) < |segs| && segs[LastData(segs)] != []
    ensures LastData(segs[i..]) == LastData(segs) - i
    ensures Tight(segs) ==> Tight(segs[i..])
  {
    hide LastData;
    AfterLastData(segs);
    var k := LastData(segs);
    LastDataIs(segs[i..], k - i);
  }

  // Skipping bytes of the first chain, but not all of them.
  lemma DropBytes(segs: Segments, n: nat)
    requires segs != [] && n < |segs[0]|
    ensures var segs' := segs[0 := segs[0][n..]];
            && Flat(segs') == Flat(segs)[n..]
            && LastData(segs') == LastData(segs)
            && (Tight(segs) ==> Tight(segs'))
  {
    hide LastData;
    var segs' := segs[0 := segs[0][n..]];
    assert segs'[1..] == segs[1..];
    assert Flat(segs') == segs[0][n..] + Flat(segs[1..]);
    AfterLastData(segs);
    var k := LastData(segs);
    LastDataIs(segs', k);
  }

  // Bytes left to skip while walking past chain i.
  lemma WalkPast(segs: Segments, i: nat, n: nat)
    requires i < |segs| && |segs[i]| <= n <= |Flat(segs[i..])|
    ensures Flat(segs[i..])[n..] == Flat(segs[i + 1..])[n - |segs[i]|..]
    ensures |Flat(segs[i..])| == |segs[i]| + |Flat(segs[i + 1..])|
  {
    assert segs[i..][1..] == segs[i + 1..];
  }

  // Data left behind chain i puts the last data there.
  lemma DataLeft(segs: Segments, i: nat)
    requires i <= |segs| && Flat(segs[i..]) != []
    ensures i <= LastData(segs) < |segs| && segs[LastData(segs)] != []
  {
    hide LastData;
    FlatEmpty(segs[i..]);
    var j :| 0 <= j < |segs[i..]| && segs[i..][j] != [];
    assert segs[i + j] != [];
    AfterLastData(segs);
  }

  // Chains with data behind others: the last data is theirs.
  lemma LastDataBehind(front: Segments, segs: Segments)
    requires Flat(segs) != []
    ensures LastData(front + segs) == |front| + LastData(segs)
    ensures Flat(front + segs) == Flat(front) + Flat(segs)
  {
    hide LastData;
    DataLeft(segs, 0) by {
      assert segs[0..] == segs;
    }
    AfterLastData(segs);
    var k := LastData(segs);
    LastDataIs(front + segs, |front| + k);
    FlatConcat(front, segs);
  }

  lemma TightConcat(front: Segments, segs: Segments)
    requires Tight(segs) && Flat(segs) != []
    requires front == [] || (Tight(front) && Flat(front) != [])
    ensures Tight(front + segs)
  {
    TightMeans(segs);
    if front != [] {
      TightMeans(front);
    }
  }

  lemma TightMeans(segs: Segments)
    requires Tight(segs) && Flat(segs) != []
    ensures forall i :: 0 <= i < |segs| ==> segs[i] != []
  {
    FlatEmpty(segs);
  }

  lemma TightCut(segs: Segments)
    requires Tight(segs)
    ensures Tight(segs[..EndOfData(segs)])
    ensures segs[..EndOfData(segs)] == [] || Flat(segs[..EndOfData(segs)]) != []
  {
    hide Flat, EndOfData, LastData;
    CutAfterData(segs);
  }

  // ----- The chunks that n bytes from the front fill completely -----

  function WholeChunks(segs: Segments, n: nat): (k: nat)
    ensures k <= |segs|
  {
    if segs == [] || |segs[0]| > n then 0 else 1 + WholeChunks(segs[1..], n - |segs[0]|)
  }

  // What is left of the n bytes for the chunk behind them.
  function LeftOver(segs: Segments, n: nat): nat {
    if segs == [] || |segs[0]| > n then n else LeftOver(segs[1..], n - |segs[0]|)
  }

  lemma {:induction false} WalkIsWhole(segs: Segments, i: nat, n: nat, remaining: nat)
    requires i < |segs| && |Flat(segs[..i])| + remaining == n && remaining < |segs[i]|
    ensures WholeChunks(segs, n) == i && LeftOver(segs, n) == remaining
    decreases i
  {
    if i > 0 {
      assert segs[..i][1..] == segs[1..][..i - 1] && segs[..i][0] == segs[0];
      WalkIsWhole(segs[1..], i - 1, n - |segs[0]|, remaining);
    }
  }

  // From chunk k on, the last one of those that follow without an empty one.
  function WithDataFrom(segs: Segments, k: nat): (n: nat)
    requires k <= |segs|
    ensures k <= n <= |segs| && (k < |segs| ==> n < |segs|)
    decreases |segs| - k
  {
    if k + 1 < |segs| && segs[k + 1] != [] then WithDataFrom(segs, k + 1) else k
  }

  lemma {:induction false} EmptyBehind(segs: Segments, j: nat)
    requires LastData(segs) < j < |segs|
    ensures segs[j] == []
    decreases |segs|
  {
    if segs[|segs| - 1] == [] && j < |segs| - 1 {
      EmptyBehind(segs[..|segs| - 1], j);
    }
  }

  // Moving on like that from a chunk before the last data ends there exactly if no empty chunk is in between.
  lemma {:induction false} AdvanceSufficesIff(segs: Segments, k: nat)
    requires k <= LastData(segs) < |segs|
    ensures WithDataFrom(segs, k) == LastData(segs) <==> forall j :: k < j <= LastData(segs) ==> segs[j] != []
    decreases |segs| - k
  {
    if k < LastData(segs) {
      if segs[k + 1] != [] {
        AdvanceSufficesIff(segs, k + 1);
      }
    } else if k + 1 < |segs| {
      EmptyBehind(segs, k + 1);
    }
  }

  // Chunks put behind the data of others, none of them empty in front of their last data. The
  // first may be if there is no data in front: the list then starts with it.
  predicate JoinsCleanly(front: Segments, moved: Segments) {
    forall j :: (if EndOfData(front) == 0 then 1 else 0) <= j < EndOfData(moved) ==> moved[j] != []
  }

  // The link to the last data of `front`, moved on, reaches the last data of both exactly then.
  lemma JoinsIff(front: Segments, moved: Segments)
    requires Flat(moved) != []
    ensures var k := EndOfData(front); var joined := front[..k] + moved; var at: nat := if k == 0 then 0 else k - 1;
            && Flat(joined) == Flat(front) + Flat(moved)
            && LastData(joined) == k + LastData(moved) < |joined|
            && (WithDataFrom(joined, at) == LastData(joined) <==> JoinsCleanly(front, moved))
  {
    hide Flat, LastData, EndOfData, WithDataFrom;
    var k := EndOfData(front);
    var joined := front[..k] + moved;
    CutAfterData(front);
    CutAfterData(moved);
    LastDataBehind(front[..k], moved);
    var at: nat := if k == 0 then 0 else k - 1;
    AdvanceSufficesIff(joined, at);
    assert forall j :: 0 <= j < |moved| ==> joined[k + j] == moved[j];
    assert forall j :: k <= j < |joined| ==> joined[j] == moved[j - k];
  }

  // The walk of n bytes passes only empty chunks and stops at the last data.
  predicate LosesLink(segs: Segments, n: nat) {
    var i := WholeChunks(segs, n);
    0 < i == LastData(segs) && Flat(segs[..i]) == []
  }

  lemma {:induction false} WholeIsPart(segs: Segments, n: nat)
    requires n < |Flat(segs)|
    ensures WholeChunks(segs, n) < |segs|
    decreases |segs|
  {
    if |segs[0]| <= n {
      WholeIsPart(segs[1..], n - |segs[0]|);
    }
  }

  // Neither happens to lists without needless empty chunks.
  lemma TightJoins(front: Segments, segs: Segments, n: nat)
    requires Tight(segs) && n < |Flat(segs)|
    ensures JoinsCleanly(front, segs[..WholeChunks(segs, n)]) && !LosesLink(segs, n)
  {
    hide Flat, LastData, EndOfData, WholeChunks;
    WholeIsPart(segs, n);
    var moved := segs[..WholeChunks(segs, n)];
    FlatEmpty(moved);
    assert moved != [] ==> moved[0] != [];
  }

  lemma GapLosesLink()
    ensures LosesLink([[], [1, 2]], 1)
  {
    assert [[], [1, 2]][..1] == [[]];
    assert [[], [1, 2]][1..] == [[1, 2]];
  }

  // Three bytes of this list: three chunks are moved, and the third byte, put behind the chunk
  // that the link then points to, comes before the second.
  lemma GapMisplaces()
    ensures var segs := [[1], [], [2], [3, 4]]; var moved := [[1], [], [2]];
            && WholeChunks(segs, 3) == 3 && LeftOver(segs, 3) == 1 && segs[..3] == moved
            && !JoinsCleanly([], moved) && WithDataFrom(moved, 0) == 0 && Flat(segs)[..3] == [1, 2, 3]
            && Flat(moved[0 := moved[0] + [3]]) == [1, 3, 2]
  {
    var segs: Segments := [[1], [], [2], [3, 4]];
    WalkIsWhole(segs, 3, 3, 1) by {
      assert segs[..3] == [[1]] + ([[]] + [[2]]);
      FlatConcat([[1]], [[]] + [[2]]);
      FlatConcat([[]], [[2]]);
    }
    FlatSplit(segs, 2);
    assert segs[..2] == [[1], []] && segs[3..] == [[3, 4]];
    assert [[1], []][1..] == [[]];
    assert [[1, 3], [], [2]][1..] == [[], [2]];
  }
}
