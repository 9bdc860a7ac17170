/** Moving the contents of one buffer into another by relinking chains. */
module EvbufferMoves {
  import opened ByteSegments
  import opened Evbuffers
  import opened Words

  // The buffers share no chains or chain memory.
  ghost predicate Disjoint(a: Evbuffer, b: Evbuffer)
    reads a, b
  {
    a != b && Objects(a.chains) !! Objects(b.chains)
  }

  lemma ListAppend(c1: seq<Chain>, s1: Segments, c2: seq<Chain>, s2: Segments)
    requires Apart(c1) && Apart(c2) && Objects(c1) !! Objects(c2)
    requires c2 != [] && Linked(c1, c2[0]) && Linked(c2, null)
    requires Holds(c1, s1) && Holds(c2, s2)
    ensures Apart(c1 + c2) && Linked(c1 + c2, null) && Holds(c1 + c2, s1 + s2)
  {
    hide Linked, Holds;
    LinkedConcat(c1, c2, null);
    HoldsConcat(c1, s1, c2, s2);
    ApartConcat(c1, c2);
  }

  lemma ApartConcat(c1: seq<Chain>, c2: seq<Chain>)
    requires Apart(c1) && Apart(c2) && Objects(c1) !! Objects(c2)
    ensures Apart(c1 + c2)
  {
    var c := c1 + c2;
    forall i, j | 0 <= i < j < |c| ensures c[i] != c[j] && c[i].buffer != c[j].buffer {
      if i < |c1| <= j {
        assert c[i] in c1 && c[j] in c2;
        assert c[i] in Objects(c1) && c[i].buffer in Objects(c1);
        assert c[j] in Objects(c2) && c[j].buffer in Objects(c2);
      }
    }
  }

  // COPY_CHAIN, into a buffer whose own chains are freed
  method CopyChain(dst: Evbuffer, src: Evbuffer)
    requires dst.Valid() && src.Valid() && Disjoint(dst, src)
    modifies dst`first, dst`last, dst`lastWithDatap, dst`totalLen, dst`chains, dst`segs
    ensures dst.Valid() && dst.chains == src.chains && dst.segs == src.segs
  {
    hide Flat, LastData, Apart, Linked, Holds, Buffers;
    BuffersAreArrays(src.chains);
    dst.first := src.first;
    dst.lastWithDatap := src.lastWithDatap;
    dst.last := src.last;
    dst.totalLen := src.totalLen;
    dst.chains, dst.segs := src.chains, src.segs;
  }

  lemma ObjectsPart(chains: seq<Chain>, a: nat, b: nat)
    requires a <= b <= |chains|
    ensures Objects(chains[a..b]) <= Objects(chains)
  {
    assert forall c :: c in chains[a..b] ==> c in chains;
  }

  lemma NoSharedChains(c1: seq<Chain>, c2: seq<Chain>)
    requires Objects(c1) !! Objects(c2)
    ensures forall c :: c in c1 ==> c !in c2
    ensures forall i :: 0 <= i < |c2| ==> c2[i] !in c1
  {
    forall c | c in c1 ensures c !in c2 {
      assert c in Objects(c1);
      assert c in c2 ==> c in Objects(c2);
    }
  }

  // The list of dst, cut after its last data, is linked to the list of src.
  method LinkBehind(dst: Evbuffer, src: Evbuffer) returns (chp: Link)
    requires dst.Valid() && src.Valid() && Disjoint(dst, src)
    requires src.chains != [] && EndOfData(dst.segs) > 0
    modifies dst`first, dst`chains, dst`segs, dst.chains`next
    ensures var k := EndOfData(old(dst.segs));
            && dst.chains == old(dst.chains)[..k] && dst.segs == old(dst.segs)[..k]
            && chp == LinkTo(dst.chains, k)
    ensures dst.first == dst.chains[0] && src.Valid()
    ensures Apart(dst.chains) && Linked(dst.chains, src.chains[0]) && Holds(dst.chains, dst.segs)
    ensures Objects(dst.chains) !! Objects(src.chains)
  {
    hide Flat, LastData, EndOfData, Apart, Linked, Holds, Buffers, Objects;
    BuffersAreArrays(src.chains);
    BuffersAreArrays(dst.chains);
    NoSharedChains(dst.chains, src.chains);
    ghost var k := EndOfData(dst.segs);
    ObjectsPart(dst.chains, 0, k);
    assert dst.chains[..k] == dst.chains[0..k];
    chp := dst.FreeTrailingEmptyChains();
    BuffersAreArrays(dst.chains);
    dst.SetLink(chp, src.first, dst.chains, dst.segs);
  }

  // APPEND_CHAIN
  method AppendChain(dst: Evbuffer, src: Evbuffer)
    requires dst.Valid() && src.Valid() && Disjoint(dst, src)
    requires dst.totalLen > 0 && src.totalLen > 0
    modifies dst`first, dst`last, dst`lastWithDatap, dst`totalLen, dst`chains, dst`segs, dst.chains`next
    ensures dst.Valid()
    ensures var k := EndOfData(old(dst.segs));
            dst.chains == old(dst.chains)[..k] + src.chains && dst.segs == old(dst.segs)[..k] + src.segs
    ensures dst.Contents() == old(dst.Contents()) + src.Contents()
  {
    hide Flat, LastData, EndOfData, Apart, Linked, Holds, Buffers, Objects;
    CutAfterData(dst.segs);
    LastDataBehind(dst.segs[..EndOfData(dst.segs)], src.segs);
    DataLeft(src.segs, 0) by {
      assert src.segs[0..] == src.segs;
    }
    var chp := LinkBehind(dst, src);
    BuffersAreArrays(src.chains);
    BuffersAreArrays(dst.chains);
    if src.lastWithDatap == First {
      dst.lastWithDatap := chp;
    } else {
      dst.lastWithDatap := src.lastWithDatap;
    }
    dst.last := src.last;
    dst.totalLen := dst.totalLen + src.totalLen;
    Join(dst, src.chains, src.segs);
  }

  // The chains of dst followed by others that they are already linked to.
  ghost method Join(dst: Evbuffer, chains: seq<Chain>, segs: Segments)
    requires chains != [] && Apart(dst.chains) && Linked(dst.chains, chains[0]) && Holds(dst.chains, dst.segs)
    requires Apart(chains) && Linked(chains, null) && Holds(chains, segs)
    requires Objects(dst.chains) !! Objects(chains)
    modifies dst`chains, dst`segs
    ensures dst.chains == old(dst.chains) + chains && dst.segs == old(dst.segs) + segs
    ensures Apart(dst.chains) && Linked(dst.chains, null) && Holds(dst.chains, dst.segs)
  {
    hide Apart, Linked, Holds, Buffers, Objects;
    ListAppend(dst.chains, dst.segs, chains, segs);
    BuffersAreArrays(dst.chains + chains);
    dst.chains, dst.segs := dst.chains + chains, dst.segs + segs;
  }

  // evbuffer_add_buffer: dst gets its own bytes followed by all of src's, src is emptied.
  method AddBuffer(outbuf: Evbuffer, inbuf: Evbuffer) returns (result: int)
    requires outbuf.Valid() && inbuf.Valid()
    requires outbuf != inbuf ==> Disjoint(outbuf, inbuf)
    modifies outbuf, inbuf, outbuf.chains`next
    ensures outbuf.Valid() && inbuf.Valid()
    ensures outbuf.Repr() + inbuf.Repr() <= old(outbuf.Repr() + inbuf.Repr())
    ensures outbuf != inbuf ==> Disjoint(outbuf, inbuf)
    ensures SameFreeze(outbuf, old(outbuf.freezeStart), old(outbuf.freezeEnd)) && SameFreeze(inbuf, old(inbuf.freezeStart), old(inbuf.freezeEnd))
    ensures result == if old(inbuf.totalLen) > 0 && outbuf != inbuf && (old(outbuf.freezeEnd) || old(inbuf.freezeStart)) then -1 else 0
    ensures result == -1 || outbuf == inbuf ==>
              outbuf.Contents() == old(outbuf.Contents()) && inbuf.Contents() == old(inbuf.Contents())
    ensures result == 0 && outbuf != inbuf ==>
              outbuf.Contents() == old(outbuf.Contents()) + old(inbuf.Contents()) && inbuf.Contents() == []
    ensures old(Tight(outbuf.segs) && Tight(inbuf.segs)) ==> Tight(outbuf.segs) && Tight(inbuf.segs)
  {
    hide Flat, LastData, EndOfData, Apart, Linked, Holds, Buffers, Objects, Tight;
    if inbuf.totalLen == 0 || outbuf == inbuf {
      return 0;
    }
    if outbuf.freezeEnd || inbuf.freezeStart {
      return -1;
    }
    AppendTight(outbuf.segs, inbuf.segs);
    if outbuf.totalLen == 0 {
      CopyChain(outbuf, inbuf);
    } else {
      KeptObjects(outbuf, inbuf);
      AppendChain(outbuf, inbuf);
    }
    Emptied(outbuf, inbuf);
    return 0;
  }

  ghost predicate SameFreeze(buf: Evbuffer, start: bool, end: bool)
    reads buf
  {
    buf.freezeStart == start && buf.freezeEnd == end
  }

  lemma AppendTight(a: Segments, b: Segments)
    requires Flat(b) != []
    ensures Tight(a) && Tight(b) && Flat(a) != [] ==> Tight(a[..EndOfData(a)] + b)
  {
    hide Flat, EndOfData;
    if Tight(a) && Tight(b) && Flat(a) != [] {
      TightCut(a);
      TightConcat(a[..EndOfData(a)], b);
    }
  }

  lemma KeptObjects(dst: Evbuffer, src: Evbuffer)
    ensures var k := EndOfData(dst.segs);
            k <= |dst.chains| ==> Objects(dst.chains[..k] + src.chains) <= Objects(dst.chains) + Objects(src.chains)
  {
    var k := EndOfData(dst.segs);
    if k <= |dst.chains| {
      assert forall c :: c in dst.chains[..k] + src.chains ==> c in dst.chains || c in src.chains;
    }
  }

  // ZERO_CHAIN on a buffer whose chains another one has taken
  method Emptied(dst: Evbuffer, src: Evbuffer)
    requires dst.Valid() && dst != src
    modifies src`first, src`last, src`lastWithDatap, src`totalLen, src`chains, src`segs
    ensures dst.Valid() && src.Valid() && src.Contents() == [] && src.segs == [] && Tight(src.segs)
    ensures Disjoint(dst, src) && src.Repr() == {src}
  {
    hide Flat, LastData, Apart, Linked, Holds, Buffers;
    BuffersAreArrays(dst.chains);
    src.ZeroChain();
  }

  // PREPEND_CHAIN; dst holds data, so *dst->last_with_datap is never null here
  method PrependChain(dst: Evbuffer, src: Evbuffer)
    requires dst.Valid() && src.Valid() && Disjoint(dst, src)
    requires dst.totalLen > 0 && src.totalLen > 0
    modifies dst`first, dst`last, dst`lastWithDatap, dst`totalLen, dst`chains, dst`segs, src.chains`next
    ensures dst.Valid()
    ensures dst.chains == src.chains + old(dst.chains) && dst.segs == src.segs + old(dst.segs)
    ensures dst.Contents() == src.Contents() + old(dst.Contents())
  {
    hide Flat, LastData, EndOfData, Apart, Linked, Holds, Buffers, Objects;
    LastDataBehind(src.segs, dst.segs);
    DataLeft(src.segs, 0) by {
      assert src.segs[0..] == src.segs;
    }
    DataLeft(dst.segs, 0) by {
      assert dst.segs[0..] == dst.segs;
    }
    var oldFirst := dst.first;
    LinkLast(dst, src, oldFirst);
    BuffersAreArrays(src.chains);
    BuffersAreArrays(dst.chains);
    dst.first := src.first;
    dst.totalLen := dst.totalLen + src.totalLen;
    if dst.lastWithDatap == First {
      dst.lastWithDatap := NextOf(src.last);
    }
    JoinFront(dst, src.chains, src.segs);
  }

  // src->last->next = dst->first
  method LinkLast(dst: Evbuffer, src: Evbuffer, head: Chain?)
    requires dst.Valid() && src.Valid() && Disjoint(dst, src)
    requires src.chains != [] && dst.chains != [] && head == dst.chains[0]
    modifies src.chains`next
    ensures Linked(src.chains, head) && Linked(dst.chains, null)
    ensures Holds(src.chains, src.segs) && Holds(dst.chains, dst.segs)
  {
    hide Flat, LastData, Holds, Buffers, Objects;
    NoSharedChains(src.chains, dst.chains);
    BuffersAreArrays(src.chains);
    BuffersAreArrays(dst.chains);
    src.last.next := head;
  }

  // The chains of dst behind others that are already linked to them.
  ghost method JoinFront(dst: Evbuffer, chains: seq<Chain>, segs: Segments)
    requires dst.chains != [] && Apart(chains) && Linked(chains, dst.chains[0]) && Holds(chains, segs)
    requires Apart(dst.chains) && Linked(dst.chains, null) && Holds(dst.chains, dst.segs)
    requires Objects(chains) !! Objects(dst.chains)
    modifies dst`chains, dst`segs
    ensures dst.chains == chains + old(dst.chains) && dst.segs == segs + old(dst.segs)
    ensures Apart(dst.chains) && Linked(dst.chains, null) && Holds(dst.chains, dst.segs)
  {
    hide Apart, Linked, Holds, Buffers, Objects;
    ListAppend(chains, segs, dst.chains, dst.segs);
    BuffersAreArrays(chains + dst.chains);
    dst.chains, dst.segs := chains + dst.chains, segs + dst.segs;
  }

  // evbuffer_prepend_buffer: dst gets all of src's bytes in front of its own, src is emptied.
  method PrependBuffer(outbuf: Evbuffer, inbuf: Evbuffer) returns (result: int)
    requires outbuf.Valid() && inbuf.Valid()
    requires outbuf != inbuf ==> Disjoint(outbuf, inbuf)
    modifies outbuf, inbuf, inbuf.chains`next
    ensures outbuf.Valid() && inbuf.Valid()
    ensures outbuf.Repr() + inbuf.Repr() <= old(outbuf.Repr() + inbuf.Repr())
    ensures outbuf != inbuf ==> Disjoint(outbuf, inbuf)
    ensures SameFreeze(outbuf, old(outbuf.freezeStart), old(outbuf.freezeEnd)) && SameFreeze(inbuf, old(inbuf.freezeStart), old(inbuf.freezeEnd))
    ensures result == if old(inbuf.totalLen) > 0 && outbuf != inbuf && (old(outbuf.freezeStart) || old(inbuf.freezeStart)) then -1 else 0
    ensures result == -1 || outbuf == inbuf ==>
              outbuf.Contents() == old(outbuf.Contents()) && inbuf.Contents() == old(inbuf.Contents())
    ensures result == 0 && outbuf != inbuf ==>
              outbuf.Contents() == old(inbuf.Contents()) + old(outbuf.Contents()) && inbuf.Contents() == []
    ensures old(Tight(outbuf.segs) && Tight(inbuf.segs)) ==> Tight(outbuf.segs) && Tight(inbuf.segs)
  {
    hide Flat, LastData, EndOfData, Apart, Linked, Holds, Buffers, Objects, Tight;
    if inbuf.totalLen == 0 || outbuf == inbuf {
      return 0;
    }
    if outbuf.freezeStart || inbuf.freezeStart {
      return -1;
    }
    if outbuf.totalLen == 0 {
      CopyChain(outbuf, inbuf);
    } else {
      PrependTight(inbuf.segs, outbuf.segs);
      BothObjects(inbuf.chains, outbuf.chains);
      PrependChain(outbuf, inbuf);
    }
    Emptied(outbuf, inbuf);
    return 0;
  }

  lemma PrependTight(a: Segments, b: Segments)
    requires Flat(a) != [] && Flat(b) != []
    ensures Tight(a) && Tight(b) ==> Tight(a + b)
  {
    hide Flat;
    if Tight(a) && Tight(b) {
      TightConcat(a, b);
    }
  }

  lemma BothObjects(c1: seq<Chain>, c2: seq<Chain>)
    ensures Objects(c1 + c2) <= Objects(c1) + Objects(c2)
  {
    assert forall c :: c in c1 + c2 ==> c in c1 || c in c2;
  }

  // The chain list of buf: everything that Valid says but for its cached fields.
  ghost predicate Listed(buf: Evbuffer)
    reads buf, buf.chains, Buffers(buf.chains)
  {
    && Apart(buf.chains) && Linked(buf.chains, null)
    && |buf.chains| == |buf.segs| && Holds(buf.chains, buf.segs)
  }

  // Detaching the first i chains of src.
  method CutMoved(src: Evbuffer, previous: Chain, chain: Chain, ghost i: nat) returns (head: Chain)
    requires Listed(src) && 0 < i < |src.chains| && src.first == src.chains[0]
    requires previous == src.chains[i - 1] && chain == src.chains[i]
    modifies src`first, src`chains, src`segs, src.chains`next
    ensures Listed(src) && src.chains == old(src.chains)[i..] && src.segs == old(src.segs)[i..]
    ensures src.first == src.chains[0] && src.chains[|src.chains| - 1] == old(src.chains)[|old(src.chains)| - 1]
    ensures head == old(src.chains)[0]
    ensures var moved := old(src.chains)[..i];
            && Apart(moved) && Linked(moved, null) && Holds(moved, old(src.segs)[..i])
            && Objects(moved) !! Objects(src.chains)
            && Objects(moved) <= old(Objects(src.chains)) && Objects(src.chains) <= old(Objects(src.chains))
  {
    hide Linked, Holds, Buffers, Objects;
    ghost var chains, segs := src.chains, src.segs;
    BuffersAreArrays(chains);
    assert chains[..i] == chains[0..i] && segs[..i] == segs[0..i];
    ApartPart(chains, 0, i);
    LinkedPart(chains, null, 0, i);
    HoldsPart(chains, segs, 0, i);
    ListFrom(chains, segs, i);
    SplitObjects(chains, i);
    NoSharedChains(chains[..i], chains[i..]);
    head := src.first;
    EndLink(previous, chain, chains[..i], chains[i..], segs[..i], segs[i..]);
    BuffersAreArrays(chains[..i]);
    BuffersAreArrays(chains[i..]);
    src.first := chain;
    src.chains, src.segs := chains[i..], segs[i..];
  }

  lemma SplitObjects(chains: seq<Chain>, i: nat)
    requires i <= |chains| && Apart(chains)
    ensures Objects(chains[..i]) !! Objects(chains[i..])
    ensures Objects(chains[..i]) <= Objects(chains) && Objects(chains[i..]) <= Objects(chains)
  {
    assert forall c :: c in chains[..i] ==> c in chains;
    assert forall c :: c in chains[i..] ==> c in chains;
    forall o | o in Objects(chains[..i]) ensures o !in Objects(chains[i..]) {
      var c: Chain :| c in chains[..i] && (o == c || o == c.buffer);
      var j :| 0 <= j < i && chains[j] == c;
      forall d: Chain | d in chains[i..] ensures o != d && o != d.buffer {
        var k :| 0 <= k < |chains| - i && chains[i..][k] == d;
        assert chains[i + k] == d;
      }
    }
  }

  // previous->next = NULL, for the last of the chains `moved`
  method EndLink(previous: Chain, chain: Chain, ghost moved: seq<Chain>, ghost rest: seq<Chain>,
                 ghost s1: Segments, ghost s2: Segments)
    requires moved != [] && previous == moved[|moved| - 1]
    requires Apart(moved) && Linked(moved, chain) && Holds(moved, s1)
    requires Linked(rest, null) && Holds(rest, s2)
    requires forall i :: 0 <= i < |rest| ==> rest[i] !in moved
    modifies previous`next
    ensures Linked(moved, null) && Holds(moved, s1) && Linked(rest, null) && Holds(rest, s2)
  {
    hide Holds, Buffers;
    BuffersAreArrays(moved);
    BuffersAreArrays(rest);
    previous.next := null;
  }

  // Putting detached chains behind the data of dst: the link to its last data is right again
  // exactly if no empty chain comes in between.
  method TakeMoved(dst: Evbuffer, head: Chain, previous: Chain, nread: nat, ghost moved: seq<Chain>, ghost segs: Segments)
    requires dst.Valid() && Objects(dst.chains) !! Objects(moved)
    requires moved != [] && head == moved[0] && previous == moved[|moved| - 1]
    requires Apart(moved) && Linked(moved, null) && Holds(moved, segs) && |moved| == |segs|
    requires nread == |Flat(segs)| > 0
    modifies dst`first, dst`last, dst`lastWithDatap, dst`totalLen, dst`chains, dst`segs, dst.chains`next
    ensures Listed(dst) && (dst.Valid() <==> JoinsCleanly(old(dst.segs), segs))
    ensures var k := EndOfData(old(dst.segs));
            && dst.chains == old(dst.chains)[..k] + moved && dst.segs == old(dst.segs)[..k] + segs
            && LastData(dst.segs) == k + LastData(segs)
    ensures dst.Contents() == old(dst.Contents()) + Flat(segs)
  {
    hide Flat, LastData, EndOfData, Apart, Linked, Holds, Buffers, Objects, LinkTo, WithDataFrom, JoinsCleanly;
    CutAfterData(dst.segs);
    ghost var k := EndOfData(dst.segs);
    JoinsIff(dst.segs, segs);
    ghost var at: nat := if k == 0 then 0 else k - 1;
    SameLink(dst.chains, dst.chains[..k] + moved, at);
    JoinMoved(dst, head, moved, segs);
    BuffersAreArrays(dst.chains);
    dst.last := previous;
    SameLinkIff(dst.chains, WithDataFrom(dst.segs, at), LastData(dst.segs));
    dst.AdvanceLastWithData(at);
    dst.totalLen := dst.totalLen + nread;
  }

  // The detached chains become part of the list.
  method JoinMoved(dst: Evbuffer, head: Chain, ghost moved: seq<Chain>, ghost segs: Segments)
    requires dst.Valid() && Objects(dst.chains) !! Objects(moved)
    requires moved != [] && head == moved[0]
    requires Apart(moved) && Linked(moved, null) && Holds(moved, segs) && |moved| == |segs|
    modifies dst`first, dst`chains, dst`segs, dst.chains`next
    ensures var k := EndOfData(old(dst.segs));
            dst.chains == old(dst.chains)[..k] + moved && dst.segs == old(dst.segs)[..k] + segs
    ensures dst.first == dst.chains[0]
    ensures Apart(dst.chains) && Linked(dst.chains, null) && Holds(dst.chains, dst.segs)
  {
    hide Flat, LastData, EndOfData, Apart, Linked, Holds, Buffers, Objects, LinkTo;
    CutAfterData(dst.segs);
    LinkMoved(dst, head, moved, segs);
    BuffersAreArrays(moved);
    BuffersAreArrays(dst.chains);
    Join(dst, moved, segs);
    BuffersAreArrays(dst.chains);
  }

  method LinkMoved(dst: Evbuffer, head: Chain, ghost moved: seq<Chain>, ghost segs: Segments)
    requires dst.Valid() && Objects(dst.chains) !! Objects(moved)
    requires moved != [] && head == moved[0] && Linked(moved, null) && Holds(moved, segs)
    modifies dst`first, dst`chains, dst`segs, dst.chains`next
    ensures var k := EndOfData(old(dst.segs));
            dst.chains == old(dst.chains)[..k] && dst.segs == old(dst.segs)[..k]
    ensures dst.first == (if dst.chains == [] then head else dst.chains[0])
    ensures Apart(dst.chains) && Linked(dst.chains, head) && Holds(dst.chains, dst.segs)
    ensures Linked(moved, null) && Holds(moved, segs) && Objects(dst.chains) !! Objects(moved)
  {
    hide Flat, LastData, EndOfData, Apart, Linked, Holds, Buffers, Objects;
    BuffersAreArrays(moved);
    BuffersAreArrays(dst.chains);
    NoSharedChains(dst.chains, moved);
    ghost var k := EndOfData(dst.segs);
    ObjectsPart(dst.chains, 0, k);
    assert dst.chains[..k] == dst.chains[0..k];
    var chp := dst.FreeTrailingEmptyChains();
    BuffersAreArrays(dst.chains);
    dst.SetLink(chp, head, dst.chains, dst.segs);
  }

  // Moving whole chains: the part of evbuffer_remove_buffer that does not copy.
  method MoveChains(src: Evbuffer, dst: Evbuffer, previous: Chain, chain: Chain, nread: nat, ghost i: nat)
    requires Listed(src) && 0 < i < |src.chains| && src.first == src.chains[0] && dst.Valid() && Disjoint(dst, src)
    requires previous == src.chains[i - 1] && chain == src.chains[i] && nread == |Flat(src.segs[..i])| > 0
    modifies src`first, src`chains, src`segs, src.chains`next
    modifies dst`first, dst`last, dst`lastWithDatap, dst`totalLen, dst`chains, dst`segs, dst.chains`next
    ensures Listed(src) && src.chains != [] && src.first == src.chains[0] == chain && Disjoint(dst, src)
    ensures Listed(dst) && (dst.Valid() <==> JoinsCleanly(old(dst.segs), old(src.segs)[..i]))
    ensures src.chains == old(src.chains)[i..] && src.segs == old(src.segs)[i..]
    ensures dst.segs == old(dst.segs)[..EndOfData(old(dst.segs))] + old(src.segs)[..i]
    ensures dst.Contents() == old(dst.Contents()) + Flat(old(src.segs)[..i])
    ensures dst.chains != [] && dst.chains[LastData(dst.segs)] == old(src.chains)[LastData(old(src.segs)[..i])]
    ensures dst.Repr() + src.Repr() <= old(dst.Repr() + src.Repr())
  {
    hide Flat, LastData, EndOfData, Apart, Linked, Holds, Buffers, Objects, JoinsCleanly;
    ghost var moved, segs := src.chains[..i], src.segs[..i];
    BuffersAreArrays(dst.chains);
    NoSharedChains(src.chains, dst.chains);
    var head := CutMoved(src, previous, chain, i);
    assert dst.Valid();
    NoSharedChains(dst.chains, src.chains);
    BuffersAreArrays(src.chains);
    KeptAndMoved(dst.chains, EndOfData(dst.segs), moved);
    TakeMoved(dst, head, previous, nread, moved, segs);
  }

  lemma KeptAndMoved(chains: seq<Chain>, k: nat, moved: seq<Chain>)
    requires k <= |chains|
    ensures Objects(chains[..k] + moved) <= Objects(chains) + Objects(moved)
  {
    assert forall c :: c in chains[..k] + moved ==> c in chains || c in moved;
  }

  lemma ObjectsAllocated(chains: seq<Chain>)
    ensures forall o :: o in Objects(chains) ==> allocated(o)
  {
  }

  // The last step of evbuffer_remove_buffer: n bytes of src's chain k are copied to dst and
  // skipped in src, whether or not the copy succeeded.
  method CopyPart(src: Evbuffer, dst: Evbuffer, chain: Chain, n: nat, memory: bool, ghost k: nat) returns (ok: bool)
    requires Listed(src) && k < |src.chains| && chain == src.chains[k] && n < |src.segs[k]|
    requires dst.Valid() && Disjoint(dst, src) && !dst.freezeEnd
    modifies dst.Repr(), src`segs, chain`misalign, chain`off
    ensures Listed(src) && src.segs == old(src.segs)[k := old(src.segs)[k][n..]]
    ensures unchanged(src`totalLen, src`first, src`last, src`lastWithDatap, src`chains, src`freezeStart, src`freezeEnd)
    ensures dst.Valid() && Disjoint(dst, src)
    ensures dst.freezeStart == old(dst.freezeStart) && dst.freezeEnd == old(dst.freezeEnd)
    ensures dst.Contents() == old(dst.Contents()) + if ok then old(src.segs)[k][..n] else []
    ensures n <= EV_SIZE_MAX - old(dst.totalLen) && (memory || 0 < n <= old(dst.BackRoom())) ==> ok
    ensures forall o :: o in dst.Repr() - old(dst.Repr()) ==> fresh(o)
    ensures old(Tight(dst.segs)) ==> Tight(dst.segs)
  {
    hide Flat, LastData, EndOfData, Apart, Linked, Holds, Objects, Buffers, Tight;
    FirstBytes(src, k, n);
    ok := AddApart(src, dst, chain.buffer[chain.misalign..chain.misalign + n], memory);
    DropFirst(src, dst, chain, n, k);
  }

  method DropFirst(src: Evbuffer, dst: Evbuffer, chain: Chain, n: nat, ghost k: nat)
    requires Listed(src) && k < |src.chains| && chain == src.chains[k] && n < |src.segs[k]|
    requires dst.Valid() && Disjoint(dst, src)
    modifies src`segs, chain`misalign, chain`off
    ensures Listed(src) && src.segs == old(src.segs)[k := old(src.segs)[k][n..]]
    ensures dst.Valid() && Disjoint(dst, src)
  {
    hide Flat, LastData, EndOfData, Apart, Linked, Holds, Objects, Buffers;
    FirstBytes(src, k, n);
    BuffersAreArrays(src.chains);
    BuffersAreArrays(dst.chains);
    NoSharedChains(src.chains, dst.chains);
    DropAt(src.chains, src.segs, k, chain, n);
    src.segs := src.segs[k := src.segs[k][n..]];
  }

  lemma FirstBytes(src: Evbuffer, k: nat, n: nat)
    requires Listed(src) && k < |src.chains| && n <= |src.segs[k]|
    ensures var c := src.chains[k];
            c.Fits() && c.off == |src.segs[k]| && c.buffer[c.misalign..c.misalign + n] == src.segs[k][..n]
  {
  }

  // evbuffer_add on dst leaves the list of src alone.
  method AddApart(src: Evbuffer, dst: Evbuffer, data: seq<byte>, memory: bool) returns (ok: bool)
    requires Listed(src) && dst.Valid() && Disjoint(dst, src)
    modifies dst.Repr()
    ensures Listed(src) && dst.Valid() && Disjoint(dst, src)
    ensures dst.freezeStart == old(dst.freezeStart) && dst.freezeEnd == old(dst.freezeEnd)
    ensures unchanged(src)
    ensures dst.Contents() == old(dst.Contents()) + if ok then data else []
    ensures !old(dst.freezeEnd) && |data| <= EV_SIZE_MAX - old(dst.totalLen) ==>
              (memory && |data| <= CHAIN_ROOM_MAX) || 0 < |data| <= old(dst.BackRoom()) ==> ok
    ensures forall o :: o in dst.Repr() - old(dst.Repr()) ==> fresh(o)
    ensures old(Tight(dst.segs)) ==> Tight(dst.segs)
  {
    hide Flat, LastData, EndOfData, Apart, Linked, Holds, Objects, Buffers, Tight;
    BuffersAreArrays(src.chains);
    ObjectsAllocated(src.chains);
    ReprOf(dst, src.chains);
    ghost var theirs := Objects(src.chains);
    assert dst.Repr() !! theirs;
    var r := dst.Add(data, memory);
    ok := r == 0;
    assert forall o :: o in theirs ==> o !in dst.Repr() - old(dst.Repr());
  }

  // Nothing that dst may change belongs to the other list.
  lemma ReprOf(dst: Evbuffer, chains: seq<Chain>)
    requires Objects(dst.chains) !! Objects(chains)
    ensures forall i :: 0 <= i < |chains| ==> chains[i] !in dst.Repr()
    ensures forall o :: o in Buffers(chains) ==> o !in dst.Repr()
    ensures forall b: Evbuffer :: b != dst ==> b !in dst.Repr()
    ensures dst.Repr() !! Objects(chains)
  {
    BuffersAreArrays(chains);
    forall b: Evbuffer | b != dst ensures b !in dst.Repr() {
      assert b !in Objects(dst.chains);
    }
    forall i | 0 <= i < |chains| ensures chains[i] !in dst.Repr() {
      assert chains[i] in chains && chains[i] in Objects(chains);
    }
    forall o | o in Buffers(chains) ensures o !in dst.Repr() {
      assert o in Objects(chains);
    }
  }

  // Room behind the last data of dst once the first i chains of src are behind it.
  ghost function CopyRoom(src: Evbuffer, dst: Evbuffer, i: nat): int
    requires dst.Valid() && i <= |src.chains| == |src.segs|
    reads src`chains, src`segs, src.chains`misalign, src.chains`off, dst, dst.chains, Buffers(dst.chains)
  {
    if Flat(src.segs[..i]) == [] then dst.BackRoom() else src.chains[LastData(src.segs[..i])].RoomBehind()
  }

  // The call moves bytes, but not all of them.
  ghost predicate Parts(src: Evbuffer, dst: Evbuffer, datlen: nat)
    reads src, dst
  {
    src != dst && !dst.freezeEnd && !src.freezeStart && 0 < datlen < src.totalLen
  }

  // evbuffer_remove_buffer: moves the first datlen bytes of src behind the contents of dst,
  // whole chains by relinking and the rest by copying. The result of the copy is not looked
  // at: when it fails, exactly the bytes that were to be copied leave src without reaching dst.
  // The chains to be relinked have to join those of dst: where they do not, the copy would start
  // from a stale link (`TakeMoved` says when, `GapMisplaces` what then happens). src's own link
  // goes stale exactly for `LosesLink`.
  method RemoveBuffer(src: Evbuffer, dst: Evbuffer, datlen: nat, memory: bool)
    returns (result: int, ghost lost: nat)
    requires src.Valid() && dst.Valid()
    requires Parts(src, dst, datlen) ==> JoinsCleanly(dst.segs, src.segs[..WholeChunks(src.segs, datlen)])
    requires src != dst ==> Disjoint(dst, src)
    modifies src.Repr(), dst.Repr()
    ensures src.Valid() <==> !old(Parts(src, dst, datlen) && LosesLink(src.segs, datlen))
    ensures Listed(src) && dst.Valid() && (src != dst ==> Disjoint(dst, src))
    ensures forall o :: o in (dst.Repr() + src.Repr()) - old(dst.Repr() + src.Repr()) ==> fresh(o)
    ensures result == if datlen == 0 || src == dst then 0
                      else if old(dst.freezeEnd) || old(src.freezeStart) then -1
                      else Min(datlen, old(src.totalLen))
    ensures result <= 0 ==> src.Contents() == old(src.Contents()) && dst.Contents() == old(dst.Contents())
    ensures lost == 0 || lost == LeftOver(old(src.segs), datlen)
    ensures result > 0 ==>
              && lost <= result <= |old(src.Contents())|
              && src.Contents() == old(src.Contents())[result..] && src.totalLen == |src.Contents()|
              && dst.Contents() == old(dst.Contents()) + old(src.Contents())[..result - lost]
    ensures datlen >= old(src.totalLen) ==> lost == 0
    ensures old(src.totalLen) + old(dst.totalLen) <= EV_SIZE_MAX ==>
              memory || LeftOver(old(src.segs), datlen) <= old(CopyRoom(src, dst, WholeChunks(src.segs, datlen))) ==>
              lost == 0
    ensures old(Tight(src.segs) && Tight(dst.segs)) ==> Tight(src.segs) && Tight(dst.segs)
  {
    hide Flat, LastData, EndOfData, Apart, Linked, Holds, Objects, Buffers, JoinsCleanly, Tight, WholeChunks, LeftOver;
    hide LosesLink;
    lost := 0;
    if datlen == 0 || src == dst {
      return 0, 0;
    }
    if dst.freezeEnd || src.freezeStart {
      return -1, 0;
    }
    if datlen >= src.totalLen {
      result := src.totalLen;
      dst.ReprHas();
      var r := AddBuffer(dst, src);
      return;
    }
    result, lost := RemoveSome(src, dst, datlen, memory);
  }

  method RemoveSome(src: Evbuffer, dst: Evbuffer, datlen: nat, memory: bool) returns (result: int, ghost lost: nat)
    requires src.Valid() && dst.Valid() && Disjoint(dst, src)
    requires 0 < datlen < src.totalLen && !dst.freezeEnd
    requires JoinsCleanly(dst.segs, src.segs[..WholeChunks(src.segs, datlen)])
    modifies src.Repr(), dst.Repr()
    ensures src.Valid() <==> !LosesLink(old(src.segs), datlen)
    ensures Listed(src) && src.totalLen == |src.Contents()| && dst.Valid() && Disjoint(dst, src)
    ensures forall o :: o in (dst.Repr() + src.Repr()) - old(dst.Repr() + src.Repr()) ==> fresh(o)
    ensures result == datlen && lost <= datlen < |old(src.Contents())|
    ensures src.Contents() == old(src.Contents())[datlen..]
    ensures dst.Contents() == old(dst.Contents()) + old(src.Contents())[..datlen - lost]
    ensures lost == 0 || lost == LeftOver(old(src.segs), datlen)
    ensures old(src.totalLen) + old(dst.totalLen) <= EV_SIZE_MAX ==>
              memory || LeftOver(old(src.segs), datlen) <= old(CopyRoom(src, dst, WholeChunks(src.segs, datlen))) ==>
              lost == 0
    ensures old(Tight(src.segs) && Tight(dst.segs)) ==> Tight(src.segs) && Tight(dst.segs)
  {
    hide Flat, LastData, EndOfData, Apart, Linked, Holds, Objects, Buffers, JoinsCleanly, Tight, WholeChunks, LeftOver;
    hide LinkTo, CopyRoom;
    src.ReprHas();
    dst.ReprHas();
    ghost var i;
    var previous, chain, remaining;
    ghost var segs, was, all := src.segs, dst.Contents(), src.chains;
    BuffersAreArrays(dst.chains);
    i, previous, chain, remaining := src.DrainWalk(datlen);
    var nread := datlen - remaining;
    WalkSplit(segs, i, remaining, datlen);
    WalkIsWhole(segs, i, datlen, remaining);
    ghost var from := if nread > 0 then i else 0;
    LinkAfterCut(all, from, LastData(segs));
    LinkToBehind(chain, all, LastData(segs));
    var ok := MoveAndCopy(src, dst, previous, chain, nread, remaining, memory, i);
    SkippedIs(segs, from, i, remaining, datlen);
    MovedIs(was, Flat(segs[..i]), segs[i][..remaining], Flat(segs), datlen, ok);
    nread := nread + remaining;
    Settle(src, dst, nread);
    lost := if ok then 0 else remaining;
    result := nread;
  }

  lemma MovedIs(was: seq<byte>, front: seq<byte>, part: seq<byte>, all: seq<byte>, n: nat, ok: bool)
    requires n <= |all| && all[..n] == front + part
    ensures was + front + (if ok then part else []) == was + all[..n - if ok then 0 else |part|]
  {
    if ok {
      assert was + front + part == was + (front + part);
    } else {
      assert all[..n - |part|] == all[..n][..|front|] == front;
      assert was + front + [] == was + front;
    }
  }

  // The walk of datlen bytes stops in chain i: what is before it, and how the bytes split.
  lemma WalkSplit(segs: Segments, i: nat, remaining: nat, datlen: nat)
    requires i < |segs| && remaining < |segs[i]| && remaining <= datlen < |Flat(segs)|
    requires Flat(segs[i..])[remaining..] == Flat(segs)[datlen..]
    ensures remaining <= |Flat(segs[i..])|
    ensures |Flat(segs[..i])| == datlen - remaining && (i == 0 ==> Flat(segs[..i]) == [])
    ensures Flat(segs)[..datlen] == Flat(segs[..i]) + segs[i][..remaining]
  {
    assert segs == segs[..i] + segs[i..];
    FlatConcat(segs[..i], segs[i..]);
    assert Flat(segs[i..]) == segs[i] + Flat(segs[i..][1..]);
  }

  // The chains from `from` on, with the bytes in front of the walk's end skipped.
  lemma SkippedIs(segs: Segments, from: nat, i: nat, remaining: nat, datlen: nat)
    requires i <= LastData(segs) < |segs| && segs[LastData(segs)] != []
    requires from == i || (from == 0 && Flat(segs[..i]) == [])
    requires remaining < |segs[i]| && datlen <= |Flat(segs)| && remaining <= |Flat(segs[i..])|
    requires Flat(segs[i..])[remaining..] == Flat(segs)[datlen..]
    ensures var rest := segs[from..][i - from := segs[i][remaining..]];
            && Flat(rest) == Flat(segs)[datlen..] && LastData(rest) == LastData(segs) - from
            && (Tight(segs) ==> Tight(rest))
  {
    hide LastData, Flat;
    var rest := segs[from..][i - from := segs[i][remaining..]];
    DropChains(segs, i);
    DropBytes(segs[i..], remaining);
    var tail := segs[i..][0 := segs[i][remaining..]];
    assert rest == segs[from..i] + tail;
    assert Flat(segs[from..i]) == [] by {
      if from == i {
        FlatEmpty(segs[from..i]);
      } else {
        assert segs[from..i] == segs[..i];
      }
    }
    FlatConcat(segs[from..i], tail);
    AfterLastData(segs);
    LastDataIs(rest, LastData(segs) - from);
  }

  // Whole chains by relinking, then the rest by copying.
  method MoveAndCopy(src: Evbuffer, dst: Evbuffer, previous: Chain?, chain: Chain, nread: nat, remaining: nat,
                     memory: bool, ghost i: nat)
    returns (ok: bool)
    requires Listed(src) && i < |src.chains| && src.first == src.chains[0] && dst.Valid() && Disjoint(dst, src)
    requires !dst.freezeEnd && JoinsCleanly(dst.segs, src.segs[..i])
    requires previous == (if i == 0 then null else src.chains[i - 1]) && chain == src.chains[i]
    requires nread == |Flat(src.segs[..i])| && remaining < |src.segs[i]| && (i == 0 ==> nread == 0)
    modifies src.Repr(), dst.Repr()
    ensures Listed(src) && dst.Valid() && Disjoint(dst, src)
    ensures var from := if nread > 0 then i else 0;
            && src.chains == old(src.chains)[from..] && src.first == src.chains[0]
            && src.segs == old(src.segs)[from..][i - from := old(src.segs)[i][remaining..]]
    ensures unchanged(src`totalLen, src`last, src`lastWithDatap, src`freezeStart, src`freezeEnd)
    ensures old(Tight(src.segs) && Tight(dst.segs)) ==> Tight(dst.segs)
    ensures forall o :: o in (dst.Repr() + src.Repr()) - old(dst.Repr() + src.Repr()) ==> fresh(o)
    ensures dst.Contents() == old(dst.Contents()) + Flat(old(src.segs)[..i]) + if ok then old(src.segs)[i][..remaining] else []
    ensures old(dst.totalLen) + nread + remaining <= EV_SIZE_MAX ==>
              memory || 0 < remaining <= old(CopyRoom(src, dst, i)) ==> ok
  {
    hide Flat, LastData, EndOfData, Apart, Linked, Holds, Objects, Buffers, JoinsCleanly, Tight;
    dst.ReprHas();
    src.ReprHas();
    ReprOf(dst, src.chains);
    ghost var repr := dst.Repr() + src.Repr();
    ghost var k := i;
    MoveTight(dst.segs, src.segs, i);
    if nread > 0 {
      MoveChains(src, dst, previous, chain, nread, i);
      k := 0;
    }
    ghost var mid := dst.Repr() + src.Repr();
    assert mid <= repr;
    ghost var midDst := dst.Repr();
    ok := CopyPart(src, dst, chain, remaining, memory, k);
    assert forall o :: o in dst.Repr() - midDst ==> fresh(o);
    assert dst.Repr() + src.Repr() - repr <= dst.Repr() - midDst;
  }

  lemma DataInFront(segs: Segments)
    requires Tight(segs)
    ensures forall s :: s in segs[..EndOfData(segs)] ==> s != []
  {
    EndOfDataIs(segs);
    hide EndOfData, LastData;
    if |segs| == 1 {
      assert EndOfData(segs) == 1 ==> segs[..EndOfData(segs)] == [segs[0]];
    }
  }

  lemma MoveTight(front: Segments, segs: Segments, i: nat)
    requires i < |segs|
    ensures i > 0 && Tight(front) && Tight(segs) ==> Tight(front[..EndOfData(front)] + segs[..i])
  {
    hide EndOfData;
    if i > 0 && Tight(front) && Tight(segs) {
      DataInFront(front);
      var a, b := front[..EndOfData(front)], segs[..i];
      assert forall j :: 0 <= j < |a + b| ==> (a + b)[j] in a || (a + b)[j] in b;
    }
  }

  // src->total_len -= nread, which makes src consistent again but for its link
  method Settle(src: Evbuffer, dst: Evbuffer, nread: nat)
    requires Listed(src) && src.chains != [] && dst.Valid() && Disjoint(dst, src)
    requires src.first == src.chains[0] && src.last == src.chains[|src.chains| - 1]
    requires nread <= src.totalLen && src.totalLen - nread == |Flat(src.segs)|
    modifies src`totalLen
    ensures src.Valid() <==> src.lastWithDatap == LinkTo(src.chains, LastData(src.segs))
    ensures Listed(src) && src.totalLen == |src.Contents()| && dst.Valid() && Disjoint(dst, src)
  {
    hide Flat, LastData, Apart, Linked, Holds, Objects, Buffers;
    BuffersAreArrays(dst.chains);
    BuffersAreArrays(src.chains);
    src.totalLen := src.totalLen - nread;
  }
}
