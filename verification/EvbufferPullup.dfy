/** evbuffer_pullup: making the first bytes of a buffer contiguous. */
module EvbufferPullup {
  import opened ByteSegments
  import opened Evbuffers
  import opened Words

  // The chain is in neither the list nor the memory of the given chains.
  ghost predicate Beside(tmp: Chain, rest: seq<Chain>) {
    tmp !in rest && forall c :: c in rest ==> c.buffer != tmp.buffer
  }

  // Appending bytes to a chain beside a list.
  method AppendBeside(tmp: Chain, data: seq<byte>, ghost rest: seq<Chain>, ghost segs: Segments)
    requires tmp.Fits() && tmp.misalign + tmp.off + |data| <= tmp.buffer.Length
    requires Beside(tmp, rest) && Linked(rest, null) && Holds(rest, segs)
    modifies tmp`off, tmp.buffer
    ensures tmp.Fits() && tmp.Data() == old(tmp.Data()) + data && tmp.off == old(tmp.off) + |data|
    ensures Linked(rest, null) && Holds(rest, segs)
  {
    hide Linked, Holds;
    BuffersAreArrays(rest);
    assert tmp.buffer !in Buffers(rest);
    ghost var was := tmp.Data();
    CopyBytes(tmp.buffer, tmp.misalign + tmp.off, data);
    tmp.off := tmp.off + |data|;
    var m := tmp.misalign;
    assert tmp.buffer[m..m + |was|] == was;
    assert tmp.buffer[m + |was|..m + tmp.off] == data;
  }

  lemma ChainIs(rest: seq<Chain>, segs: Segments, i: nat)
    requires i < |rest| && Linked(rest, null) && Holds(rest, segs)
    ensures var c := rest[i];
            c.Fits() && c.off == |segs[i]| && c.buffer[c.misalign..c.misalign + c.off] == segs[i]
    ensures rest[i].next == if i + 1 < |rest| then rest[i + 1] else null
  {
  }

  // The loop that copies and frees every chain pulled in entirely.
  method Gather(tmp: Chain, start: Chain?, size: nat, lastWithData: Chain, link: Link, ghost rest: seq<Chain>,
                ghost segs: Segments)
    returns (chain: Chain?, left: nat, removedLastWithData: bool, removedLink: bool, ghost i: nat)
    requires tmp.Fits() && tmp.misalign + tmp.off + size <= tmp.buffer.Length
    requires Beside(tmp, rest) && Linked(rest, null) && Holds(rest, segs) && |rest| == |segs|
    requires start == (if rest == [] then null else rest[0]) && size <= |Flat(segs)|
    modifies tmp`off, tmp.buffer
    ensures Linked(rest, null) && Holds(rest, segs)
    ensures i <= |rest| && chain == if i < |rest| then rest[i] else null
    ensures |Flat(segs[..i])| + left == size && (if i < |rest| then left < |segs[i]| else left == 0)
    ensures tmp.Fits() && tmp.Data() == old(tmp.Data()) + Flat(segs[..i]) && tmp.off == old(tmp.off) + size - left
    ensures removedLastWithData <==> lastWithData in rest[..i]
    ensures removedLink <==> link.NextOf? && link.chain in rest[..i]
  {
    hide Flat, Linked, Holds, Beside, Chain.Data;
    chain, left, i := start, size, 0;
    removedLastWithData, removedLink := false, false;
    assert segs[..0] == [];
    FlatNil();
    if rest != [] {
      ChainIs(rest, segs, 0);
    }
    while chain != null && left >= chain.off
      invariant Linked(rest, null) && Holds(rest, segs)
      invariant i <= |rest| && chain == if i < |rest| then rest[i] else null
      invariant i < |rest| ==> chain.off == |segs[i]|
      invariant |Flat(segs[..i])| + left == size
      invariant tmp.Fits() && tmp.Data() == old(tmp.Data()) + Flat(segs[..i]) && tmp.off == old(tmp.off) + size - left
      invariant removedLastWithData <==> lastWithData in rest[..i]
      invariant removedLink <==> link.NextOf? && link.chain in rest[..i]
      modifies tmp`off, tmp.buffer
      decreases |rest| - i
    {
      var next := Swallow(tmp, chain, rest, segs, i);
      left := left - chain.off;
      assert rest[..i + 1] == rest[..i] + [chain];
      if chain == lastWithData {
        removedLastWithData := true;
      }
      if NextOf(chain) == link {
        removedLink := true;
      }
      chain := next;
      i := i + 1;
    }
    assert segs[..|segs|] == segs;
  }

  // One chain copied behind the data of tmp; the one after it.
  method Swallow(tmp: Chain, chain: Chain, ghost rest: seq<Chain>, ghost segs: Segments,
                 ghost i: nat) returns (next: Chain?)
    requires tmp.Fits() && tmp.misalign + tmp.off + chain.off <= tmp.buffer.Length
    requires Beside(tmp, rest) && Linked(rest, null) && Holds(rest, segs)
    requires i < |rest| == |segs| && chain == rest[i]
    modifies tmp`off, tmp.buffer
    ensures Linked(rest, null) && Holds(rest, segs)
    ensures tmp.Fits() && tmp.Data() == old(tmp.Data()) + segs[i] && tmp.off == old(tmp.off) + |segs[i]|
    ensures |Flat(segs[..i + 1])| == |Flat(segs[..i])| + |segs[i]| && Flat(segs[..i + 1]) == Flat(segs[..i]) + segs[i]
    ensures next == (if i + 1 < |rest| then rest[i + 1] else null) && (next != null ==> next.off == |segs[i + 1]|)
    ensures chain.off == |segs[i]|
  {
    hide Flat, Linked, Holds, Beside, Chain.Data;
    ChainIs(rest, segs, i);
    FlatPrefix(segs, i);
    AppendBeside(tmp, chain.buffer[chain.misalign..chain.misalign + chain.off], rest, segs);
    ChainIs(rest, segs, i);
    next := chain.next;
    if i + 1 < |rest| {
      ChainIs(rest, segs, i + 1);
    }
  }

  lemma FlatPrefix(segs: Segments, i: nat)
    requires i < |segs|
    ensures Flat(segs[..i + 1]) == Flat(segs[..i]) + segs[i]
  {
    assert segs[..i + 1] == segs[..i] + [segs[i]];
    FlatConcat(segs[..i], [segs[i]]);
  }

  lemma FlatNil()
    ensures Flat([]) == []
  {
  }

  // The segments after pulling up: front and the first i of rest, and `left` bytes of the
  // next one, become the first segment.
  function Pulled(front: seq<byte>, rest: Segments, i: nat, left: nat): (p: Segments)
    requires i <= |rest| && (i < |rest| ==> left <= |rest[i]|)
    ensures |p| == 1 + |rest| - i
    ensures |p[0]| == |front| + |Flat(rest[..i])| + if i < |rest| then left else 0
  {
    if i < |rest| then [front + Flat(rest[..i]) + rest[i][..left]] + rest[i..][0 := rest[i][left..]]
    else [front + Flat(rest[..i])]
  }

  lemma PulledIs(front: seq<byte>, rest: Segments, i: nat, left: nat)
    requires i <= |rest| && (i < |rest| ==> left < |rest[i]|) && Flat(rest) != []
    ensures Flat(Pulled(front, rest, i, left)) == front + Flat(rest)
    ensures LastData(Pulled(front, rest, i, left)) == if i < |rest| then 1 + LastData(rest) - i else 0
    ensures i < |rest| ==> i <= LastData(rest)
  {
    hide LastData, Flat;
    assert rest == rest[..i] + rest[i..];
    FlatConcat(rest[..i], rest[i..]);
    var d := front + Flat(rest[..i]);
    assert d + Flat(rest[i..]) == front + Flat(rest);
    if i < |rest| {
      PartlyPulledIs(d, rest, i, left);
    } else {
      FlatNil();
      AllPulledIs(d);
    }
  }

  lemma AllPulledIs(d: seq<byte>)
    ensures Flat([d]) == d && LastData([d]) == 0
  {
    FlatOne([d]);
  }

  lemma PulledTight(front: seq<byte>, rest: Segments, i: nat, left: nat)
    requires i <= |rest| && (i < |rest| ==> left < |rest[i]|)
    ensures Pulled(front, rest, i, left)[0] != [] && (forall j :: i < j < |rest| ==> rest[j] != []) ==> Tight(Pulled(front, rest, i, left))
  {
  }

  lemma PartlyPulledIs(d: seq<byte>, rest: Segments, i: nat, left: nat)
    requires i < |rest| && left < |rest[i]|
    ensures var p := [d + rest[i][..left]] + rest[i..][0 := rest[i][left..]];
            Flat(p) == d + Flat(rest[i..]) && LastData(p) == 1 + LastData(rest) - i
    ensures i <= LastData(rest)
  {
    hide LastData;
    var head, tail := d + rest[i][..left], rest[i..][0 := rest[i][left..]];
    assert Flat(rest[i..]) == rest[i] + Flat(rest[i..][1..]);
    DataLeft(rest, i);
    DropChains(rest, i);
    DropBytes(rest[i..], left);
    LastDataBehind([head], tail);
    assert Flat([head]) == head;
  }

  // The chain list and cached fields of buf, but for `first`, which may already be the chain
  // that is pulled into.
  ghost predicate Consistent(buf: Evbuffer)
    reads buf, buf.chains, Buffers(buf.chains)
  {
    && Apart(buf.chains) && Linked(buf.chains, null)
    && |buf.chains| == |buf.segs| > 0 && Holds(buf.chains, buf.segs)
    && buf.last == buf.chains[|buf.chains| - 1]
    && buf.totalLen == |Flat(buf.segs)|
    && buf.lastWithDatap == LinkTo(buf.chains, LastData(buf.segs))
  }

  // Copying the head of the chain that is only partly pulled in, and linking it behind tmp.
  method TakeHead(tmp: Chain, chain: Chain?, left: nat, ghost rest: seq<Chain>, ghost segs: Segments,
                  ghost i: nat, ghost front: seq<byte>)
    requires Apart(rest) && Linked(rest, null) && Holds(rest, segs) && |rest| == |segs|
    requires i <= |rest| && chain == (if i < |rest| then rest[i] else null)
    requires if i < |rest| then left < |segs[i]| else left == 0
    requires Beside(tmp, rest) && tmp.Fits() && tmp.misalign + tmp.off + left <= tmp.buffer.Length
    requires tmp.Data() == front + Flat(segs[..i])
    modifies tmp`next, tmp`off, tmp.buffer, rest`misalign, rest`off
    ensures Apart([tmp] + rest[i..]) && Linked([tmp] + rest[i..], null)
    ensures Holds([tmp] + rest[i..], Pulled(front, segs, i, left))
    ensures tmp.next == chain && (chain != null ==> chain.off > 0)
  {
    hide Flat, Linked, Holds, Beside, Apart;
    ghost var d := tmp.Data();
    if chain != null {
      CopyHead(tmp, chain, left, rest, segs, i);
      ghost var tail := segs[i..][0 := segs[i][left..]];
      ChainIs(rest[i..], tail, 0);
      BesideMeans(tmp, rest);
      LinkHead(tmp, chain, rest[i..], tail, d + segs[i][..left]);
    } else {
      NilList();
      LinkHead(tmp, null, [], [], d);
      assert rest[i..] == [];
      assert [tmp] + [] == [tmp] && [d] + [] == [d];
    }
  }

  // memcpy of `left` bytes, which are then skipped in the chain
  method CopyHead(tmp: Chain, chain: Chain, left: nat, ghost rest: seq<Chain>, ghost segs: Segments, ghost i: nat)
    requires Apart(rest) && Linked(rest, null) && Holds(rest, segs) && |rest| == |segs|
    requires i < |rest| && chain == rest[i] && left < |segs[i]|
    requires Beside(tmp, rest) && tmp.Fits() && tmp.misalign + tmp.off + left <= tmp.buffer.Length
    modifies tmp`off, tmp.buffer, chain`misalign, chain`off
    ensures Apart(rest[i..]) && Linked(rest[i..], null) && Holds(rest[i..], segs[i..][0 := segs[i][left..]])
    ensures tmp.Fits() && tmp.Data() == old(tmp.Data()) + segs[i][..left]
  {
    hide Flat, Linked, Holds, Beside, Apart;
    ChainIs(rest, segs, i);
    AppendBeside(tmp, chain.buffer[chain.misalign..chain.misalign + left], rest, segs);
    BesideMeans(tmp, rest);
    DropAt(rest, segs, i, chain, left);
    ghost var cut := segs[i := segs[i][left..]];
    ListFrom(rest, cut, i);
    assert cut[i..] == segs[i..][0 := segs[i][left..]];
  }

  lemma NilList()
    ensures Apart([]) && Linked([], null) && Holds([], [])
  {
  }

  lemma BesideMeans(tmp: Chain, rest: seq<Chain>)
    requires Beside(tmp, rest)
    ensures tmp !in rest && tmp !in Buffers(rest) && tmp.buffer !in Buffers(rest)
    ensures forall c :: c in rest ==> c != tmp && c.buffer != tmp.buffer
    ensures forall a, b :: 0 <= a <= b <= |rest| ==> Beside(tmp, rest[a..b])
  {
    BuffersAreArrays(rest);
  }

  // tmp->next = chain
  method LinkHead(tmp: Chain, chain: Chain?, ghost rest: seq<Chain>, ghost segs: Segments, ghost d: seq<byte>)
    requires chain == (if rest == [] then null else rest[0])
    requires Apart(rest) && Linked(rest, null) && Holds(rest, segs)
    requires tmp !in rest && forall c :: c in rest ==> c.buffer != tmp.buffer
    requires tmp.Fits() && tmp.Data() == d
    modifies tmp`next
    ensures tmp.next == chain
    ensures Apart([tmp] + rest) && Linked([tmp] + rest, null) && Holds([tmp] + rest, [d] + segs)
  {
    hide Linked, Holds;
    BuffersAreArrays(rest);
    tmp.next := chain;
    ListCons(tmp, rest, segs, d);
  }

  // The cached fields of buf, told by the chains from number s on.
  lemma CachesOf(buf: Evbuffer, tmp: Chain, s: nat)
    requires Consistent(buf) && s <= 1 && s < |buf.chains| && (s == 1 ==> tmp == buf.chains[0])
    requires LastData(buf.segs) > 0 && LastData(buf.segs[s..]) == LastData(buf.segs) - s
    requires Flat(buf.segs) == Flat(buf.segs[..s]) + Flat(buf.segs[s..])
    ensures var rest, segs := buf.chains[s..], buf.segs[s..];
            && buf.last == rest[|rest| - 1]
            && buf.totalLen == |Flat(buf.segs[..s])| + |Flat(segs)|
            && buf.lastWithDatap == NextOf(if LastData(segs) > 0 then rest[LastData(segs) - 1] else tmp)
            && rest[LastData(segs)] == buf.chains[LastData(buf.segs)]
  {
    hide Flat, LastData, Apart, Linked, Holds, Buffers;
  }

  // Pulling n more bytes from `rest`, the chains of buf from number s on, into tmp, which is
  // the chain before them (s == 1) or a new one (s == 0).
  method PullInto(buf: Evbuffer, tmp: Chain, start: Chain?, n: nat, ghost s: nat)
    requires Consistent(buf) && buf.first == tmp
    requires s <= 1 && s <= |buf.chains| && (s == 1 ==> tmp == buf.chains[0]) && Beside(tmp, buf.chains[s..])
    requires start == (if s < |buf.chains| then buf.chains[s] else null)
    requires tmp.Fits() && tmp.Data() == Flat(buf.segs[..s]) && tmp.misalign + tmp.off + n <= tmp.buffer.Length
    requires |buf.segs[0]| < |Flat(buf.segs[..s])| + n <= |Flat(buf.segs)|
    modifies buf, tmp, tmp.buffer, buf.chains`misalign, buf.chains`off
    ensures buf.Valid() && buf.chains != [] && buf.chains[0] == tmp
    ensures buf.freezeStart == old(buf.freezeStart) && buf.freezeEnd == old(buf.freezeEnd)
    ensures buf.Contents() == old(buf.Contents())
    ensures |buf.segs[0]| == |Flat(old(buf.segs)[..s])| + n
    ensures Objects(buf.chains) <= old(Objects(buf.chains)) + {tmp, tmp.buffer}
    ensures old(Tight(buf.segs)) ==> Tight(buf.segs)
  {
    hide Flat, LastData, Apart, Linked, Holds, Beside, Buffers, Objects, Tight, Chain.Data, LinkTo;
    ghost var rest, segs, front := buf.chains[s..], buf.segs[s..], Flat(buf.segs[..s]);
    SplitAt(buf, s, n);
    NoSharing(buf.chains, s);
    assert rest[0..] == rest;
    CachesOf(buf, tmp, s);
    var lastWithData := LastChain(buf);
    PullRest(buf, tmp, start, n, lastWithData, rest, segs, front);
  }

  // The work of it, told by the chains that are pulled from.
  method PullRest(buf: Evbuffer, tmp: Chain, start: Chain?, n: nat, lastWithData: Chain,
                  ghost rest: seq<Chain>, ghost segs: Segments, ghost front: seq<byte>)
    requires Apart(rest) && Linked(rest, null) && Holds(rest, segs) && |rest| == |segs| > LastData(segs)
    requires Beside(tmp, rest) && start == rest[0] && n <= |Flat(segs)| && Flat(segs) != []
    requires tmp.Fits() && tmp.Data() == front && tmp.misalign + tmp.off + n <= tmp.buffer.Length
    requires buf.first == tmp && buf.last == rest[|rest| - 1] && buf.totalLen == |front| + |Flat(segs)|
    requires buf.lastWithDatap == NextOf(if LastData(segs) > 0 then rest[LastData(segs) - 1] else tmp)
    requires lastWithData == rest[LastData(segs)] && |front| + n > 0
    modifies buf`last, buf`lastWithDatap, buf`chains, buf`segs
    modifies tmp`next, tmp`off, tmp.buffer, rest`misalign, rest`off
    ensures buf.Valid() && buf.chains != [] && buf.chains[0] == tmp
    ensures buf.Contents() == front + Flat(segs)
    ensures |buf.segs[0]| == |front| + n
    ensures Objects(buf.chains) <= Objects(rest) + {tmp, tmp.buffer}
    ensures (forall j :: 0 <= j < |segs| ==> segs[j] != []) ==> Tight(buf.segs)
  {
    hide Flat, LastData, Apart, Linked, Holds, Beside, Buffers, Objects, Tight, Chain.Data, LinkTo;
    BuffersAreArrays(rest);
    BesideMeans(tmp, rest);
    var chain, left, removedLastWithData, removedLink;
    ghost var i;
    chain, left, removedLastWithData, removedLink, i :=
      Gather(tmp, start, n, lastWithData, buf.lastWithDatap, rest, segs);
    TakeHead(tmp, chain, left, rest, segs, i, front);
    Relink(buf, tmp, chain, removedLastWithData, removedLink, rest, segs, i, left, front);
    NoSharing(rest, i);
    assert rest[i..][0..] == rest[i..];
    ObjectsOf(tmp, rest[i..]);
  }

  lemma NoSharing(chains: seq<Chain>, s: nat)
    requires s <= |chains|
    ensures forall k :: 0 <= k < |chains[s..]| ==> chains[s..][k] in chains && chains[s..][k] == chains[s + k]
    ensures forall i :: 0 <= i <= |chains[s..]| ==> Objects(chains[s..][i..]) <= Objects(chains)
  {
    forall i | 0 <= i <= |chains[s..]| ensures Objects(chains[s..][i..]) <= Objects(chains) {
      assert forall c :: c in chains[s..][i..] ==> c in chains;
    }
  }

  // The end of evbuffer_pullup: buf->last and buf->last_with_datap.
  method Relink(buf: Evbuffer, tmp: Chain, chain: Chain?, removedLastWithData: bool, removedLink: bool,
                ghost rest: seq<Chain>, ghost segs: Segments, ghost i: nat, ghost left: nat, ghost front: seq<byte>)
    requires |rest| == |segs| && i <= |rest| && (i < |rest| ==> left < |segs[i]|) && Flat(segs) != []
    requires Apart([tmp] + rest[i..]) && Linked([tmp] + rest[i..], null) && Holds([tmp] + rest[i..], Pulled(front, segs, i, left))
    requires Apart(rest) && tmp !in rest
    requires chain == (if i < |rest| then rest[i] else null) && tmp.next == chain && (chain != null ==> chain.off > 0)
    requires buf.first == tmp && buf.last == rest[|rest| - 1] && buf.totalLen == |front| + |Flat(segs)|
    requires buf.lastWithDatap == NextOf(if LastData(segs) > 0 then rest[LastData(segs) - 1] else tmp)
    requires removedLastWithData <==> rest[LastData(segs)] in rest[..i]
    requires removedLink <==> buf.lastWithDatap.chain in rest[..i]
    modifies buf`last, buf`lastWithDatap, buf`chains, buf`segs
    ensures buf.Valid() && buf.chains == [tmp] + rest[i..] && buf.segs == Pulled(front, segs, i, left)
    ensures buf.Contents() == front + Flat(segs)
    ensures buf.segs[0] != [] && (forall j :: i < j < |segs| ==> segs[j] != []) ==> Tight(buf.segs)
  {
    hide Flat, LastData, Linked, Holds, Buffers, Pulled, Tight;
    PulledIs(front, segs, i, left);
    PulledTight(front, segs, i, left);
    FlatNil();
    ghost var k: nat := LastData(segs);
    RemovedIs(rest, i, k);
    if k > 0 {
      RemovedIs(rest, i, k - 1);
    }
    BuffersAreArrays([tmp] + rest[i..]);
    if chain == null {
      buf.last := tmp;
    }
    if removedLastWithData {
      buf.lastWithDatap := First;
    } else if removedLink {
      buf.lastWithDatap := if buf.first.next != null && buf.first.next.off > 0 then NextOf(buf.first) else First;
    }
    ghost var chains := [tmp] + rest[i..];
    assert i <= k - 1 ==> chains[k - i] == rest[k - 1];
    buf.chains, buf.segs := chains, Pulled(front, segs, i, left);
  }

  // Which chains have been freed, by number.
  lemma RemovedIs(rest: seq<Chain>, i: nat, k: nat)
    requires Apart(rest) && i <= |rest| && k < |rest|
    ensures rest[k] in rest[..i] <==> k < i
  {
    if rest[k] in rest[..i] {
      var j :| 0 <= j < i && rest[..i][j] == rest[k];
    }
  }

  // The chain that last_with_datap points to, when it is not the first.
  function LastChain(buf: Evbuffer): (chain: Chain)
    requires Consistent(buf) && LastData(buf.segs) > 0
    reads buf, buf.chains, Buffers(buf.chains)
    ensures chain == buf.chains[LastData(buf.segs)]
  {
    LastChainIs(buf);
    buf.At(buf.lastWithDatap)
  }

  lemma LastChainIs(buf: Evbuffer)
    requires Consistent(buf) && LastData(buf.segs) > 0
    ensures buf.lastWithDatap.NextOf? && buf.lastWithDatap.chain == buf.chains[LastData(buf.segs) - 1]
    ensures buf.At(buf.lastWithDatap) == buf.chains[LastData(buf.segs)]
  {
    hide Flat, LastData, Apart, Holds, Buffers;
    var k := LastData(buf.segs);
    NextInList(buf.chains, null, k - 1);
  }

  lemma SplitAt(buf: Evbuffer, s: nat, n: nat)
    requires Consistent(buf) && s <= 1 && s <= |buf.chains|
    requires |buf.segs[0]| < |Flat(buf.segs[..s])| + n <= |Flat(buf.segs)|
    ensures LastData(buf.segs) > 0
    ensures var rest, segs := buf.chains[s..], buf.segs[s..];
            && Apart(rest) && Linked(rest, null) && Holds(rest, segs)
            && Flat(buf.segs) == Flat(buf.segs[..s]) + Flat(segs) && n <= |Flat(segs)|
            && Flat(segs) != []
            && LastData(segs) == LastData(buf.segs) - s
            && (Tight(buf.segs) ==> forall j :: 0 <= j < |segs| ==> segs[j] != [])
  {
    hide Flat, LastData, Apart, Linked, Holds, Buffers, Objects, Tight;
    SplitSegments(buf.segs, s, n);
    ListFrom(buf.chains, buf.segs, s);
  }

  // The values of the chains from number s on, when more than the first chain is asked for.
  lemma SplitSegments(all: Segments, s: nat, n: nat)
    requires s <= 1 && s <= |all| && all != []
    requires |all[0]| < |Flat(all[..s])| + n <= |Flat(all)|
    ensures 0 < LastData(all) < |all|
    ensures var segs := all[s..];
            && Flat(all) == Flat(all[..s]) + Flat(segs) && n <= |Flat(segs)| && Flat(segs) != []
            && LastData(segs) == LastData(all) - s
            && (Tight(all) ==> forall j :: 0 <= j < |segs| ==> segs[j] != [])
  {
    hide LastData;
    assert all == all[..s] + all[s..];
    FlatConcat(all[..s], all[s..]);
    FlatNil();
    assert all[..0] == [] && (s == 1 ==> all[..1] == [all[0]]);
    FlatOne([all[0]]);
    DataLeft(all, 1);
    DropChains(all, s);
  }

  // evbuffer_pullup: the first `size` bytes (all of them if size is negative) end up
  // contiguous in the first chain, and nothing else about the contents changes. Fails when
  // there are not that many bytes, none are asked for, or a chain cannot be allocated.
  method Pullup(buf: Evbuffer, size: int, memory: bool) returns (chunk: Chain?)
    requires buf.Valid()
    modifies buf.Repr()
    ensures buf.Valid() && forall o :: o in buf.Repr() - old(buf.Repr()) ==> fresh(o)
    ensures buf.freezeStart == old(buf.freezeStart) && buf.freezeEnd == old(buf.freezeEnd)
    ensures buf.Contents() == old(buf.Contents()) && buf.totalLen == old(buf.totalLen)
    ensures chunk == null ==> buf.chains == old(buf.chains) && buf.segs == old(buf.segs)
    ensures var n: int := if size < 0 then old(buf.totalLen) else size;
            && (n == 0 || n > old(buf.totalLen) ==> chunk == null)
            && (0 < n <= old(buf.totalLen) && n <= CHAIN_ROOM_MAX && memory ==> chunk != null)
            && (0 < n <= old(buf.totalLen) && old(buf.segs) != [] && n <= |old(buf.segs)[0]| ==> chunk != null && buf.segs == old(buf.segs))
            && (chunk != null ==> buf.chains != [] && chunk == buf.chains[0] && n <= |buf.segs[0]|)
            && (chunk != null && old(buf.segs) != [] && n > |old(buf.segs)[0]| ==> |buf.segs[0]| == n)
    ensures old(buf.first) != null ==>
              var n: int := if size < 0 then old(buf.totalLen) else size;
              0 < n <= old(buf.totalLen) && n <= old(buf.first.buffer.Length - buf.first.misalign) ==> chunk == old(buf.first)
    ensures old(Tight(buf.segs)) ==> Tight(buf.segs)
  {
    hide Flat, LastData, Apart, Linked, Holds, Beside, Buffers, Objects, Tight;
    var n: nat := if size < 0 then buf.totalLen else size;
    if n == 0 || n > buf.totalLen {
      return null;
    }
    HasFirst(buf);
    var chain := buf.first;
    if chain.off >= n {
      return chain;
    }
    buf.ReprHas();
    if chain.buffer.Length - chain.misalign >= n {
      PullIntoFirst(buf, chain, n);
      return chain;
    }
    var tmp := buf.NewChain(n, memory);
    if tmp == null {
      return null;
    }
    PullIntoNew(buf, tmp, n);
    assert buf.Repr() <= old(buf.Repr()) + {tmp, tmp.buffer};
    return tmp;
  }

  lemma HasFirst(buf: Evbuffer)
    requires buf.Valid() && buf.totalLen > 0
    ensures buf.chains != [] && buf.first == buf.chains[0] && buf.first.Fits() && buf.first.off == |buf.segs[0]|
    ensures buf.first.Data() == buf.segs[0]
  {
  }

  // The first chain has the room.
  method PullIntoFirst(buf: Evbuffer, chain: Chain, n: nat)
    requires buf.Valid() && n <= buf.totalLen && buf.chains != [] && chain == buf.chains[0]
    requires chain.off < n <= chain.buffer.Length - chain.misalign
    modifies buf.Repr()
    ensures buf.Valid() && buf.Repr() <= old(buf.Repr())
    ensures buf.freezeStart == old(buf.freezeStart) && buf.freezeEnd == old(buf.freezeEnd)
    ensures buf.Contents() == old(buf.Contents())
    ensures buf.chains != [] && buf.chains[0] == chain && n == |buf.segs[0]|
    ensures old(Tight(buf.segs)) ==> Tight(buf.segs)
  {
    hide Flat, LastData, Linked, Holds, Buffers, Objects, Tight;
    HasFirst(buf);
    buf.ReprHas();
    buf.NextLink(0);
    FlatOne(buf.segs);
    assert Beside(chain, buf.chains[1..]);
    PullInto(buf, chain, chain.next, n - chain.off, 1);
  }

  lemma FlatOne(segs: Segments)
    requires segs != []
    ensures Flat(segs[..1]) == segs[0] && Flat(segs[..0]) == []
  {
    assert segs[..1][1..] == [];
  }

  // A new chain takes the first place.
  method PullIntoNew(buf: Evbuffer, tmp: Chain, n: nat)
    requires buf.Valid() && n <= buf.totalLen && buf.chains != [] && |buf.segs[0]| < n
    requires buf.Loose(tmp) && tmp.Fits() && tmp.misalign == 0 && tmp.off == 0 && n <= tmp.buffer.Length
    modifies buf.Repr(), tmp, tmp.buffer
    ensures buf.Valid() && buf.Repr() <= old(buf.Repr()) + {tmp, tmp.buffer}
    ensures buf.freezeStart == old(buf.freezeStart) && buf.freezeEnd == old(buf.freezeEnd)
    ensures buf.Contents() == old(buf.Contents())
    ensures buf.chains != [] && buf.chains[0] == tmp && n == |buf.segs[0]|
    ensures old(Tight(buf.segs)) ==> Tight(buf.segs)
  {
    hide Flat, LastData, Apart, Linked, Holds, Buffers, Objects, Tight;
    buf.ReprHas();
    BuffersAreArrays(buf.chains);
    FlatOne(buf.segs);
    var start := buf.first;
    buf.first := tmp;
    assert buf.chains[0..] == buf.chains;
    assert Beside(tmp, buf.chains[0..]);
    PullInto(buf, tmp, start, n, 0);
  }
}
