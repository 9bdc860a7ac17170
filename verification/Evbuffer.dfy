/** The chained byte buffer of buffer.c: a singly linked list of partly filled chunks, with
    cached pointers to its end and to the last chunk that holds data. */
module Evbuffers {
  import opened ByteSegments
  import opened Words

  const EV_SIZE_MAX: nat := 0xFFFF_FFFF_FFFF_FFFF
  const EV_SSIZE_MAX: nat := 0x7FFF_FFFF_FFFF_FFFF
  const EVBUFFER_CHAIN_MAX := EV_SSIZE_MAX
  const CHAIN_ROOM_MAX := EVBUFFER_CHAIN_MAX - EVBUFFER_CHAIN_SIZE
  // sizeof(struct evbuffer_chain) and MIN_BUFFER_SIZE with 64-bit pointers
  const EVBUFFER_CHAIN_SIZE: nat := 48
  const MIN_BUFFER_SIZE: nat := 1024
  const EVBUFFER_CHAIN_MAX_AUTO_SIZE: nat := 4096
  const MAX_TO_REALIGN_IN_EXPAND: nat := 2048

  method CopyBytes(dst: array<byte>, at: nat, data: seq<byte>)
    requires at + |data| <= dst.Length
    modifies dst
    ensures dst[..] == old(dst[..at]) + data + old(dst[at + |data|..])
  {
    forall i | 0 <= i < |data| {
      dst[at + i] := data[i];
    }
  }

  lemma PutInFront(was: seq<byte>, at: nat, data: seq<byte>, end: nat)
    requires at + |data| <= end <= |was|
    ensures (was[..at] + data + was[at + |data|..])[at..end] == data + was[at + |data|..end]
  {
  }

  class Chain {
    var next: Chain?
    const buffer: array<byte>  // buffer_len is buffer.Length
    var misalign: nat
    var off: nat

    constructor (length: nat)
      requires length > 0
      ensures fresh(buffer) && buffer.Length == length
      ensures next == null && misalign == 0 && off == 0
    {
      next, misalign, off := null, 0, 0;
      buffer := new byte[length](_ => 0);
    }

    ghost predicate Fits()
      reads this`misalign, this`off
    {
      0 < buffer.Length <= CHAIN_ROOM_MAX && misalign + off <= buffer.Length
    }

    ghost function Data(): (d: seq<byte>)
      requires Fits()
      reads this`misalign, this`off, buffer
      ensures |d| == off
    {
      buffer[misalign..misalign + off]
    }

    function RoomBehind(): int
      reads this`misalign, this`off
    {
      buffer.Length - misalign - off
    }

    // Putting data at the end of an unused chain's room, in front of `rest`
    method FillAtEnd(rest: Chain?, data: seq<byte>)
      requires |data| <= buffer.Length && 0 < buffer.Length <= CHAIN_ROOM_MAX
      modifies this, buffer
      ensures next == rest && Fits() && Data() == data
    {
      next := rest;
      off := |data|;
      misalign := buffer.Length - |data|;
      CopyBytes(buffer, misalign, data);
    }

    // Putting data in front of the data of a chain
    method Prefix(data: seq<byte>)
      requires Fits() && |data| <= misalign
      modifies this`misalign, this`off, buffer
      ensures Fits() && Data() == data + old(Data())
      ensures misalign == old(misalign) - |data|
    {
      ghost var was, end := buffer[..], misalign + off;
      CopyBytes(buffer, misalign - |data|, data);
      PutInFront(was, misalign - |data|, data, end);
      off := off + |data|;
      misalign := misalign - |data|;
      assert buffer[misalign..end] == buffer[..][misalign..end];
    }

    // evbuffer_chain_should_realign
    predicate ShouldRealign(datalen: nat)
      reads this`off
    {
      && buffer.Length - off >= datalen
      && off < buffer.Length / 2
      && off <= MAX_TO_REALIGN_IN_EXPAND
    }
  }

  // The allocation evbuffer_chain_new makes for a chain of `size` bytes of header and data.
  function AllocationSize(size: nat): (n: nat)
    ensures n >= size && n >= MIN_BUFFER_SIZE
    ensures size < EVBUFFER_CHAIN_MAX / 2 && size > MIN_BUFFER_SIZE ==> n < 2 * size
  {
    if size < EVBUFFER_CHAIN_MAX / 2 then DoubledFrom(MIN_BUFFER_SIZE, size) else size
  }

  // The first of n, 2n, 4n, ... that is at least size.
  function DoubledFrom(n: nat, size: nat): (r: nat)
    requires n > 0
    ensures r >= size && r >= n
    ensures n < size ==> r < 2 * size
    decreases size - n
  {
    if n >= size then n else DoubledFrom(2 * n, size)
  }

  function DoubledTimes(n: nat, k: nat): (r: nat)
    ensures r >= n
    decreases k
  {
    if k == 0 then n else DoubledTimes(2 * n, k - 1)
  }

  lemma {:induction false} DoubledIsLeast(n: nat, size: nat, k: nat) returns (j: nat)
    requires n > 0
    ensures DoubledFrom(n, size) == DoubledTimes(n, j)
    ensures DoubledTimes(n, k) >= size ==> DoubledFrom(n, size) <= DoubledTimes(n, k)
    decreases size - n
  {
    j := 0;
    if n < size {
      var i := DoubledIsLeast(2 * n, size, if k == 0 then 0 else k - 1);
      j := i + 1;
    }
  }

  // Below half the maximum it is the smallest doubling of the minimum that is large enough.
  lemma AllocationIsLeastDoubling(size: nat, k: nat)
    requires size < EVBUFFER_CHAIN_MAX / 2
    ensures exists j :: AllocationSize(size) == DoubledTimes(MIN_BUFFER_SIZE, j)
    ensures DoubledTimes(MIN_BUFFER_SIZE, k) >= size ==> AllocationSize(size) <= DoubledTimes(MIN_BUFFER_SIZE, k)
  {
    var j := DoubledIsLeast(MIN_BUFFER_SIZE, size, k);
  }

  // evbuffer_chain_new: fails for sizes beyond the maximum and when malloc does. With `memory`
  // malloc succeeds; without it, it may succeed or fail.
  method ChainNew(size: nat, memory: bool) returns (chain: Chain?)
    ensures size > CHAIN_ROOM_MAX ==> chain == null
    ensures size <= CHAIN_ROOM_MAX && memory ==> chain != null
    ensures chain != null ==>
              && fresh(chain) && fresh(chain.buffer)
              && chain.buffer.Length == AllocationSize(size + EVBUFFER_CHAIN_SIZE) - EVBUFFER_CHAIN_SIZE
              && chain.buffer.Length <= CHAIN_ROOM_MAX
              && chain.next == null && chain.misalign == 0 && chain.off == 0
  {
    if size > CHAIN_ROOM_MAX {
      return null;
    }
    var needed := size + EVBUFFER_CHAIN_SIZE;
    var toAlloc := needed;
    if needed < EVBUFFER_CHAIN_MAX / 2 {
      toAlloc := MIN_BUFFER_SIZE;
      while toAlloc < needed
        invariant 0 < toAlloc && DoubledFrom(toAlloc, needed) == DoubledFrom(MIN_BUFFER_SIZE, needed)
        decreases needed - toAlloc
      {
        toAlloc := toAlloc * 2;
      }
    }
    var mallocOk := *;
    if !memory && !mallocOk {
      return null;
    }
    chain := new Chain(toAlloc - EVBUFFER_CHAIN_SIZE);
  }

  // How large the chunk behind one of this size is: twice as large up to a limit, and large enough.
  function NextSize(length: nat, need: nat): (n: int)
    ensures n >= need && n >= length && (length <= EVBUFFER_CHAIN_MAX_AUTO_SIZE / 2 ==> n >= 2 * length)
  {
    var wanted := if length <= EVBUFFER_CHAIN_MAX_AUTO_SIZE / 2 then 2 * length else length;
    AllocationSize((if need > wanted then need else wanted) + EVBUFFER_CHAIN_SIZE) - EVBUFFER_CHAIN_SIZE
  }

  // A place that holds a chain pointer: &buf->first or &chain->next.
  datatype Link = First | NextOf(chain: Chain)

  ghost function Buffers(chains: seq<Chain>): set<object> {
    set c | c in chains :: c.buffer
  }

  lemma BuffersAreArrays(chains: seq<Chain>)
    ensures forall c: Chain :: c !in Buffers(chains)
    ensures forall b: Evbuffer :: b !in Buffers(chains)
    ensures forall o :: o in Buffers(chains) ==> allocated(o)
  {
  }

  ghost function Objects(chains: seq<Chain>): set<object> {
    (set c: Chain | c in chains :: c as object) + (set c: Chain | c in chains :: c.buffer as object)
  }

  lemma ObjectsOf(chain: Chain, chains: seq<Chain>)
    ensures Objects([chain] + chains) <= Objects(chains) + {chain, chain.buffer}
  {
    forall o | o in Objects([chain] + chains) ensures o in Objects(chains) + {chain, chain.buffer} {
      var c: Chain :| c in [chain] + chains && (o == c || o == c.buffer);
      if c != chain {
        assert c in chains && c in Objects(chains) && c.buffer in Objects(chains);
      }
    }
  }

  ghost predicate Apart(chains: seq<Chain>) {
    forall i, j :: 0 <= i < j < |chains| ==> chains[i] != chains[j] && chains[i].buffer != chains[j].buffer
  }

  ghost predicate Linked(chains: seq<Chain>, tail: Chain?)
    reads chains`next
  {
    forall i :: 0 <= i < |chains| ==> chains[i].next == if i + 1 < |chains| then chains[i + 1] else tail
  }

  lemma NextInList(chains: seq<Chain>, tail: Chain?, i: nat)
    requires i < |chains| && Linked(chains, tail)
    ensures chains[i].next == if i + 1 < |chains| then chains[i + 1] else tail
  {
  }

  ghost predicate Holds(chains: seq<Chain>, segs: Segments)
    reads chains`misalign, chains`off, Buffers(chains)
  {
    && |chains| == |segs|
    && forall i :: 0 <= i < |chains| ==> chains[i].Fits() && chains[i].Data() == segs[i]
  }

  // The link that points to chain k.
  ghost function LinkTo(chains: seq<Chain>, k: nat): Link
    requires k <= |chains|
  {
    if k == 0 then First else NextOf(chains[k - 1])
  }

  lemma NoLink()
    ensures LinkTo([], 0) == First
  {
  }

  lemma LinkToLonger(chains: seq<Chain>, chain: Chain, k: nat)
    requires k <= |chains|
    ensures LinkTo(chains + [chain], k) == LinkTo(chains, k)
  {
  }

  lemma SameLink(a: seq<Chain>, b: seq<Chain>, k: nat)
    requires k <= |a| && k <= |b| && (k > 0 ==> a[k - 1] == b[k - 1])
    ensures LinkTo(a, k) == LinkTo(b, k)
  {
  }

  lemma SameLinkIff(chains: seq<Chain>, a: nat, b: nat)
    requires Apart(chains) && a <= |chains| && b <= |chains|
    ensures LinkTo(chains, a) == LinkTo(chains, b) <==> a == b
  {
  }

  lemma LinkBehindChain(chains: seq<Chain>, k: nat)
    requires k < |chains|
    ensures LinkTo(chains, k + 1) == NextOf(chains[k])
  {
  }

  lemma LinkAfterCut(chains: seq<Chain>, i: nat, k: nat)
    requires i <= k <= |chains|
    ensures LinkTo(chains[i..], k - i) == if k == i then First else LinkTo(chains, k)
  {
  }

  lemma LinkToBehind(chain: Chain, chains: seq<Chain>, k: nat)
    requires k <= |chains|
    ensures LinkTo(chains, k) == First <==> k == 0
    ensures LinkTo([chain] + chains, k + 1) == if k == 0 then NextOf(chain) else LinkTo(chains, k)
  {
  }

  lemma ApartPart(chains: seq<Chain>, a: nat, b: nat)
    requires a <= b <= |chains| && Apart(chains)
    ensures Apart(chains[a..b])
  {
  }

  lemma HoldsPart(chains: seq<Chain>, segs: Segments, a: nat, b: nat)
    requires a <= b <= |chains| && Holds(chains, segs)
    ensures Holds(chains[a..b], segs[a..b])
  {
    forall i | 0 <= i < b - a ensures chains[a..b][i].Fits() && chains[a..b][i].Data() == segs[a..b][i] {
      assert chains[a..b][i] == chains[a + i];
    }
  }

  lemma HoldsConcat(c1: seq<Chain>, s1: Segments, c2: seq<Chain>, s2: Segments)
    requires Holds(c1, s1) && Holds(c2, s2)
    ensures Holds(c1 + c2, s1 + s2)
  {
  }

  // memcpy behind the data of chain k
  method AppendAt(ghost chains: seq<Chain>, ghost segs: Segments, ghost k: nat, chain: Chain, data: seq<byte>)
    requires Apart(chains) && Holds(chains, segs) && k < |chains| && chain == chains[k]
    requires chain.misalign + chain.off + |data| <= chain.buffer.Length
    modifies chain`off, chain.buffer
    ensures Holds(chains, segs[k := segs[k] + data])
  {
    ghost var was := chain.buffer[..];
    CopyBytes(chain.buffer, chain.misalign + chain.off, data);
    chain.off := chain.off + |data|;
    var m := chain.misalign;
    assert chain.buffer[m..m + |segs[k]|] == was[m..m + |segs[k]|];
    assert chain.buffer[m + |segs[k]|..m + chain.off] == data;
    assert chain.Data() == segs[k] + data;
  }

  // memcpy in front of the data of chain k
  method PrefixAt(ghost chains: seq<Chain>, ghost segs: Segments, ghost k: nat, chain: Chain, data: seq<byte>)
    requires Apart(chains) && Holds(chains, segs) && k < |chains| && chain == chains[k]
    requires |data| <= chain.misalign
    modifies chain`misalign, chain`off, chain.buffer
    ensures Holds(chains, segs[k := data + segs[k]])
    ensures chain.misalign == old(chain.misalign) - |data|
  {
    chain.Prefix(data);
  }

  // evbuffer_chain_align on chain k
  method AlignAt(ghost chains: seq<Chain>, ghost segs: Segments, ghost k: nat, chain: Chain)
    requires Apart(chains) && Holds(chains, segs) && k < |chains| && chain == chains[k]
    modifies chain`misalign, chain.buffer
    ensures Holds(chains, segs) && chain.misalign == 0
  {
    CopyBytes(chain.buffer, 0, chain.buffer[chain.misalign..chain.misalign + chain.off]);
    chain.misalign := 0;
    assert chain.Data() == segs[k];
  }

  // Skipping the first n bytes of chain k
  method DropAt(ghost chains: seq<Chain>, ghost segs: Segments, ghost k: nat, chain: Chain, n: nat)
    requires Apart(chains) && Holds(chains, segs) && k < |chains| && chain == chains[k]
    requires n <= chain.off
    modifies chain`misalign, chain`off
    ensures Holds(chains, segs[k := segs[k][n..]])
  {
    chain.misalign := chain.misalign + n;
    chain.off := chain.off - n;
  }

  // Cutting the list before chain b keeps what is before it.
  lemma LinkedPart(chains: seq<Chain>, tail: Chain?, a: nat, b: nat)
    requires a <= b <= |chains| && Linked(chains, tail)
    ensures Linked(chains[a..b], if b < |chains| then chains[b] else tail)
  {
    forall i | 0 <= i < b - a
      ensures chains[a..b][i].next ==
              if i + 1 < b - a then chains[a..b][i + 1] else if b < |chains| then chains[b] else tail
    {
      assert chains[a..b][i] == chains[a + i];
      assert chains[a + i].next == if a + i + 1 < |chains| then chains[a + i + 1] else tail;
    }
  }

  lemma LinkedConcat(c1: seq<Chain>, c2: seq<Chain>, tail: Chain?)
    requires Linked(c1, if c2 == [] then tail else c2[0]) && Linked(c2, tail)
    ensures Linked(c1 + c2, tail)
  {
    var c := c1 + c2;
    forall i | 0 <= i < |c| ensures c[i].next == if i + 1 < |c| then c[i + 1] else tail {
      if i >= |c1| {
        assert c[i] == c2[i - |c1|];
        assert c2[i - |c1|].next == if i - |c1| + 1 < |c2| then c2[i - |c1| + 1] else tail;
      } else {
        assert c[i] == c1[i];
        assert c1[i].next == if i + 1 < |c1| then c1[i + 1] else if c2 == [] then tail else c2[0];
      }
    }
    assert Linked(c, tail);
  }

  lemma ListSnoc(chains: seq<Chain>, segs: Segments, chain: Chain)
    requires Apart(chains) && Linked(chains, chain) && Holds(chains, segs)
    requires chain.next == null && chain.Fits()
    requires chain !in chains && forall c :: c in chains ==> c.buffer != chain.buffer
    ensures Apart(chains + [chain]) && Linked(chains + [chain], null)
    ensures Holds(chains + [chain], segs + [chain.Data()])
  {
    LinkedConcat(chains, [chain], null);
  }

  lemma ListFrom(chains: seq<Chain>, segs: Segments, i: nat)
    requires i < |chains| && Apart(chains) && Linked(chains, null) && Holds(chains, segs)
    ensures Apart(chains[i..]) && Linked(chains[i..], null) && Holds(chains[i..], segs[i..])
    ensures forall o :: o in Buffers(chains[i..]) ==> o in Buffers(chains)
    ensures forall o :: o in Objects(chains[i..]) ==> o in Objects(chains)
  {
    assert chains[i..] == chains[i..|chains|] && segs[i..] == segs[i..|chains|];
    ApartPart(chains, i, |chains|);
    LinkedPart(chains, null, i, |chains|);
    HoldsPart(chains, segs, i, |chains|);
  }

  lemma ListCons(chain: Chain, chains: seq<Chain>, segs: Segments, data: seq<byte>)
    requires Apart(chains) && Linked(chains, null) && Holds(chains, segs)
    requires chain.next == (if chains == [] then null else chains[0])
    requires chain.Fits() && chain.Data() == data
    requires chain !in chains && forall c :: c in chains ==> c.buffer != chain.buffer
    ensures Apart([chain] + chains) && Linked([chain] + chains, null)
    ensures Holds([chain] + chains, [data] + segs)
  {
    LinkedConcat([chain], chains, null);
  }

  class Evbuffer {
    var first: Chain?
    var last: Chain?
    var lastWithDatap: Link
    var totalLen: nat
    var freezeStart: bool
    var freezeEnd: bool
    ghost var chains: seq<Chain>
    ghost var segs: Segments

    ghost function Repr(): set<object>
      reads this`chains
    {
      Objects(chains) + {this}
    }

    ghost predicate Valid()
      reads this, chains, Buffers(chains)
    {
      && Apart(chains)
      && Linked(chains, null)
      && |chains| == |segs|
      && Holds(chains, segs)
      && first == (if chains == [] then null else chains[0])
      && last == (if chains == [] then null else chains[|chains| - 1])
      && totalLen == |Flat(segs)|
      && lastWithDatap == LinkTo(chains, LastData(segs))
    }

    ghost function Contents(): seq<byte>
      reads this`segs
    {
      Flat(segs)
    }

    // evbuffer_new
    constructor ()
      ensures Valid() && Contents() == [] && Tight(segs) && fresh(Repr())
      ensures !freezeStart && !freezeEnd
    {
      first, last, lastWithDatap, totalLen := null, null, First, 0;
      freezeStart, freezeEnd := false, false;
      chains, segs := [], [];
    }

    // *link
    function At(link: Link): Chain?
      reads this, if link.NextOf? then {link.chain} else {}
    {
      match link
      case First => first
      case NextOf(c) => c.next
    }
  
    lemma AtLink(k: nat)
      requires k <= |chains| && Linked(chains, null) && Holds(chains, segs)
      requires first == if chains == [] then null else chains[0]
      ensures At(LinkTo(chains, k)) == if k < |chains| then chains[k] else null
      ensures k < |chains| ==> chains[k].off == |segs[k]|
    {
      if k > 0 {
        NextInList(chains, null, k - 1);
      }
    }

    // *link = chain, for the link behind the chains `kept`
    method SetLink(link: Link, chain: Chain?, ghost kept: seq<Chain>, ghost held: Segments)
      requires Holds(kept, held)
      requires link == LinkTo(kept, |kept|) && Apart(kept)
      requires exists tail :: Linked(kept, tail)
      modifies this`first, kept`next
      ensures Linked(kept, chain) && Holds(kept, held)
      ensures first == if kept == [] then chain else old(first)
    {
      match link {
        case First => first := chain;
        case NextOf(c) => c.next := chain;
      }
    }

    // evbuffer_free_trailing_empty_chains: cuts the list after its last chain with data and
    // returns the link to be filled with the next chain.
    method FreeTrailingEmptyChains() returns (ch: Link)
      requires Valid()
      modifies this`first, this`chains, this`segs, chains`next
      ensures var k := EndOfData(old(segs));
              && chains == old(chains)[..k] && segs == old(segs)[..k]
              && ch == LinkTo(chains, k)
      ensures Apart(chains) && Linked(chains, null) && Holds(chains, segs)
      ensures first == if chains == [] then null else chains[0]
      ensures Contents() == old(Contents())
    {
      hide Flat, LastData, EndOfData, Apart, Linked, Holds, Buffers, LinkTo;
      CutAfterData(segs);
      ghost var k: nat := LastData(segs);
      ch := lastWithDatap;
      AtLink(k);
      while At(ch) != null && At(ch).off != 0
        invariant k <= |chains| && ch == LinkTo(chains, k)
        invariant k <= EndOfData(segs) && EndOfData(segs) <= k + 1
        invariant At(ch) == if k < |chains| then chains[k] else null
        invariant k < |chains| ==> chains[k].off == |segs[k]|
        invariant Holds(chains, segs) && Linked(chains, null)
        modifies {}
        decreases |chains| - k
      {
        if k >= EndOfData(segs) {
          assert false;
        }
        LinkBehindChain(chains, k);
        ch := NextOf(At(ch));
        k := k + 1;
        AtLink(k);
      }
      HoldsPart(chains, segs, 0, k);
      ApartPart(chains, 0, k);
      LinkedPart(chains, null, 0, k);
      ghost var kept := chains[..k];
      SameLink(kept, chains, k);
      BuffersAreArrays(kept);
      assert kept == chains[0..k] && segs[..k] == segs[0..k];
      if At(ch) != null {
        SetLink(ch, null, kept, segs[..k]);
      }
      chains, segs := kept, segs[..k];
    }
  
    lemma EmptyList()
      requires Valid()
      ensures At(lastWithDatap) == null <==> chains == []
      ensures chains == [] ==> segs == [] && lastWithDatap == First && Linked([], null) && Holds([], [])
    {
      AtLink(LastData(segs));
    }

    // The part of evbuffer_chain_insert that relinks a list that is not empty.
    method LinkAfterData(chain: Chain)
      requires Valid() && chains != []
      requires chain !in chains
      modifies this`first, this`last, this`lastWithDatap, this`chains, this`segs, chains`next
      ensures var k := EndOfData(old(segs));
              && chains == old(chains)[..k] && segs == old(segs)[..k]
              && lastWithDatap == LinkTo(chains, if chain.off > 0 || k == 0 then k else k - 1)
      ensures Apart(chains) && Linked(chains, chain) && Holds(chains, segs)
      ensures first == (if chains == [] then chain else chains[0]) && last == chain
    {
      hide Flat, LastData, EndOfData, Apart, Linked, Holds, Buffers;
      CutAfterData(segs);
      BuffersAreArrays(chains);
      var chp := FreeTrailingEmptyChains();
      SetLink(chp, chain, chains, segs);
      if chain.off > 0 {
        lastWithDatap := chp;
      }
      last := chain;
      BuffersAreArrays(chains);
    }

    // evbuffer_chain_insert
    method ChainInsert(chain: Chain)
      requires Valid()
      requires chain.Fits() && chain.next == null
      requires chain !in chains && (forall c :: c in chains ==> c.buffer != chain.buffer)
      modifies this`first, this`last, this`lastWithDatap, this`totalLen, this`chains, this`segs, chains`next
      ensures Valid()
      ensures chains == old(chains)[..EndOfData(old(segs))] + [chain]
      ensures segs == old(segs)[..EndOfData(old(segs))] + [old(chain.Data())]
    {
      hide Flat, LastData, EndOfData, Apart, Linked, Holds, Buffers, LinkTo;
      ghost var d := chain.Data();
      InsertLast(segs, d);
      EmptyList();
      NoLink();
      if At(lastWithDatap) == null {
        first, last := chain, chain;
      } else {
        LinkAfterData(chain);
      }
      totalLen := totalLen + chain.off;
      BuffersAreArrays(chains + [chain]);
      BuffersAreArrays(chains);
      ghost var kept, held := chains, segs;
      LinkToLonger(kept, chain, LastData(held + [d]));
      chains, segs := kept + [chain], held + [d];
      ListSnoc(kept, held, chain);
    }
  
    // Writing into the space behind the last data, and counting it.
    method AppendToLast(chain: Chain, data: seq<byte>)
      requires Valid() && chains != [] && chain == chains[LastData(segs)]
      requires chain.misalign + chain.off + |data| <= chain.buffer.Length
      modifies this`totalLen, this`segs, chain`off, chain.buffer
      ensures Valid()
      ensures var k := LastData(old(segs)); segs == old(segs)[k := old(segs)[k] + data]
      ensures Contents() == old(Contents()) + data
    {
      hide Flat, LastData, Apart, Linked, Holds, Buffers;
      GrowLast(segs, data);
      BuffersAreArrays(chains);
      ghost var k := LastData(segs);
      AppendAt(chains, segs, k, chain, data);
      totalLen := totalLen + |data|;
      segs := segs[k := segs[k] + data];
    }
  
    // The chain that *last_with_datap points to, or the last chain.
    function LastWithData(): (chain: Chain?)
      requires Valid()
      reads this, chains, Buffers(chains)
      ensures chain == if chains == [] then null else chains[LastData(segs)]
    {
      AtLink(LastData(segs));
      if At(lastWithDatap) == null then last else At(lastWithDatap)
    }

    lemma ReprHas()
      ensures forall c :: c in chains ==> c in Repr() && c.buffer in Repr()
      ensures forall c :: c in chains ==> c in Objects(chains) && c.buffer in Objects(chains)
    {
      forall c | c in chains ensures c in Objects(chains) && c.buffer in Objects(chains) {
      }
    }

    lemma ChainFits(k: nat)
      requires Valid() && k < |chains|
      ensures chains[k].Fits() && chains[k].off == |segs[k]|
    {
    }

    method AlignLast(chain: Chain)
      requires Valid() && chains != [] && chain == chains[LastData(segs)]
      modifies chain`misalign, chain.buffer
      ensures Valid() && chain.misalign == 0
    {
      hide Flat, LastData, Apart, Linked, Holds, Buffers;
      BuffersAreArrays(chains);
      AlignAt(chains, segs, LastData(segs), chain);
    }

    // A new chain, not yet in the list; the list is not affected.
    method NewChain(size: nat, memory: bool) returns (chain: Chain?)
      requires Valid()
      ensures Valid()
      ensures chain != null ==> chain.buffer.Length == AllocationSize(size + EVBUFFER_CHAIN_SIZE) - EVBUFFER_CHAIN_SIZE
      ensures memory && size <= CHAIN_ROOM_MAX ==> chain != null
      ensures chain != null ==> fresh(chain) && fresh(chain.buffer) && chain.Fits() && Loose(chain)
      ensures chain != null ==> chain.misalign == 0 && chain.off == 0 && chain.buffer.Length >= size
    {
      hide Flat, LastData, EndOfData, Apart, Linked, Holds;
      assert forall o :: o in Buffers(chains) ==> allocated(o);
      chain := ChainNew(size, memory);
    }

    // Not in the list, and ready to be inserted.
    ghost predicate Loose(chain: Chain)
      reads this`chains, chain`next
    {
      chain.next == null && chain !in chains && forall c :: c in chains ==> c.buffer != chain.buffer
    }

    lemma LooseBuffer(chain: Chain)
      requires Loose(chain)
      ensures chain.buffer !in Buffers(chains)
    {
    }

    // Room behind the last data.
    ghost function BackRoom(): int
      requires Valid()
      reads this, chains, Buffers(chains)
    {
      if chains == [] then 0 else chains[LastData(segs)].RoomBehind()
    }

    // The last data can be moved to the start of its chunk to make room behind it.
    ghost predicate CanRealign(n: nat)
      requires Valid()
      reads this, chains, Buffers(chains)
    {
      chains != [] && chains[LastData(segs)].ShouldRealign(n)
    }

    // Filling a new chain and inserting it.
    method InsertFilled(tmp: Chain, data: seq<byte>)
      requires Valid() && Loose(tmp) && tmp.Fits()
      requires tmp.misalign == 0 && tmp.off == 0 && |data| <= tmp.buffer.Length
      modifies this`first, this`last, this`lastWithDatap, this`totalLen, this`chains, this`segs, chains`next
      modifies tmp`off, tmp.buffer
      ensures Valid()
      ensures Objects(chains) <= old(Objects(chains)) + {tmp, tmp.buffer}
      ensures segs == old(segs)[..EndOfData(old(segs))] + [data]
      ensures chains == old(chains)[..EndOfData(old(segs))] + [tmp]
    {
      hide Flat, LastData, EndOfData, Apart, Linked, Holds;
      BuffersAreArrays(chains);
      assert tmp.buffer !in Buffers(chains);
      CopyBytes(tmp.buffer, 0, data);
      tmp.off := |data|;
      assert tmp.Data() == data;
      ChainInsert(tmp);
    }

    // evbuffer_add: appends all of data or, on failure, changes nothing.
    method Add(data: seq<byte>, memory: bool) returns (result: int)
      requires Valid()
      modifies Repr()
      ensures Valid() && forall o :: o in Repr() - old(Repr()) ==> fresh(o)
      ensures freezeStart == old(freezeStart) && freezeEnd == old(freezeEnd)
      ensures result == 0 || result == -1
      ensures freezeEnd || |data| > EV_SIZE_MAX - old(totalLen) ==> result == -1
      ensures !freezeEnd && |data| <= EV_SIZE_MAX - old(totalLen) && memory && |data| <= CHAIN_ROOM_MAX ==> result == 0
      ensures !freezeEnd && 0 < |data| <= EV_SIZE_MAX - old(totalLen) && |data| <= old(BackRoom()) ==> result == 0
      ensures !freezeEnd && |data| <= EV_SIZE_MAX - old(totalLen) && old(CanRealign(|data|)) ==> result == 0 && chains == old(chains)
      ensures Contents() == if result == 0 then old(Contents()) + data else old(Contents())
      ensures old(Tight(segs)) ==> Tight(segs)
    {
      hide Flat, LastData, EndOfData, Apart, Linked, Holds, Tight, Buffers, Objects;
      if freezeEnd {
        return -1;
      }
      if |data| > EV_SIZE_MAX - totalLen {
        return -1;
      }
      var chain := LastWithData();
      if chain == null {
        chain := NewChain(|data|, memory);
        if chain == null {
          return -1;
        }
        InsertLast(segs, []);
        EmptyList();
        InsertFilled(chain, []);
        assert Repr() <= old(Repr()) + {chain, chain.buffer};
      }
      ghost var mid := Repr();
      assert forall o :: o in mid - old(Repr()) ==> fresh(o);
      result := AddAfter(chain, data, memory);
      assert forall o :: o in Repr() - mid ==> fresh(o);
      assert forall o :: o in Repr() - old(Repr()) ==> o in Repr() - mid || o in mid - old(Repr());
    }

    // evbuffer_add once there is a chain to start from.
    method AddAfter(chain: Chain, data: seq<byte>, memory: bool) returns (result: int)
      requires Valid() && chains != [] && chain == chains[LastData(segs)]
      modifies Repr()
      ensures Valid() && forall o :: o in Repr() - old(Repr()) ==> fresh(o)
      ensures freezeStart == old(freezeStart) && freezeEnd == old(freezeEnd)
      ensures result == 0 || result == -1
      ensures Contents() == if result == 0 then old(Contents()) + data else old(Contents())
      ensures old(Tight(segs)) ==> Tight(segs)
      ensures old(chain.misalign + chain.off) + |data| <= chain.buffer.Length || old(chain.ShouldRealign(|data|)) ==>
                result == 0 && chains == old(chains)
      ensures chains == old(chains) || (chains != [] && chains[|chains| - 1].buffer.Length == NextSize(chain.buffer.Length, |data|))
      ensures memory && |data| <= CHAIN_ROOM_MAX ==> result == 0
    {
      hide Flat, LastData, EndOfData, Apart, Linked, Holds, Tight, Buffers, Objects, LinkTo;
      ReprHas();
      ChainFits(LastData(segs));
      var remain := chain.buffer.Length - chain.misalign - chain.off;
      if remain >= |data| {
        GrowLast(segs, data);
        AppendToLast(chain, data);
        return 0;
      } else if chain.ShouldRealign(|data|) {
        GrowLast(segs, data);
        AlignLast(chain);
        AppendToLast(chain, data);
        return 0;
      }
      result := AddBehind(chain, data, memory);
    }

    // The part of it that adds another chain for what does not fit.
    method AddBehind(chain: Chain, data: seq<byte>, memory: bool) returns (result: int)
      requires Valid() && chains != [] && chain == chains[LastData(segs)] && chain.RoomBehind() < |data|
      modifies Repr()
      ensures Valid() && forall o :: o in Repr() - old(Repr()) ==> fresh(o)
      ensures freezeStart == old(freezeStart) && freezeEnd == old(freezeEnd)
      ensures result == 0 || result == -1
      ensures Contents() == if result == 0 then old(Contents()) + data else old(Contents())
      ensures old(Tight(segs)) ==> Tight(segs)
      ensures memory && |data| <= CHAIN_ROOM_MAX ==> result == 0
      ensures if result == 0 then chains != [] && chains[|chains| - 1].buffer.Length == NextSize(chain.buffer.Length, |data|)
              else chains == old(chains)
    {
      hide Flat, LastData, EndOfData, Apart, Linked, Holds, Tight, Buffers, Objects, LinkTo, AllocationSize;
      ReprHas();
      ChainFits(LastData(segs));
      var remain := chain.RoomBehind();
      var toAlloc := chain.buffer.Length;
      if toAlloc <= EVBUFFER_CHAIN_MAX_AUTO_SIZE / 2 {
        toAlloc := 2 * toAlloc;
      }
      if |data| > toAlloc {
        toAlloc := |data|;
      }
      var tmp := NewChain(toAlloc, memory);
      if tmp == null {
        return -1;
      }
      GrowLast(segs, data[..remain]);
      if remain > 0 {
        AppendToLast(chain, data[..remain]);
      }
      InsertLast(segs, data[remain..]);
      InsertFilled(tmp, data[remain..]);
      return 0;
    }
  
    // advance_last_with_data: the link moves on while the next chain holds data.
    method AdvanceLastWithData(ghost k: nat)
      requires k <= |chains| == |segs| && lastWithDatap == LinkTo(chains, k)
      requires Linked(chains, null) && Holds(chains, segs)
      requires first == if chains == [] then null else chains[0]
      modifies this`lastWithDatap
      ensures lastWithDatap == LinkTo(chains, WithDataFrom(segs, k))
      ensures Linked(chains, null) && Holds(chains, segs)
    {
      hide Linked, Holds, Buffers;
      BuffersAreArrays(chains);
      AtLink(k);
      if At(lastWithDatap) == null { return; }
      ghost var n: nat := k;
      NextLink(n);
      while At(lastWithDatap).next != null && At(lastWithDatap).next.off != 0
        invariant k <= n < |chains| && lastWithDatap == LinkTo(chains, n)
        invariant WithDataFrom(segs, k) == WithDataFrom(segs, n)
        invariant Linked(chains, null) && Holds(chains, segs)
        invariant At(lastWithDatap) == chains[n]
        invariant chains[n].next == (if n + 1 < |chains| then chains[n + 1] else null)
        invariant n + 1 < |chains| ==> chains[n + 1].off == |segs[n + 1]|
        modifies this`lastWithDatap
        decreases |chains| - n
      {
        lastWithDatap := NextOf(At(lastWithDatap));
        n := n + 1;
        AtLink(n);
        NextLink(n);
      }
    }

    lemma NextLink(n: nat)
      requires n < |chains| && Linked(chains, null) && Holds(chains, segs)
      ensures chains[n].next == (if n + 1 < |chains| then chains[n + 1] else null)
      ensures n + 1 < |chains| ==> chains[n + 1].off == |segs[n + 1]|
    {
    }

    // Room in front of the first data.
    ghost function FrontRoom(): nat
      requires Valid()
      reads this, chains, Buffers(chains)
    {
      if chains == [] then 0 else if first.off == 0 then first.buffer.Length else first.misalign
    }

    // Making all of an empty first chain room in front.
    method OpenFront(chain: Chain)
      requires Valid() && chains != [] && chain == chains[0]
      modifies chain`misalign
      ensures Valid() && chain.misalign == old(FrontRoom())
      ensures segs[0] == [] ==> chain.misalign > 0
    {
      hide Flat, LastData;
      ChainFits(0);
      if chain.off == 0 {
        chain.misalign := chain.buffer.Length;
        assert chain.Data() == [];
      }
    }

    method PrefixFirst(chain: Chain, data: seq<byte>)
      requires Valid() && chains != [] && chain == chains[0]
      requires |data| <= chain.misalign
      modifies this`totalLen, this`segs, chain`misalign, chain`off, chain.buffer
      ensures Valid() && chain.misalign == old(chain.misalign) - |data|
      ensures segs == old(segs)[0 := data + old(segs)[0]]
      ensures Contents() == data + old(Contents())
    {
      hide Flat, LastData, Apart, Linked, Holds, Buffers;
      GrowFirst(segs, data);
      BuffersAreArrays(chains);
      PrefixAt(chains, segs, 0, chain, data);
      totalLen := totalLen + |data|;
      segs := segs[0 := data + segs[0]];
    }

    // A new first chain, with its data at the end of its room.
    method LinkFirst(tmp: Chain, chain: Chain, data: seq<byte>)
      requires Valid() && chains != [] && chain == chains[0] && segs[LastData(segs)] != []
      requires Loose(tmp) && tmp.Fits() && |data| <= tmp.buffer.Length
      modifies this`first, this`lastWithDatap, this`totalLen, this`chains, this`segs
      modifies tmp, tmp.buffer
      ensures Valid()
      ensures chains == [tmp] + old(chains) && segs == [data] + old(segs)
      ensures Contents() == data + old(Contents())
    {
      hide Flat, LastData, Buffers, Apart, Linked, Holds, LinkTo, Chain.Data;
      InsertFirst(segs, data);
      BuffersAreArrays(chains);
      LooseBuffer(tmp);
      LinkToBehind(tmp, chains, LastData(segs));
      ghost var chains0, segs0 := chains, segs;
      tmp.FillAtEnd(chain, data);
      first := tmp;
      if lastWithDatap == First {
        lastWithDatap := NextOf(tmp);
      }
      totalLen := totalLen + |data|;
      chains, segs := [tmp] + chains0, [data] + segs0;
      ListCons(tmp, chains0, segs0, data);
    }
  
    // evbuffer_prepend: puts data in front of the contents. When the second allocation fails
    // the bytes that fitted into the first chain stay.
    method Prepend(data: seq<byte>, memory: bool) returns (result: int)
      requires Valid()
      modifies Repr()
      ensures Valid() && forall o :: o in Repr() - old(Repr()) ==> fresh(o)
      ensures freezeStart == old(freezeStart) && freezeEnd == old(freezeEnd)
      ensures result == 0 || result == -1
      ensures result == 0 ==> Contents() == data + old(Contents())
      ensures !freezeStart && |data| <= EV_SIZE_MAX - old(totalLen) && memory && |data| <= CHAIN_ROOM_MAX ==> result == 0
      ensures freezeStart || |data| > EV_SIZE_MAX - old(totalLen) ==>
                result == -1 && Contents() == old(Contents())
      ensures result == -1 && !freezeStart && |data| <= EV_SIZE_MAX - old(totalLen) ==>
                old(FrontRoom()) <= |data| && Contents() == data[|data| - old(FrontRoom())..] + old(Contents())
      ensures old(Tight(segs)) ==> Tight(segs)
    {
      hide Flat, LastData, EndOfData, Apart, Linked, Holds, Tight, Buffers, Objects;
      if freezeStart {
        return -1;
      }
      if |data| > EV_SIZE_MAX - totalLen {
        return -1;
      }
      var chain := first;
      if chain == null {
        EmptyList();
        chain := NewChain(|data|, memory);
        if chain == null {
          assert data[|data|..] == [];
          return -1;
        }
        InsertLast(segs, []);
        InsertFilled(chain, []);
        assert Repr() <= old(Repr()) + {chain, chain.buffer};
      }
      ghost var mid := Repr();
      assert forall o :: o in mid - old(Repr()) ==> fresh(o);
      result := PrependBefore(chain, data, memory);
      assert forall o :: o in Repr() - mid ==> fresh(o);
      assert forall o :: o in Repr() - old(Repr()) ==> o in Repr() - mid || o in mid - old(Repr());
    }

    // evbuffer_prepend once there is a first chain.
    method PrependBefore(chain: Chain, data: seq<byte>, memory: bool) returns (result: int)
      requires Valid() && chains != [] && chain == chains[0]
      modifies Repr()
      ensures Valid() && forall o :: o in Repr() - old(Repr()) ==> fresh(o)
      ensures freezeStart == old(freezeStart) && freezeEnd == old(freezeEnd)
      ensures result == 0 || result == -1
      ensures |data| <= old(FrontRoom()) || (memory && |data| <= CHAIN_ROOM_MAX) ==> result == 0
      ensures result == 0 ==> Contents() == data + old(Contents())
      ensures result == -1 ==> old(FrontRoom()) <= |data| && Contents() == data[|data| - old(FrontRoom())..] + old(Contents())
      ensures old(Tight(segs)) ==> Tight(segs)
    {
      hide Flat, LastData, EndOfData, Apart, Linked, Holds, Tight, Buffers, Objects;
      ReprHas();
      OpenFront(chain);
      var room := chain.misalign;
      if room >= |data| {
        GrowFirst(segs, data);
        PrefixFirst(chain, data);
        return 0;
      }
      GrowFirst(segs, data[|data| - room..]);
      if room > 0 {
        PrefixFirst(chain, data[|data| - room..]);
      }
      var rest := data[..|data| - room];
      assert data == rest + data[|data| - room..];
      var tmp := NewChain(|rest|, memory);
      if tmp == null {
        return -1;
      }
      NonEmptyHasLast(segs, 0);
      InsertFirst(segs, rest);
      ObjectsOf(tmp, chains);
      LinkFirst(tmp, chain, rest);
      return 0;
    }
  
    // evbuffer_drain: drops the first len bytes, or all of them.
    method Drain(len: nat) returns (result: int)
      requires Valid()
      modifies this, chains`misalign, chains`off
      ensures Valid() && Repr() <= old(Repr())
      ensures freezeStart == old(freezeStart) && freezeEnd == old(freezeEnd)
      ensures result == if old(totalLen) > 0 && freezeStart then -1 else 0
      ensures Contents() == if result == 0 then old(Contents())[Min(len, old(totalLen))..] else old(Contents())
      ensures old(Tight(segs)) ==> Tight(segs)
    {
      hide Flat, LastData, EndOfData, Apart, Linked, Holds, Buffers;
      if totalLen == 0 {
        return 0;
      }
      if freezeStart {
        return -1;
      }
      if len >= totalLen {
        ZeroChain();
      } else {
        DrainSome(len);
      }
      return 0;
    }

    // ZERO_CHAIN
    method ZeroChain()
      modifies this`first, this`last, this`lastWithDatap, this`totalLen, this`chains, this`segs
      ensures Valid() && chains == [] && segs == [] && Contents() == []
    {
      first, last, lastWithDatap, totalLen := null, null, First, 0;
      chains, segs := [], [];
    }

    // Chain i is not the one that a later link points to, and precedes only its successor's.
    lemma OtherLinks(i: nat, k: nat)
      requires i < k < |chains| && Apart(chains) && Linked(chains, null) && Holds(chains, segs)
      requires first == chains[0]
      ensures At(LinkTo(chains, k)) != chains[i]
      ensures LinkTo(chains, k) == NextOf(chains[i]) <==> k == i + 1
      ensures chains[i].next == chains[i + 1] && chains[i + 1].off == |segs[i + 1]|
    {
      AtLink(k);
      AtLink(i + 1);
    }

    // The chain that holds byte `len`, the bytes of it that come before, and the adjusted
    // last_with_datap: the walk of evbuffer_drain and of evbuffer_remove_buffer, which also
    // keeps the previous chain.
    method DrainWalk(len: nat) returns (ghost i: nat, previous: Chain?, chain: Chain, remaining: nat)
      requires Valid() && len < totalLen
      modifies this`lastWithDatap
      ensures Apart(chains) && Linked(chains, null) && Holds(chains, segs)
      ensures i < |chains| && chain == chains[i] && i <= LastData(segs) < |segs| && segs[LastData(segs)] != []
      ensures remaining < |segs[i]| == chain.off && remaining <= len
      ensures previous == if i == 0 then null else chains[i - 1]
      ensures Flat(segs[i..])[remaining..] == Contents()[len..]
      ensures lastWithDatap == if LastData(segs) == i then First else LinkTo(chains, LastData(segs))
    {
      hide Flat, LastData, EndOfData, Apart, Linked, Holds, Buffers;
      i := 0;
      assert segs[0..] == segs;
      ghost var lastData := LastData(segs);
      DataLeft(segs, 0);
      ChainFits(0);
      BuffersAreArrays(chains);
      previous, chain, remaining := null, first, len;
      while remaining >= chain.off
        invariant Linked(chains, null) && Holds(chains, segs)
        invariant i <= lastData && chain == chains[i] && chain.off == |segs[i]|
        invariant previous == if i == 0 then null else chains[i - 1]
        invariant remaining < |Flat(segs[i..])| && remaining <= len && Flat(segs[i..])[remaining..] == Contents()[len..]
        invariant lastWithDatap == if lastData == i then First else LinkTo(chains, lastData)
        modifies this`lastWithDatap
        decreases |chains| - i
      {
        WalkPast(segs, i, remaining);
        DataLeft(segs, i + 1);
        OtherLinks(i, lastData);
        if chain == At(lastWithDatap) || lastWithDatap == NextOf(chain) {
          lastWithDatap := First;
        }
        remaining := remaining - chain.off;
        previous, chain := chain, chain.next;
        i := i + 1;
      }
    }

    // The list from chain i on; what comes before is freed.
    method CutFront(chain: Chain, ghost i: nat)
      requires i < |chains| == |segs| && chain == chains[i]
      requires Apart(chains) && Linked(chains, null) && Holds(chains, segs)
      modifies this`first, this`chains, this`segs
      ensures chains == old(chains)[i..] && segs == old(segs)[i..]
      ensures Apart(chains) && Linked(chains, null) && Holds(chains, segs)
      ensures first == chains[0] && chains[|chains| - 1] == old(chains)[|old(chains)| - 1]
      ensures Repr() <= old(Repr())
    {
      hide Apart, Linked, Holds, Buffers;
      BuffersAreArrays(chains);
      ListFrom(chains, segs, i);
      first := chain;
      chains, segs := chains[i..], segs[i..];
    }

    method DrainSome(len: nat)
      requires Valid() && len < totalLen
      modifies this`first, this`lastWithDatap, this`totalLen, this`chains, this`segs, chains`misalign, chains`off
      ensures Valid() && Repr() <= old(Repr())
      ensures Contents() == old(Contents())[len..]
      ensures old(Tight(segs)) ==> Tight(segs)
    {
      hide Flat, LastData, EndOfData, Apart, Linked, Holds, Buffers, Tight, Objects;
      ghost var i;
      var previous, chain, remaining;
      i, previous, chain, remaining := DrainWalk(len);
      DropChains(segs, i);
      DropBytes(segs[i..], remaining);
      BuffersAreArrays(chains);
      CutFront(chain, i);
      BuffersAreArrays(chains);
      totalLen := totalLen - len;
      DropAt(chains, segs, 0, chain, remaining);
      segs := segs[0 := segs[0][remaining..]];
    }
  }

  function Min(a: nat, b: nat): nat {
    if a < b then a else b
  }
}
