/** Positions in a buffer, and reading, comparing and searching across its chains. */
module EvbufferSearch {
  import opened ByteSegments
  import opened Evbuffers
  import opened Options
  import opened Words

  // struct evbuffer_ptr
  datatype Ptr = Ptr(pos: int, chain: Chain?, posInChain: nat)

  const NOT_FOUND := Ptr(-1, null, 0)

  datatype PtrHow = Set | Add

  // p points into chain i of buf, or behind the last chain.
  ghost predicate PtrAt(buf: Evbuffer, p: Ptr, i: nat)
    reads buf
  {
    && i <= |buf.chains| == |buf.segs|
    && p.pos == |Flat(buf.segs[..i])| + p.posInChain
    && if i < |buf.chains| then p.chain == buf.chains[i] && p.posInChain <= |buf.segs[i]| else p.chain == null && p.posInChain == 0
  }

  ghost predicate PtrOk(buf: Evbuffer, p: Ptr)
    reads buf
  {
    exists i :: PtrAt(buf, p, i)
  }

  // memcmp on blocks of equal length
  function Memcmp(a: seq<byte>, b: seq<byte>): (r: int)
    requires |a| == |b|
    ensures r == 0 <==> a == b
  {
    if a == [] then 0
    else if a[0] < b[0] then -1
    else if a[0] > b[0] then 1
    else
      assert a == [a[0]] + a[1..] && b == [b[0]] + b[1..];
      Memcmp(a[1..], b[1..])
  }

  // memchr: the first index of c, or |a| if there is none
  function Memchr(a: seq<byte>, c: byte): (k: nat)
    ensures k <= |a| && (k < |a| ==> a[k] == c)
    ensures forall j :: 0 <= j < k ==> a[j] != c
  {
    if a == [] || a[0] == c then 0 else 1 + Memchr(a[1..], c)
  }

  lemma {:induction false} MemcmpConcat(a: seq<byte>, b: seq<byte>, x: seq<byte>, y: seq<byte>)
    requires |a| == |b| && |x| == |y|
    ensures Memcmp(a + x, b + y) == if a == b then Memcmp(x, y) else Memcmp(a, b)
    decreases |a|
  {
    if a == [] {
      assert a + x == x && b + y == y;
    } else {
      assert (a + x)[1..] == a[1..] + x && (b + y)[1..] == b[1..] + y;
      MemcmpConcat(a[1..], b[1..], x, y);
      assert a == [a[0]] + a[1..] && b == [b[0]] + b[1..];
    }
  }

  // The bytes from position t of chain i on.
  lemma FlatFrom(segs: Segments, i: nat, t: nat)
    requires i < |segs| && t <= |segs[i]|
    ensures var p := |Flat(segs[..i])| + t;
            && p <= |Flat(segs)|
            && Flat(segs)[p..] == segs[i][t..] + Flat(segs[i + 1..])
            && |Flat(segs[..i + 1])| == |Flat(segs[..i])| + |segs[i]|
  {
    FlatSplit(segs, i);
    assert segs[..i + 1] == segs[..i] + [segs[i]];
    FlatConcat(segs[..i], [segs[i]]);
    assert Flat([segs[i]]) == segs[i];
  }

  lemma FlatAll(segs: Segments)
    ensures Flat(segs[..|segs|]) == Flat(segs) && Flat(segs[..0]) == []
  {
    assert segs[..|segs|] == segs;
  }

  lemma ChainOf(buf: Evbuffer, i: nat)
    requires buf.Valid() && i < |buf.chains|
    ensures var c := buf.chains[i];
            && c.Fits() && c.off == |buf.segs[i]|
            && c.buffer[c.misalign..c.misalign + c.off] == buf.segs[i]
            && c.next == if i + 1 < |buf.chains| then buf.chains[i + 1] else null
  {
  }

  lemma Lengths(buf: Evbuffer)
    requires buf.Valid()
    ensures buf.totalLen == |buf.Contents()| && |buf.chains| == |buf.segs|
    ensures buf.first == if buf.chains == [] then null else buf.chains[0]
  {
  }

  // evbuffer_ptr_set: fails exactly for positions beyond the end.
  method PtrSet(buf: Evbuffer, pos: Ptr, position: nat, how: PtrHow) returns (result: int, p: Ptr)
    requires buf.Valid() && (how == Add ==> pos.pos < 0 || PtrOk(buf, pos))
    ensures how == Add && (pos.pos < 0 || EV_SIZE_MAX - position < pos.pos) ==> result == -1 && p == pos
    ensures how == Set || (pos.pos >= 0 && EV_SIZE_MAX - position >= pos.pos) ==>
              var target := if how == Set then position else pos.pos + position;
              if target <= buf.totalLen
              then result == 0 && p.pos == target && PtrOk(buf, p) && (p.chain != null ==> p.posInChain < p.chain.off)
              else result == -1 && p == NOT_FOUND
  {
    hide Flat, LastData, Apart, Linked, Holds, Buffers;
    var left: nat := position;
    var chain: Chain?;
    var inChain: nat;
    ghost var i: nat;
    FlatAll(buf.segs);
    match how {
      case Set =>
        chain, inChain, i := buf.first, 0, 0;
        p := NOT_FOUND.(pos := position);
      case Add =>
        if pos.pos < 0 || EV_SIZE_MAX - position < pos.pos {
          return -1, pos;
        }
        chain, inChain := pos.chain, pos.posInChain;
        i :| PtrAt(buf, pos, i);
        p := NOT_FOUND.(pos := pos.pos + position);
    }
    BuffersAreArrays(buf.chains);
    while chain != null && inChain + left >= chain.off
      invariant buf.Valid() && i <= |buf.chains|
      invariant if i < |buf.chains| then chain == buf.chains[i] && inChain <= |buf.segs[i]| else chain == null && inChain == 0
      invariant |Flat(buf.segs[..i])| + inChain + left == p.pos
      decreases |buf.chains| - i
    {
      ChainOf(buf, i);
      FlatFrom(buf.segs, i, 0);
      left := left - (chain.off - inChain);
      chain := chain.next;
      inChain := 0;
      i := i + 1;
    }
    if chain != null {
      ChainOf(buf, i);
      FlatFrom(buf.segs, i, inChain + left);
      p := Ptr(p.pos, chain, inChain + left);
      assert PtrAt(buf, p, i);
      result := 0;
    } else if left == 0 {
      p := Ptr(p.pos, null, 0);
      assert PtrAt(buf, p, i);
      result := 0;
    } else {
      p := NOT_FOUND;
      result := -1;
    }
  }

  // evbuffer_ptr_memcmp: like memcmp on the flat contents, or -1 when they are too short.
  method PtrMemcmp(buf: Evbuffer, pos: Ptr, mem: seq<byte>) returns (r: int)
    requires buf.Valid() && buf.totalLen <= EV_SIZE_MAX && (pos.pos < 0 || PtrOk(buf, pos))
    ensures pos.pos < 0 || pos.pos + |mem| > buf.totalLen ==> r == -1
    ensures 0 <= pos.pos && pos.pos + |mem| <= buf.totalLen ==>
              r == Memcmp(buf.Contents()[pos.pos..pos.pos + |mem|], mem)
  {
    hide Flat, LastData, Apart, Linked, Holds, Buffers, Memcmp, CompareFrom, Bytes, Evbuffer.Valid;
    Lengths(buf);
    if pos.pos < 0 || EV_SIZE_MAX - |mem| < pos.pos || pos.pos + |mem| > buf.totalLen {
      return -1;
    }
    ghost var i: nat :| PtrAt(buf, pos, i);
    ghost var all := buf.Contents();
    CompareEnds(all, mem, pos.pos);
    var chain := pos.chain;
    var position: nat, at: nat := pos.posInChain, 0;
    BuffersAreArrays(buf.chains);
    FlatAll(buf.segs);
    while at < |mem| && chain != null
      invariant buf.Valid() && i <= |buf.chains| && at <= |mem|
      invariant if i < |buf.chains| then chain == buf.chains[i] && position <= |buf.segs[i]| else chain == null && position == 0
      invariant at < |mem| ==> |Flat(buf.segs[..i])| + position == pos.pos + at
      invariant CompareFrom(all, mem, pos.pos, at) == CompareFrom(all, mem, pos.pos, 0)
      decreases |buf.chains| - i
    {
      ChainOf(buf, i);
      FlatFrom(buf.segs, i, position);
      var n := if |mem| - at + position > chain.off then chain.off - position else |mem| - at;
      BlockIs(buf, i, position, n);
      SplitCompare(all, mem, pos.pos, at, n);
      r := Memcmp(Bytes(chain, position, n), mem[at..at + n]);
      if r != 0 {
        return;
      }
      at, position, chain, i := at + n, 0, chain.next, i + 1;
    }
    r := 0;
  }

  lemma EqualCompare(a: seq<byte>, b: seq<byte>)
    requires |a| == |b|
    ensures Memcmp(a, b) == 0 <==> a == b
  {
  }

  // n bytes of a chain from position t on
  function Bytes(c: Chain, t: nat, n: nat): (b: seq<byte>)
    requires c.Fits() && t + n <= c.off
    reads c, c.buffer
    ensures |b| == n
  {
    c.buffer[c.misalign + t..c.misalign + t + n]
  }

  // They are a slice of the flat contents.
  lemma BlockIs(buf: Evbuffer, i: nat, t: nat, n: nat)
    requires buf.Valid() && i < |buf.chains| && t + n <= |buf.segs[i]|
    ensures var p := |Flat(buf.segs[..i])| + t; var c := buf.chains[i];
            && p + n <= |buf.Contents()| && c.Fits() && t + n <= c.off
            && Bytes(c, t, n) == buf.Contents()[p..p + n]
  {
    hide Flat;
    ChainOf(buf, i);
    var segs := buf.segs;
    FlatFrom(segs, i, t);
    var p := |Flat(segs[..i])| + t;
    assert Flat(segs)[p..p + n] == Flat(segs)[p..][..n] == segs[i][t..][..n];
    var c := buf.chains[i];
    SubSlice(c.buffer[..], c.misalign, c.off, t, n);
    assert c.buffer[c.misalign..c.misalign + c.off] == c.buffer[..][c.misalign..c.misalign + c.off];
    assert c.buffer[c.misalign + t..c.misalign + t + n] == c.buffer[..][c.misalign + t..c.misalign + t + n];
  }

  lemma SubSlice(s: seq<byte>, a: nat, len: nat, t: nat, n: nat)
    requires a + len <= |s| && t + n <= len
    ensures s[a..a + len][t..t + n] == s[a + t..a + t + n]
    ensures s[a..a + len][t..][..n] == s[a + t..a + t + n]
  {
    var u, v := s[a..a + len][t..t + n], s[a + t..a + t + n];
    forall k | 0 <= k < n ensures u[k] == v[k] {
      assert u[k] == s[a..a + len][t + k] == s[a + t + k];
    }
  }

  // The comparison of mem from byte `at` on with the contents at p + at.
  function CompareFrom(all: seq<byte>, mem: seq<byte>, p: nat, at: nat): int
    requires at <= |mem| && p + |mem| <= |all|
  {
    Memcmp(all[p + at..p + |mem|], mem[at..])
  }

  // Comparing a block of n bytes first.
  lemma SplitCompare(all: seq<byte>, mem: seq<byte>, p: nat, at: nat, n: nat)
    requires at + n <= |mem| && p + |mem| <= |all|
    ensures var r := Memcmp(all[p + at..p + at + n], mem[at..at + n]);
            CompareFrom(all, mem, p, at) == if r == 0 then CompareFrom(all, mem, p, at + n) else r
  {
    hide Memcmp;
    EqualCompare(all[p + at..p + at + n], mem[at..at + n]);
    MemcmpConcat(all[p + at..p + at + n], mem[at..at + n], all[p + at + n..p + |mem|], mem[at + n..]);
    assert all[p + at..p + |mem|] == all[p + at..p + at + n] + all[p + at + n..p + |mem|];
    assert mem[at..] == mem[at..at + n] + mem[at + n..];
  }

  lemma CompareEnds(all: seq<byte>, mem: seq<byte>, p: nat)
    requires p + |mem| <= |all|
    ensures CompareFrom(all, mem, p, 0) == Memcmp(all[p..p + |mem|], mem)
    ensures CompareFrom(all, mem, p, |mem|) == 0
  {
    hide Memcmp;
    EqualCompare([], []);
    assert mem[0..] == mem && all[p + |mem|..p + |mem|] == [] && mem[|mem|..] == [];
  }

  // evbuffer_copyout_from, without a position (pos is None) or from one.
  method CopyoutFrom(buf: Evbuffer, pos: Option<Ptr>, datlen: nat) returns (n: int, data: seq<byte>)
    requires buf.Valid() && (pos.Some? ==> PtrOk(buf, pos.value))
    ensures var from: int := if pos.Some? then pos.value.pos else 0;
            && 0 <= from <= buf.totalLen
            && (if pos.Some? && datlen > EV_SSIZE_MAX - from then n == -1
                else if Min(datlen, buf.totalLen - from) == 0 then n == 0
                else if buf.freezeStart then n == -1
                else n == Min(datlen, buf.totalLen - from))
            && data == if n > 0 then buf.Contents()[from..from + n] else []
  {
    hide Flat, LastData, Apart, Linked, Holds, Buffers, Evbuffer.Valid;
    Lengths(buf);
    FlatAll(buf.segs);
    data := [];
    var chain := buf.first;
    var inChain: nat, len: nat, from: int := 0, datlen, 0;
    ghost var i: nat := 0;
    if pos.Some? {
      from := pos.value.pos;
      i :| PtrAt(buf, pos.value, i);
      PtrBound(buf, pos.value, i);
      if datlen > EV_SSIZE_MAX - from {
        return -1, [];
      }
      chain, inChain := pos.value.chain, pos.value.posInChain;
    }
    if len > buf.totalLen - from {
      len := buf.totalLen - from;
    }
    if len == 0 {
      return 0, [];
    }
    if buf.freezeStart {
      return -1, [];
    }
    n := len;
    data := CopyFrom(buf, chain, inChain, len, from, i);
  }

  lemma PtrBound(buf: Evbuffer, p: Ptr, i: nat)
    requires buf.Valid() && PtrAt(buf, p, i)
    ensures 0 <= p.pos <= buf.totalLen
  {
    if i < |buf.chains| {
      FlatFrom(buf.segs, i, p.posInChain);
    } else {
      FlatAll(buf.segs);
    }
  }

  lemma SliceMore(s: seq<byte>, done: seq<byte>, more: seq<byte>, a: nat, b: nat, c: nat)
    requires a <= b <= c <= |s| && done == s[a..b] && more == s[b..c]
    ensures done + more == s[a..c]
  {
  }

  // A position before the end is in a chain.
  lemma InSomeChain(buf: Evbuffer, p: Ptr, i: nat)
    requires buf.Valid() && PtrAt(buf, p, i) && p.pos < buf.totalLen
    ensures i < |buf.chains| && p.chain == buf.chains[i] && p.posInChain <= buf.chains[i].off == |buf.segs[i]|
  {
    hide Flat, LastData, Apart, Linked, Buffers;
    FlatAll(buf.segs);
  }

  lemma PtrIndex(buf: Evbuffer, p: Ptr, i: nat)
    requires PtrAt(buf, p, i)
    ensures i <= |buf.chains|
  {
  }

  lemma BlockAt(buf: Evbuffer, p: Ptr, i: nat, n: nat)
    requires buf.Valid() && PtrAt(buf, p, i) && i < |buf.chains| && p.posInChain + n <= |buf.segs[i]|
    ensures var c := buf.chains[i];
            && c.Fits() && p.posInChain + n <= c.off && 0 <= p.pos && p.pos + n <= |buf.Contents()|
            && Bytes(c, p.posInChain, n) == buf.Contents()[p.pos..p.pos + n]
  {
    BlockIs(buf, i, p.posInChain, n);
  }

  // The start of the next chain.
  lemma NextChain(buf: Evbuffer, p: Ptr, i: nat)
    requires buf.Valid() && PtrAt(buf, p, i) && i < |buf.chains|
    ensures var c := buf.chains[i];
            PtrAt(buf, Ptr(p.pos + c.off - p.posInChain, c.next, 0), i + 1)
  {
    hide Flat, LastData, Apart, Buffers, Linked, Holds;
    ChainOf(buf, i);
    FlatFrom(buf.segs, i, 0);
    Lengths(buf);
  }

  // The copying loop: whole chains, then a part of one.
  method CopyFrom(buf: Evbuffer, start: Chain?, position: nat, len: nat, from: nat,
                  ghost first: nat) returns (data: seq<byte>)
    requires buf.Valid() && from + len <= buf.totalLen
    requires PtrAt(buf, Ptr(from, start, position), first)
    ensures from + len <= |buf.Contents()| && data == buf.Contents()[from..from + len]
  {
    hide Flat, LastData, Apart, Linked, Holds, Buffers, Bytes, PtrAt, Evbuffer.Valid, Evbuffer.Contents;
    Lengths(buf);
    PtrIndex(buf, Ptr(from, start, position), first);
    var chain := start;
    var inChain: nat, left: nat := position, len;
    ghost var i := first;
    data := [];
    if left > 0 {
      InSomeChain(buf, Ptr(from, chain, inChain), i);
    }
    while left > 0 && left >= chain.off - inChain
      invariant buf.Valid() && left <= len && i <= |buf.chains|
      invariant PtrAt(buf, Ptr(from + len - left, chain, inChain), i)
      invariant left > 0 ==>
                  i < |buf.chains| && chain == buf.chains[i] && inChain <= chain.off == |buf.segs[i]|
      invariant data == buf.Contents()[from..from + len - left]
      decreases |buf.chains| - i
    {
      ghost var at := from + len - left;
      var n := chain.off - inChain;
      BlockAt(buf, Ptr(at, chain, inChain), i, n);
      NextChain(buf, Ptr(at, chain, inChain), i);
      SliceMore(buf.Contents(), data, Bytes(chain, inChain, n), from, at, at + n);
      data := data + Bytes(chain, inChain, n);
      left := left - n;
      chain, inChain, i := chain.next, 0, i + 1;
      if left > 0 {
        InSomeChain(buf, Ptr(from + len - left, chain, inChain), i);
      }
    }
    if left > 0 {
      BlockAt(buf, Ptr(from + len - left, chain, inChain), i, left);
      SliceMore(buf.Contents(), data, Bytes(chain, inChain, left), from, from + len - left, from + len);
      data := data + Bytes(chain, inChain, left);
    }
  }

  // evbuffer_remove: what was read is what was dropped.
  method Remove(buf: Evbuffer, datlen: nat) returns (n: int, data: seq<byte>)
    requires buf.Valid()
    modifies buf, buf.chains`misalign, buf.chains`off
    ensures buf.Valid() && buf.Repr() <= old(buf.Repr())
    ensures n == if Min(datlen, old(buf.totalLen)) == 0 then 0 else if old(buf.freezeStart) then -1 else Min(datlen, old(buf.totalLen))
    ensures n >= 0 ==> old(buf.Contents()) == data + buf.Contents() && |data| == n
    ensures n < 0 ==> buf.Contents() == old(buf.Contents())
    ensures old(Tight(buf.segs)) ==> Tight(buf.segs)
  {
    hide Flat, LastData, Apart, Linked, Holds, Buffers, Tight, Evbuffer.Valid;
    Lengths(buf);
    BuffersAreArrays(buf.chains);
    n, data := CopyoutFrom(buf, None, datlen);
    if n > 0 {
      var r := buf.Drain(n);
      if r < 0 {
        n := -1;
      }
    }
  }

  ghost predicate Occurs(all: seq<byte>, what: seq<byte>, q: int) {
    0 <= q && q + |what| <= |all| && all[q..q + |what|] == what
  }

  // No occurrence starts at a position from a up to, but not including, b.
  ghost predicate NoneIn(all: seq<byte>, what: seq<byte>, a: int, b: int) {
    forall q :: a <= q < b ==> !Occurs(all, what, q)
  }

  // evbuffer_search_range: the first occurrence at or after start that ends by end.
  method SearchRange(buf: Evbuffer, what: seq<byte>, start: Option<Ptr>, end: Option<Ptr>) returns (p: Ptr)
    requires buf.Valid() && buf.totalLen <= EV_SIZE_MAX
    requires (start.Some? ==> PtrOk(buf, start.value)) && (end.Some? ==> PtrOk(buf, end.value))
    ensures what == [] || |what| > EV_SSIZE_MAX ==> p == if start.Some? then start.value else Ptr(0, buf.first, 0)
    ensures var from: int := if start.Some? then start.value.pos else 0;
            var limit: int := if end.Some? then end.value.pos else buf.totalLen;
            what != [] && |what| <= EV_SSIZE_MAX ==>
              if p.pos >= 0
              then PtrOk(buf, p) && Occurs(buf.Contents(), what, p.pos) && from <= p.pos && p.pos + |what| <= limit && NoneIn(buf.Contents(), what, from, p.pos)
              else p == NOT_FOUND && NoneIn(buf.Contents(), what, from, limit - |what| + 1)
  {
    hide Flat, LastData, Apart, Linked, Holds, Buffers, Evbuffer.Valid, Occurs, NoneIn;
    Lengths(buf);
    FlatAll(buf.segs);
    p := if start.Some? then start.value else Ptr(0, buf.first, 0);
    if what == [] || |what| > EV_SSIZE_MAX {
      return;
    }
    ghost var i: nat;
    if start.Some? {
      i :| PtrAt(buf, p, i);
    } else {
      i := 0;
    }
    PtrBound(buf, p, i);
    p := SearchFrom(buf, what, p, end, i);
  }

  // The loop over the chains.
  method SearchFrom(buf: Evbuffer, what: seq<byte>, start: Ptr, end: Option<Ptr>, ghost first: nat) returns (p: Ptr)
    requires buf.Valid() && buf.totalLen <= EV_SIZE_MAX && what != [] && |what| <= EV_SSIZE_MAX
    requires PtrAt(buf, start, first) && (end.Some? ==> PtrOk(buf, end.value))
    ensures var limit: int := if end.Some? then end.value.pos else buf.totalLen;
            if p.pos >= 0
            then PtrOk(buf, p) && Occurs(buf.Contents(), what, p.pos) && start.pos <= p.pos && p.pos + |what| <= limit && NoneIn(buf.Contents(), what, start.pos, p.pos)
            else p == NOT_FOUND && NoneIn(buf.Contents(), what, start.pos, limit - |what| + 1)
  {
    hide Flat, LastData, Apart, Linked, Holds, Buffers, Bytes, Evbuffer.Valid, Occurs, NoneIn, Memchr;
    Lengths(buf);
    FlatAll(buf.segs);
    BuffersAreArrays(buf.chains);
    ghost var all := buf.Contents();
    p := start;
    var chain := start.chain;
    ghost var i := first;
    NoneBetween(all, what, p.pos);
    while chain != null
      invariant buf.Valid() && PtrAt(buf, p, i) && p.chain == chain && start.pos <= p.pos
      invariant NoneIn(all, what, start.pos, p.pos)
      decreases |buf.chains| - i, if i < |buf.chains| then |buf.segs[i]| - p.posInChain else 0
    {
      ChainOf(buf, i);
      FlatFrom(buf.segs, i, p.posInChain);
      var k := Memchr(Bytes(chain, p.posInChain, chain.off - p.posInChain), what[0]);
      SkipsNone(buf, what, i, p.posInChain, k, start.pos);
      var found := p.posInChain + k < chain.off;
      p := Ptr(p.pos + k, chain, p.posInChain + k);
      if found {
        assert PtrAt(buf, p, i);
        var r := PtrMemcmp(buf, p, what);
        OccursAt(buf, what, p, r);
        if r == 0 {
          if end.Some? && p.pos + |what| > end.value.pos {
            NoneBefore(all, what, start.pos, p.pos, end.value.pos - |what| + 1);
            return NOT_FOUND;
          }
          return;
        }
        NoneNext(all, what, start.pos, p.pos);
        p := Ptr(p.pos + 1, chain, p.posInChain + 1);
        if p.posInChain == chain.off {
          FlatFrom(buf.segs, i, p.posInChain);
          chain := chain.next;
          p := Ptr(p.pos, chain, 0);
          i := i + 1;
        }
      } else {
        if end.Some? && chain == end.value.chain {
          EndsInChain(buf, end.value, i);
          NoneBefore(all, what, start.pos, p.pos, end.value.pos - |what| + 1);
          return NOT_FOUND;
        }
        chain := chain.next;
        p := Ptr(p.pos, chain, 0);
        i := i + 1;
      }
    }
    NonePast(buf, what, start.pos, p, i);
    p := NOT_FOUND;
  }

  lemma NoneBetween(all: seq<byte>, what: seq<byte>, a: int)
    ensures NoneIn(all, what, a, a)
  {
  }

  lemma NoneBefore(all: seq<byte>, what: seq<byte>, a: int, b: int, c: int)
    requires NoneIn(all, what, a, b) && c <= b
    ensures NoneIn(all, what, a, c)
  {
  }

  lemma NoneNext(all: seq<byte>, what: seq<byte>, a: int, b: int)
    requires NoneIn(all, what, a, b) && !Occurs(all, what, b)
    ensures NoneIn(all, what, a, b + 1)
  {
  }

  // Positions without the first byte of what are no occurrences.
  lemma SkipsNone(buf: Evbuffer, what: seq<byte>, i: nat, t: nat, k: nat, from: int)
    requires buf.Valid() && i < |buf.chains| && t <= |buf.segs[i]| && what != []
    requires buf.chains[i].Fits() && buf.chains[i].off == |buf.segs[i]|
    requires k == Memchr(Bytes(buf.chains[i], t, |buf.segs[i]| - t), what[0])
    requires NoneIn(buf.Contents(), what, from, |Flat(buf.segs[..i])| + t)
    ensures NoneIn(buf.Contents(), what, from, |Flat(buf.segs[..i])| + t + k)
  {
    hide Flat, Evbuffer.Valid, Bytes, Memchr;
    Lengths(buf);
    var all := buf.Contents();
    var p := |Flat(buf.segs[..i])| + t;
    var n := |buf.segs[i]| - t;
    BlockIs(buf, i, t, n);
    forall q | from <= q < p + k ensures !Occurs(all, what, q) {
      if p <= q {
        assert all[p..p + n][q - p] == all[q];
        if Occurs(all, what, q) {
          OccursStarts(all, what, q);
        }
      }
    }
  }

  lemma OccursStarts(all: seq<byte>, what: seq<byte>, q: int)
    requires Occurs(all, what, q) && what != []
    ensures all[q] == what[0]
  {
    assert all[q..q + |what|][0] == all[q];
  }

  lemma OccursAt(buf: Evbuffer, what: seq<byte>, p: Ptr, r: int)
    requires buf.totalLen == |buf.Contents()| && p.pos >= 0
    requires p.pos + |what| > buf.totalLen ==> r == -1
    requires p.pos + |what| <= buf.totalLen ==> r == Memcmp(buf.Contents()[p.pos..p.pos + |what|], what)
    ensures r == 0 <==> Occurs(buf.Contents(), what, p.pos)
    ensures r == 0 ==> p.pos + |what| <= buf.totalLen
  {
  }

  lemma EndsInChain(buf: Evbuffer, end: Ptr, i: nat)
    requires buf.Valid() && PtrOk(buf, end) && i < |buf.chains| && end.chain == buf.chains[i]
    ensures end.pos <= |Flat(buf.segs[..i])| + |buf.segs[i]|
  {
    var j :| PtrAt(buf, end, j);
  }

  lemma NonePast(buf: Evbuffer, what: seq<byte>, from: int, p: Ptr, i: nat)
    requires buf.Valid() && PtrAt(buf, p, i) && p.chain == null && what != []
    requires NoneIn(buf.Contents(), what, from, p.pos)
    ensures forall c :: NoneIn(buf.Contents(), what, from, c)
  {
    hide Flat;
    FlatAll(buf.segs);
    assert i == |buf.chains|;
    assert p.pos == |buf.Contents()|;
  }
}
