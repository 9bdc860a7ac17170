/**
 * The name parser and the compressing name writer, on buffers. Offsets and lengths are the source's ints and
 * size_ts; a name given to the writer is a C string, so it holds no zero octet and its length is name_len.
 */
module DnsCodec {
  import opened DnsNames
  import opened Options
  import opened Words

  /** What the parser gives for a name that starts at idx, when its output holds `capacity` octets. */
  function Parsed(pkt: Octets, idx: nat, capacity: nat): Option<Octets> {
    var labels := Labels(pkt, idx, |pkt|);
    if labels.None? || |Join(labels.value)| >= capacity then None else Some(Join(labels.value))
  }

  /** The loop's view: labels `done` read so far, `rest` for the reading that goes on from the cursor. */
  ghost predicate Reads(packet: Octets, idx: nat, done: seq<Octets>, rest: Option<seq<Octets>>) {
    Labels(packet, idx, |packet|) == Prepend(done, rest)
  }

  lemma ReadsFromStart(packet: Octets, idx: nat)
    ensures Reads(packet, idx, [], Labels(packet, idx, |packet|))
  {
    var labels := Labels(packet, idx, |packet|);
    if labels.Some? {
      assert [] + labels.value == labels.value;
    }
  }

  lemma ReadsLabel(packet: Octets, idx: nat, done: seq<Octets>, j: nat, jumps: nat)
    requires j < |packet| && 0 < packet[j] < 64 && j + 1 + packet[j] <= |packet|
    requires Reads(packet, idx, done, Labels(packet, j, jumps))
    ensures var next := j + 1 + packet[j];
            Reads(packet, idx, done + [packet[j + 1..next]], Labels(packet, next, jumps))
  {
    var next := j + 1 + packet[j];
    var rest := Labels(packet, next, jumps);
    if rest.Some? {
      assert done + ([packet[j + 1..next]] + rest.value) == done + [packet[j + 1..next]] + rest.value;
    }
  }

  lemma ReadsToEnd(packet: Octets, idx: nat, done: seq<Octets>)
    requires Reads(packet, idx, done, Some([]))
    ensures Labels(packet, idx, |packet|) == Some(done)
  {
    assert done + [] == done;
  }

  /** A label that does not fit into the output, or runs out of the packet, makes the name unreadable. */
  lemma LabelEndsInside(packet: Octets, j: nat, jumps: nat)
    requires j < |packet| && 0 < packet[j] < 64 && j + 1 + packet[j] > |packet|
    ensures Labels(packet, j, jumps).None?
  {
  }

  lemma NoRoomForLabel(packet: Octets, idx: nat, done: seq<Octets>, j: nat, jumps: nat, capacity: nat)
    requires j < |packet| && 0 < packet[j] < 64
    requires Reads(packet, idx, done, Labels(packet, j, jumps))
    requires (if done == [] then 0 else |Join(done)| + 1) + packet[j] >= capacity || j + 1 + packet[j] > |packet|
    ensures Parsed(packet, idx, capacity).None?
  {
    hide Labels, Join;
    var next := j + 1 + packet[j];
    if next <= |packet| {
      ReadsLabel(packet, idx, done, j, jumps);
      var piece := packet[j + 1..next];
      JoinSnoc(done, piece);
      var rest := Labels(packet, next, jumps);
      if rest.Some? {
        JoinGrows(done + [piece], rest.value);
      }
    } else {
      LabelEndsInside(packet, j, jumps);
    }
  }

  /** A dot, unless this is the first label, and the label. */
  method PutText(nameOut: array<byte>, cp: nat, piece: Octets, ghost done: seq<Octets>) returns (next: nat)
    requires cp + |piece| + 1 <= nameOut.Length && piece != []
    requires nameOut[..cp] == Join(done) && (done == [] <==> cp == 0)
    modifies nameOut
    ensures next == cp + (if cp == 0 then 0 else 1) + |piece|
    ensures nameOut[..next] == Join(done + [piece])
  {
    hide Join;
    JoinSnoc(done, piece);
    next := cp;
    if cp != 0 {
      nameOut[cp] := DOT;
      next := cp + 1;
      assert nameOut[..next] == Join(done) + [DOT];
    }
    CopyInto(piece, nameOut, next);
    next := next + |piece|;
  }

  /**
   * name_parse: the text of the name at idx goes to nameOut, closed by a zero octet. It succeeds on exactly
   * the names that end inside the packet after at most as many jumps as the packet has octets, and whose text
   * and closing zero fit.
   */
  method NameParse(packet: Octets, idx: nat, nameOut: array<byte>) returns (ok: bool, next: nat)
    modifies nameOut
    ensures ok <==> Parsed(packet, idx, nameOut.Length).Some?
    ensures ok ==>
              var text := Parsed(packet, idx, nameOut.Length).value;
              |text| < nameOut.Length && nameOut[..|text|] == text && nameOut[|text|] == 0
    ensures next == if ok then NameEnd(packet, idx) else idx
    ensures ok ==> idx < next <= |packet|
  {
    hide Join, NameEnd, Reads;
    var length := |packet|;
    var nameEnd: int := -1;
    var j: nat := idx;
    var ptrCount: nat := 0;
    var cp: nat := 0;
    var end := nameOut.Length;
    ghost var done: seq<Octets> := [];
    ReadsFromStart(packet, idx);
    assert Join([]) == [] by { JoinNothing(); }
    ok, next := false, idx;
    while true
      invariant ptrCount <= length
      invariant cp <= end && nameOut[..cp] == Join(done)
      invariant done == [] <==> cp == 0
      invariant Reads(packet, idx, done, Labels(packet, j, length - ptrCount))
      invariant NameEnd(packet, idx) == if nameEnd < 0 then NameEnd(packet, j) else nameEnd
      invariant ok == false && next == idx
      decreases length - ptrCount, length - j
    {
      ghost var at := j;
      NameEndStep(packet, j);
      if j >= length { ReadsNothing(packet, idx, done); return; }
      var labelLen := packet[j];
      j := j + 1;
      if labelLen == 0 { break; }
      if labelLen >= 64 {
        if j >= length { ReadsNothing(packet, idx, done); return; }
        var ptrLow := packet[j];
        j := j + 1;
        if nameEnd < 0 { nameEnd := j; }
        j := Target(labelLen, ptrLow);
        if j >= length { ReadsNothing(packet, idx, done); return; }
        ptrCount := ptrCount + 1;
        if ptrCount > length { ReadsNothing(packet, idx, done); return; }
      } else {
        var separator := if cp == 0 then 0 else 1;
        if cp + separator + labelLen >= end || j + labelLen > length {
          NoRoomForLabel(packet, idx, done, at, length - ptrCount, end);
        }
        if cp + separator >= end { return; }
        if cp + separator + labelLen >= end { return; }
        if j + labelLen > length { return; }
        ReadsLabel(packet, idx, done, at, length - ptrCount);
        cp := PutText(nameOut, cp, packet[j..j + labelLen], done);
        done := done + [packet[j..j + labelLen]];
        j := j + labelLen;
      }
    }
    ReadsToEnd(packet, idx, done);
    NameEndInside(packet, idx, length);
    if cp >= end { return; }
    nameOut[cp] := 0;
    ok, next := true, if nameEnd < 0 then j else nameEnd;
  }

  lemma JoinNothing()
    ensures Join([]) == []
  {
  }

  lemma ReadsNothing(packet: Octets, idx: nat, done: seq<Octets>)
    requires Reads(packet, idx, done, None)
    ensures forall capacity: nat :: Parsed(packet, idx, capacity).None?
  {
  }

  /** memcpy of whole octets into a buffer. */
  method CopyInto(from: Octets, to: array<byte>, at: nat)
    requires at + |from| <= to.Length
    modifies to
    ensures to[..at + |from|] == old(to[..at]) + from
    ensures to[at + |from|..] == old(to[at + |from|..])
  {
    for i := 0 to |from|
      invariant to[at..at + i] == from[..i]
      invariant forall k :: 0 <= k < to.Length && !(at <= k < at + i) ==> to[k] == old(to[k])
    {
      to[at + i] := from[i];
    }
    assert to[..at] == old(to[..at]);
  }

  // ----- The compressing writer -----

  /** struct dnslabel_table: suffixes already written, and where. */
  class LabelTable {
    var entries: seq<Entry>

    constructor ()
      ensures entries == []
    {
      entries := [];
    }

    /** dnslabel_table_get_pos: the offset of the first entry with this text. */
    method GetPos(name: Octets) returns (pos: int)
      ensures pos == Lookup(entries, name)
    {
      for i := 0 to |entries|
        invariant Lookup(entries, name) == Lookup(entries[i..], name)
      {
        if entries[i].v == name { return entries[i].pos; }
      }
      return -1;
    }

    /** dnslabel_table_add: a full table stays as it is. */
    method Add(name: Octets, pos: nat)
      requires |entries| <= MAX_LABELS
      modifies this
      ensures entries == Remember(old(entries), [Entry(name, pos)])
    {
      if |entries| == MAX_LABELS { return; }
      entries := entries + [Entry(name, pos)];
    }
  }

  function Entries(table: LabelTable?): (entries: seq<Entry>)
    reads table
    ensures table == null ==> entries == []
  {
    if table == null then [] else table.entries
  }

  /** The writer's answer: the offset behind the name, -1 for a label over 63 octets, -2 for no room. */
  function WriterResult(name: Octets, table: seq<Entry>, bufLen: nat, j: nat): int {
    if |name| > 255 then -2
    else
      match Wire(name, table, bufLen - j)
      case Written(octets) => j + |octets|
      case LabelTooLong => -1
      case NoRoom => -2
  }

  /** The name is written out to its end: no label is too long, and the table knows none of its suffixes. */
  predicate Spelled(name: Octets, table: seq<Entry>)
    decreases |name|
  {
    && Lookup(table, name) < 0
    && FirstDot(name) <= 63
    && (FirstDot(name) < |name| ==> Spelled(name[FirstDot(name) + 1..], table))
  }

  /** The closing zero comes from the last label itself when that is empty. */
  predicate EndsEmpty(name: Octets) { name == [] || name[|name| - 1] == DOT }

  /** How many octets a name takes that is written out. */
  function SpelledLength(name: Octets): nat { |name| + if EndsEmpty(name) then 1 else 2 }

  lemma {:induction false} SpelledIsLong(name: Octets, table: seq<Entry>, room: int)
    requires Spelled(name, table)
    ensures Wire(name, table, room).Written? <==> |name| + 1 <= room
    ensures Wire(name, table, room).Written? ==> |Wire(name, table, room).octets| == SpelledLength(name)
    decreases |name|
  {
    hide EndsEmpty;
    var d := FirstDot(name);
    if d < |name| {
      EndOfRest(name, d);
      SpelledIsLong(name[d + 1..], table, room - d - 1);
    } else {
      EndOfLast(name);
    }
  }

  lemma EndOfRest(name: Octets, d: nat)
    requires d < |name| && name[d] == DOT
    ensures EndsEmpty(name) == EndsEmpty(name[d + 1..])
  {
  }

  lemma EndOfLast(name: Octets)
    requires FirstDot(name) == |name|
    ensures EndsEmpty(name) <==> name == []
  {
    if name != [] {
      LastIsNoDot(name);
    }
  }

  lemma {:induction false} LastIsNoDot(name: Octets)
    requires name != [] && FirstDot(name) == |name|
    ensures name[|name| - 1] != DOT
    decreases |name|
  {
    if |name| > 1 {
      LastIsNoDot(name[1..]);
    }
  }

  lemma SpelledStep(name: Octets, table: seq<Entry>)
    requires Lookup(table, name) < 0 && FirstDot(name) < |name|
    ensures var d := FirstDot(name); Spelled(name, table) <==> d <= 63 && Spelled(name[d + 1..], table)
  {
    hide Lookup, FirstDot;
  }

  lemma NotSpelledEnds(name: Octets, table: seq<Entry>, room: int)
    requires Lookup(table, name) >= 0 || FirstDot(name) == |name|
    requires !Spelled(name, table) && Wire(name, table, room).Written?
    ensures |Wire(name, table, room).octets| <= room
  {
    hide Lookup, FirstDot;
  }

  lemma {:induction false} NotSpelledFits(name: Octets, table: seq<Entry>, room: int)
    requires !Spelled(name, table) && Wire(name, table, room).Written?
    ensures |Wire(name, table, room).octets| <= room
    decreases |name|
  {
    hide Lookup, FirstDot, Wire, Spelled;
    var d := FirstDot(name);
    if Lookup(table, name) < 0 && d < |name| {
      WireStep(name, table, room);
      SpelledStep(name, table);
      NotSpelledFits(name[d + 1..], table, room - d - 1);
    } else {
      NotSpelledEnds(name, table, room);
    }
  }

  /** The octets of the name and its length octets end with the stated length; only the closing zero is over. */
  predicate Overruns(name: Octets, table: seq<Entry>, bufLen: nat, j: nat) {
    && |name| <= 255 && Spelled(name, table) && !EndsEmpty(name)
    && j + |name| + 1 == bufLen
  }

  /** The writer passes the stated length, and by one octet, exactly then. */
  lemma OverrunIff(name: Octets, table: seq<Entry>, bufLen: nat, j: nat)
    ensures WriterResult(name, table, bufLen, j) <= bufLen + 1
    ensures WriterResult(name, table, bufLen, j) == bufLen + 1 <==> Overruns(name, table, bufLen, j)
  {
    hide Wire, Spelled, EndsEmpty;
    var room := bufLen - j;
    if Spelled(name, table) {
      SpelledIsLong(name, table, room);
    } else if Wire(name, table, room).Written? {
      NotSpelledFits(name, table, room);
    }
  }

  /** A name of one octet that starts two octets before the end of a buffer of 1500. */
  lemma OneOctetTooMany()
    ensures WriterResult([97], [], 1500, 1498) == 1501
  {
    assert [97][1..] == [];
    assert FirstDot([97]) == 1;
    SpelledIsLong([97], [], 2);
  }

  /** strchr(name, '.'): the offset of the first dot, or the length when there is none. */
  method FindDot(name: Octets) returns (d: nat)
    ensures d == FirstDot(name)
  {
    d := 0;
    while d < |name| && name[d] != DOT
      invariant d <= |name| && FirstDot(name) == d + FirstDot(name[d..])
    {
      assert name[d..][1..] == name[d + 1..];
      d := d + 1;
    }
  }

  /** The writer's view: `done` is in place, `name` is left with room for `room` more octets. */
  ghost predicate Writing(name0: Octets, table: seq<Entry>, room0: int, done: Octets, name: Octets, room: int) {
    Wire(name0, table, room0) == After(done, Wire(name, table, room))
  }

  lemma WritingStarts(name: Octets, table: seq<Entry>, room: int)
    ensures Writing(name, table, room, [], name, room)
  {
    var rest := Wire(name, table, room);
    if rest.Written? {
      assert [] + rest.octets == rest.octets;
    }
  }

  /** The octets the writer puts last: a pointer, or the last label and the closing zero. */
  function LastOctets(name: Octets, table: seq<Entry>): Octets
    requires Lookup(table, name) < 0 ==> FirstDot(name) == |name| <= 63
  {
    if Lookup(table, name) >= 0 then PointerTo(Lookup(table, name))
    else [|name|] + name + if name == [] then [] else [0]
  }

  lemma WritingFails(name0: Octets, table: seq<Entry>, bufLen: nat, j0: nat, done: Octets, name: Octets)
    requires |name0| <= 255
    requires Writing(name0, table, bufLen - j0, done, name, bufLen - j0 - |done|)
    ensures var d, room := FirstDot(name), bufLen - j0 - |done|;
            && (Lookup(table, name) >= 0 && room < 2 ==> WriterResult(name0, table, bufLen, j0) == -2)
            && (Lookup(table, name) < 0 && d > 63 ==> WriterResult(name0, table, bufLen, j0) == -1)
            && (Lookup(table, name) < 0 && d <= 63 && d + 1 > room ==> WriterResult(name0, table, bufLen, j0) == -2)
  {
  }

  lemma WritingStops(name0: Octets, table: seq<Entry>, bufLen: nat, j0: nat, done: Octets, name: Octets)
    requires |name0| <= 255
    requires Writing(name0, table, bufLen - j0, done, name, bufLen - j0 - |done|)
    requires Lookup(table, name) < 0 ==> FirstDot(name) == |name| <= 63
    requires (if Lookup(table, name) >= 0 then 2 else |name| + 1) <= bufLen - j0 - |done|
    ensures Wire(name0, table, bufLen - j0) == Written(done + LastOctets(name, table))
    ensures WriterResult(name0, table, bufLen, j0) == j0 + |done| + |LastOctets(name, table)|
  {
  }

  lemma WireOfLabel(name: Octets, table: seq<Entry>, room: int)
    requires Lookup(table, name) < 0 && FirstDot(name) < |name|
    requires FirstDot(name) <= 63 && FirstDot(name) + 1 <= room
    ensures var d := FirstDot(name);
            Wire(name, table, room) == After([d] + name[..d], Wire(name[d + 1..], table, room - d - 1))
  {
  }

  lemma WritingLabel(name0: Octets, table: seq<Entry>, room0: int, done: Octets, name: Octets, room: int)
    requires Writing(name0, table, room0, done, name, room)
    requires Lookup(table, name) < 0 && FirstDot(name) < |name|
    requires FirstDot(name) <= 63 && FirstDot(name) + 1 <= room
    ensures var d := FirstDot(name);
            Writing(name0, table, room0, done + ([d] + name[..d]), name[d + 1..], room - d - 1)
  {
    hide Wire, Lookup, FirstDot;
    WireOfLabel(name, table, room);
    var d := FirstDot(name);
    var rest := Wire(name[d + 1..], table, room - d - 1);
    if rest.Written? {
      assert done + ([d] + name[..d] + rest.octets) == done + ([d] + name[..d]) + rest.octets;
    }
  }

  /** The writer's view of the table: `added` are the suffixes written out before offset j. */
  ghost predicate Adding(name0: Octets, table: seq<Entry>, j0: nat, added: seq<Entry>, name: Octets, j: nat) {
    && Added(name0, table, j0) == added + Added(name, table, j)
    && forall e :: e in added ==> |e.v| > |name|
  }

  lemma AddedOfLabel(name: Octets, table: seq<Entry>, j: nat)
    ensures Added(name, table, j)
            == if Lookup(table, name) >= 0 then []
               else [Entry(name, j)]
                    + if FirstDot(name) == |name| then []
                      else Added(name[FirstDot(name) + 1..], table, j + FirstDot(name) + 1)
  {
  }

  lemma AddingEnds(name0: Octets, table: seq<Entry>, j0: nat, added: seq<Entry>, name: Octets, j: nat)
    requires Adding(name0, table, j0, added, name, j)
    requires Lookup(table, name) >= 0 || FirstDot(name) == |name|
    ensures Added(name0, table, j0) == added + if Lookup(table, name) >= 0 then [] else [Entry(name, j)]
  {
    hide Added, Lookup, FirstDot;
    AddedOfLabel(name, table, j);
    assert [Entry(name, j)] + [] == [Entry(name, j)];
  }

  lemma AddingLabel(name0: Octets, table: seq<Entry>, j0: nat, added: seq<Entry>, name: Octets, j: nat)
    requires Adding(name0, table, j0, added, name, j)
    requires Lookup(table, name) < 0 && FirstDot(name) < |name|
    ensures var d := FirstDot(name);
            Adding(name0, table, j0, added + [Entry(name, j)], name[d + 1..], j + d + 1)
  {
    hide Added, Lookup, FirstDot;
    AddedOfLabel(name, table, j);
    var d, more := FirstDot(name), added + [Entry(name, j)];
    var rest := Added(name[d + 1..], table, j + d + 1);
    assert added + ([Entry(name, j)] + rest) == more + rest;
    forall e | e in more ensures |e.v| > |name[d + 1..]| {
      assert e in added || e == Entry(name, j);
    }
  }

  lemma RememberMore(table: seq<Entry>, added: seq<Entry>, e: Entry)
    requires |table| <= MAX_LABELS
    ensures |Remember(table, added)| <= MAX_LABELS
    ensures Remember(Remember(table, added), [e]) == Remember(table, added + [e])
  {
    assert table + (added + [e]) == table + added + [e];
  }

  lemma AddingStarts(name: Octets, table: seq<Entry>, j: nat)
    requires |table| <= MAX_LABELS
    ensures Adding(name, table, j, [], name, j)
    ensures Remember(table, []) == table
  {
    assert [] + Added(name, table, j) == Added(name, table, j);
  }

  /** While a name is written, its own suffixes in the table are longer than what is left of it. */
  lemma OnlyEarlierNamesMatch(table: seq<Entry>, added: seq<Entry>,
                              name0: Octets, j0: nat, name: Octets, j: nat)
    requires |table| <= MAX_LABELS
    requires Adding(name0, table, j0, added, name, j)
    ensures Lookup(Remember(table, added), name) == Lookup(table, name)
  {
    var kept := if |table + added| <= MAX_LABELS then added else added[..MAX_LABELS - |table|];
    assert Remember(table, added) == table + kept;
    assert forall e :: e in kept ==> e in added;
    LongerTextsDoNotMatch(table, kept, name);
  }

  /** Texts longer than the one looked for do not answer. */
  lemma {:induction false} LongerTextsDoNotMatch(table: seq<Entry>, more: seq<Entry>, name: Octets)
    requires forall e :: e in more ==> |e.v| > |name|
    ensures Lookup(table + more, name) == Lookup(table, name)
    decreases |table| + |more|
  {
    if table != [] {
      assert (table + more)[1..] == table[1..] + more;
      LongerTextsDoNotMatch(table[1..], more, name);
    } else if more != [] {
      assert table + more == more;
      LongerTextsDoNotMatch([], more[1..], name);
      assert [] + more[1..] == more[1..];
    }
  }

  /** What is in place of a name when the writer gives up: the labels in front of the one that cannot be written. */
  function WirePart(name: Octets, table: seq<Entry>, room: int): Octets
    decreases |name|
  {
    var d := FirstDot(name);
    if Lookup(table, name) >= 0 || d > 63 || d + 1 > room || d == |name| then []
    else [d] + name[..d] + WirePart(name[d + 1..], table, room - d - 1)
  }

  function NamePart(name: Octets, table: seq<Entry>, room: int): Octets {
    if |name| > 255 then [] else WirePart(name, table, room)
  }

  ghost predicate Parting(name0: Octets, table: seq<Entry>, room0: int, done: Octets, name: Octets, room: int) {
    WirePart(name0, table, room0) == done + WirePart(name, table, room)
  }

  lemma PartingStarts(name: Octets, table: seq<Entry>, room: int)
    ensures Parting(name, table, room, [], name, room)
  {
    assert [] + WirePart(name, table, room) == WirePart(name, table, room);
  }

  lemma PartOfLabel(name: Octets, table: seq<Entry>, room: int)
    requires Lookup(table, name) < 0 && FirstDot(name) < |name|
    requires FirstDot(name) <= 63 && FirstDot(name) + 1 <= room
    ensures var d := FirstDot(name);
            WirePart(name, table, room) == [d] + name[..d] + WirePart(name[d + 1..], table, room - d - 1)
  {
    hide Lookup, FirstDot;
  }

  lemma PartingLabel(name0: Octets, table: seq<Entry>, room0: int, done: Octets, name: Octets, room: int)
    requires Parting(name0, table, room0, done, name, room)
    requires Lookup(table, name) < 0 && FirstDot(name) < |name|
    requires FirstDot(name) <= 63 && FirstDot(name) + 1 <= room
    ensures var d := FirstDot(name);
            Parting(name0, table, room0, done + ([d] + name[..d]), name[d + 1..], room - d - 1)
  {
    hide WirePart, Lookup, FirstDot;
    PartOfLabel(name, table, room);
    var d := FirstDot(name);
    Reassociate(done, [d] + name[..d], WirePart(name[d + 1..], table, room - d - 1));
  }

  lemma PartingEnds(name0: Octets, table: seq<Entry>, room0: int, done: Octets, name: Octets, room: int)
    requires |name0| <= 255
    requires Parting(name0, table, room0, done, name, room)
    requires Lookup(table, name) >= 0 || FirstDot(name) > 63 || FirstDot(name) + 1 > room
    ensures NamePart(name0, table, room0) == done
  {
    assert done + [] == done;
  }

  /** Octets put over others, if they are inside. */
  function Overlay(s: Octets, at: nat, t: Octets): (r: Octets)
    ensures |r| == |s|
  {
    if at + |t| <= |s| then s[..at] + t + s[at + |t|..] else s
  }

  lemma NothingOverlaid(s: Octets, at: nat)
    ensures Overlay(s, at, []) == s
  {
  }

  lemma OverlayMeans(was: Octets, at: nat, t: Octets)
    requires at + |t| <= |was|
    ensures Overlay(was, at, t)[..at + |t|] == was[..at] + t
    ensures Overlay(was, at, t)[at + |t|..] == was[at + |t|..]
  {
  }

  lemma FrontStays(was: Octets, at: nat, t: Octets, n: nat)
    requires n <= |was| && n <= at
    ensures Overlay(was, at, t)[..n] == was[..n]
  {
  }

  lemma OverlayTwice(was: Octets, at: nat, done: Octets, more: Octets)
    requires at + |done| + |more| <= |was|
    ensures Overlay(Overlay(was, at, done), at + |done|, more) == Overlay(was, at, done + more)
  {
    var now := was[..at] + done + was[at + |done|..];
    assert now[at + |done| + |more|..] == was[at + |done| + |more|..];
    assert was[..at] + done + more == was[..at] + (done + more);
  }

  lemma CopiedIs(now: Octets, was: Octets, at: nat, t: Octets)
    requires at + |t| <= |was| == |now|
    requires now[..at + |t|] == was[..at] + t && now[at + |t|..] == was[at + |t|..]
    ensures now == Overlay(was, at, t)
  {
    assert now == now[..at + |t|] + now[at + |t|..];
  }

  /** More octets of a name behind those already there; `was` is what the buffer held before the name. */
  method PutOctets(buf: array<byte>, j: nat, octets: Octets, ghost was: Octets, ghost j0: nat, ghost done: Octets)
    requires j == j0 + |done| && j + |octets| <= buf.Length
    requires buf[..] == Overlay(was, j0, done)
    modifies buf
    ensures buf[..] == Overlay(was, j0, done + octets)
  {
    hide Overlay;
    ghost var before := buf[..];
    CopyInto(octets, buf, j);
    assert buf[..][..j + |octets|] == before[..j] + octets;
    assert buf[..][j + |octets|..] == before[j + |octets|..];
    CopiedIs(buf[..], before, j, octets);
    OverlayTwice(was, j0, done, octets);
  }

  /** One label: its length octet and its octets. */
  method PutLabel(buf: array<byte>, j: nat, piece: Octets, ghost was: Octets, ghost j0: nat, ghost done: Octets)
    returns (next: nat)
    requires j == j0 + |done| && j + 1 + |piece| <= buf.Length && |piece| < 64
    requires buf[..] == Overlay(was, j0, done)
    modifies buf
    ensures next == j + 1 + |piece| && buf[..] == Overlay(was, j0, done + ([|piece|] + piece))
  {
    hide Overlay;
    PutOctets(buf, j, [|piece|], was, j0, done);
    PutOctets(buf, j + 1, piece, was, j0, done + [|piece|]);
    assert done + [|piece|] + piece == done + ([|piece|] + piece);
    next := j + 1 + |piece|;
  }

  /** The closing zero, unless an empty last label has put it there already. */
  method CloseName(buf: array<byte>, j: nat, ghost was: Octets, ghost j0: nat, ghost done: Octets, ghost name: Octets)
    returns (next: nat)
    requires |name| < 64 && 0 !in name && j == j0 + |done| + 1 + |name| <= buf.Length
    requires name != [] ==> j < buf.Length
    requires buf[..] == Overlay(was, j0, done + ([|name|] + name))
    modifies buf
    ensures var all := done + ([|name|] + name + if name == [] then [] else [0]);
            next == j0 + |all| <= buf.Length && buf[..] == Overlay(was, j0, all)
  {
    hide Overlay;
    next := j;
    ghost var all := done + ([|name|] + name);
    OverlayMeans(was, j0, all);
    assert buf[j - 1] == buf[..][..j][j - 1] == all[|all| - 1];
    assert name != [] ==> all[|all| - 1] == name[|name| - 1] && name[|name| - 1] in name;
    if j == 0 || buf[j - 1] != 0 {
      PutOctets(buf, j, [0], was, j0, all);
      next := j + 1;
      assert all + [0] == done + ([|name|] + name + [0]);
    } else {
      assert name == [] && [|name|] + name + [] == [|name|] + name;
    }
  }

  lemma TooLongName(name: Octets, table: seq<Entry>, bufLen: nat, j: nat)
    requires |name| > 255
    ensures WriterResult(name, table, bufLen, j) == -2
  {
  }

  /** Memory for bufLen octets, and for one more if something is written behind them. */
  predicate Roomy(buf: array<byte>, bufLen: nat, overruns: bool) {
    bufLen < buf.Length || (bufLen == buf.Length && !overruns)
  }

  /**
   * dnsname_to_labels. The offset j may lie behind bufLen; the closing zero is written without a check, which
   * needs an octet behind the stated length when the name overruns.
   */
  method DnsnameToLabels(buf: array<byte>, bufLen: nat, j0: nat, name0: Octets, table: LabelTable?) returns (r: int)
    requires Roomy(buf, bufLen, Overruns(name0, Entries(table), bufLen, j0))
    requires 0 !in name0
    requires |Entries(table)| <= MAX_LABELS
    modifies buf, table
    ensures r == WriterResult(name0, old(Entries(table)), bufLen, j0)
    ensures r < 0 ==>
              buf[..] == Overlay(old(buf[..]), j0, NamePart(name0, old(Entries(table)), bufLen - j0))
    ensures r >= 0 ==>
              && j0 < r <= bufLen + 1 && r <= buf.Length
              && (r == bufLen + 1 <==> Overruns(name0, old(Entries(table)), bufLen, j0))
              && buf[..] == Overlay(old(buf[..]), j0, Wire(name0, old(Entries(table)), bufLen - j0).octets)
              && (table != null ==>
                    table.entries == Remember(old(Entries(table)), Added(name0, old(Entries(table)), j0)))
  {
    hide Wire, WirePart, Lookup, FirstDot, Added, Remember, Writing, Parting, Adding, WriterResult, Overruns, Overlay;
    OverrunIff(name0, Entries(table), bufLen, j0);
    ghost var table0, was := Entries(table), buf[..];
    NothingOverlaid(was, j0);
    if |name0| > 255 { TooLongName(name0, table0, bufLen, j0); return -2; }
    var j: nat, name := j0, name0;
    ghost var added: seq<Entry> := [];
    ghost var done: Octets := [];
    WritingStarts(name0, table0, bufLen - j0);
    PartingStarts(name0, table0, bufLen - j0);
    AddingStarts(name0, table0, j0);
    while true
      invariant j == j0 + |done|
      invariant done == [] || j <= bufLen
      invariant 0 !in name
      invariant buf[..] == Overlay(was, j0, done)
      invariant Parting(name0, table0, bufLen - j0, done, name, bufLen - j)
      invariant Writing(name0, table0, bufLen - j0, done, name, bufLen - j)
      invariant Adding(name0, table0, j0, added, name, j)
      invariant table != null ==> table.entries == Remember(table0, added)
      decreases |name|
    {
      OnlyEarlierNamesMatch(table0, added, name0, j0, name, j);
      WritingFails(name0, table0, bufLen, j0, done, name);
      if table != null {
        var ref := table.GetPos(name);
        if ref >= 0 {
          if j + 2 > bufLen {
            PartingEnds(name0, table0, bufLen - j0, done, name, bufLen - j);
            return -2;
          }
          WritingStops(name0, table0, bufLen, j0, done, name);
          AddingEnds(name0, table0, j0, added, name, j);
          assert added + [] == added;
          PutOctets(buf, j, PointerTo(ref), was, j0, done);
          return j + 2;
        }
      }
      var labelLen := FindDot(name);
      if labelLen > 63 || j + labelLen + 1 > bufLen {
        PartingEnds(name0, table0, bufLen - j0, done, name, bufLen - j);
      }
      if labelLen > 63 { return -1; }
      if j + labelLen + 1 > bufLen { return -2; }
      RememberMore(table0, added, Entry(name, j));
      if labelLen < |name| {
        AddingLabel(name0, table0, j0, added, name, j);
      } else {
        AddingEnds(name0, table0, j0, added, name, j);
      }
      added := added + [Entry(name, j)];
      if table != null { table.Add(name, j); }
      j := PutLabel(buf, j, name[..labelLen], was, j0, done);
      if labelLen == |name| {
        WritingStops(name0, table0, bufLen, j0, done, name);
        assert name[..labelLen] == name;
        break;
      }
      WritingLabel(name0, table0, bufLen - j0, done, name, bufLen - j + 1 + labelLen);
      PartingLabel(name0, table0, bufLen - j0, done, name, bufLen - j + 1 + labelLen);
      done := done + ([labelLen] + name[..labelLen]);
      name := name[labelLen + 1..];
    }
    r := CloseName(buf, j, was, j0, done, name);
  }

  /** What that means for the octets in front of the name, of it and behind it. */
  lemma WrittenIs(buf: array<byte>, was: Octets, j0: nat, all: Octets)
    requires |was| == buf.Length && j0 + |all| <= buf.Length && buf[..] == Overlay(was, j0, all)
    ensures buf[..j0 + |all|] == was[..j0] + all
    ensures buf[j0 + |all|..] == was[j0 + |all|..]
    ensures buf[..j0] == was[..j0]
  {
    hide Overlay;
    OverlayMeans(was, j0, all);
    FrontStays(was, j0, all, j0);
    assert buf[..j0 + |all|] == buf[..][..j0 + |all|] && buf[j0 + |all|..] == buf[..][j0 + |all|..];
    assert buf[..j0] == buf[..][..j0];
  }
}
