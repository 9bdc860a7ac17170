/**
 * Whole DNS messages as values: the server's response, section by section, and the proof that everything in it
 * is read back.
 */
module DnsMessage {
  import opened Bits
  import opened DnsNames
  import opened DnsCodec
  import opened Options
  import opened Words

  const RESPONSE_SPACE := 1500
  const DATAGRAM := 512
  const NAME_SPACE := 256

  function U16(x: u16): Octets { [x / 256, x % 256] }

  function U32(x: u32): Octets { U16(x / 0x1_0000) + U16(x % 0x1_0000) }

  function FromU16(pkt: Octets, j: nat): u16
    requires j + 2 <= |pkt|
  {
    pkt[j] as int * 256 + pkt[j + 1]
  }

  /** Comparison octet by octet from the front. */
  predicate Below(a: Octets, b: Octets)
    requires |a| == |b|
    decreases |a|
  {
    a != [] && (a[0] < b[0] || (a[0] == b[0] && Below(a[1..], b[1..])))
  }

  /** Numbers are written in network order: the octets compare from the front as the numbers do. */
  lemma NetworkOrder(x: u16, y: u16)
    ensures |U16(x)| == |U16(y)| == 2 && (Below(U16(x), U16(y)) <==> x < y)
    ensures FromU16(U16(x), 0) == x
  {
    assert U16(x)[1..] == [x % 256] && U16(y)[1..] == [y % 256];
    BelowOne(x % 256, y % 256);
  }

  lemma BelowOne(a: byte, b: byte)
    ensures Below([a], [b]) <==> a < b
  {
    assert [a][1..] == [] && [b][1..] == [];
  }

  lemma {:induction false} BelowFrom(a: Octets, b: Octets, c: Octets, d: Octets)
    requires |a| == |b| && |c| == |d|
    ensures Below(a + c, b + d) <==> Below(a, b) || (a == b && Below(c, d))
    decreases |a|
  {
    if a == [] {
      assert a + c == c && b + d == d;
    } else {
      assert (a + c)[1..] == a[1..] + c && (b + d)[1..] == b[1..] + d;
      BelowFrom(a[1..], b[1..], c, d);
      assert a == [a[0]] + a[1..] && b == [b[0]] + b[1..];
    }
  }

  lemma NetworkOrder32(x: u32, y: u32)
    ensures |U32(x)| == |U32(y)| == 4 && (Below(U32(x), U32(y)) <==> x < y)
  {
    var h, l, i, m := x / 0x1_0000, x % 0x1_0000, y / 0x1_0000, y % 0x1_0000;
    NetworkOrder(h, i);
    NetworkOrder(l, m);
    BelowFrom(U16(h), U16(i), U16(l), U16(m));
    assert U16(h) == U16(i) <==> h == i;
  }

  /** A pointer holds its offset in the low fourteen bits of a number in network order; the two above are set. */
  lemma PointerSays(offset: nat)
    requires offset < POINTER_SPACE
    ensures PointerTo(offset) == U16(0xC000 + offset)
    ensures Target(PointerTo(offset)[0], PointerTo(offset)[1]) == offset
  {
    var high, low := offset / 256, offset % 256;
    assert 0xC000 + offset == (0xC0 + high) * 256 + low;
    OctetsOf(0xC0 + high, low);
    assert (0xC0 + high) % 64 == high;
  }

  lemma OctetsOf(high: byte, low: byte)
    ensures U16(high * 256 + low) == [high, low]
  {
  }

  lemma TargetBits(high: byte, low: byte, k: nat)
    ensures Bit(Target(high, low), k) <==> k < 14 && Bit(FromU16([high, low], 0), k)
  {
    var offset := high % 64 * 256 + low;
    Powers();
    PairBit(high / 64, offset, 14, k);
    PairBit(0, offset, 14, k);
    if k >= 14 { NoBits(k - 14); }
    assert FromU16([high, low], 0) == high / 64 * Pow2(14) + offset;
  }

  function Or16(a: u16, b: u16): u16 {
    Powers();
    OrBelow(a, b, 16);
    Or(a, b)
  }

  function Or8(a: byte, b: byte): byte {
    Powers();
    OrBelow(a, b, 8);
    Or(a, b)
  }

  datatype Question = Question(name: Octets, kind: u16, cls: u16)

  /** Record data: a domain name, which is compressed, or plain octets. */
  datatype Data = NameData(name: Octets) | RawData(octets: Octets)

  datatype Record = Record(name: Octets, kind: u16, cls: u16, ttl: u32, data: Data)

  /** struct server_request, as far as the response writer reads it. */
  datatype Request = Request(transId: u16, flags: u16, questions: seq<Question>,
                             answers: seq<Record>, authority: seq<Record>, additional: seq<Record>)

  // ----- What is written -----

  /** A message under construction and the suffixes that can be pointed to. */
  datatype Packet = Packet(octets: Octets, table: seq<Entry>)

  function PutRaw(p: Packet, raw: Octets, space: nat): Option<Packet> {
    if |p.octets| + |raw| > space then None else Some(p.(octets := p.octets + raw))
  }

  function PutName(p: Packet, name: Octets, space: nat): Option<Packet> {
    var j := |p.octets|;
    if |name| > 255 || !Wire(name, p.table, space - j).Written? then None
    else
      Some(Packet(p.octets + Wire(name, p.table, space - j).octets, Remember(p.table, Added(name, p.table, j))))
  }

  function PutQuestion(p: Packet, q: Question, space: nat): Option<Packet> {
    var named := PutName(p, q.name, space);
    if named.None? then None else PutRaw(named.value, U16(q.kind) + U16(q.cls), space)
  }

  /** The length field of a name is filled in when the name behind it has been written. */
  function PutData(p: Packet, data: Data, space: nat): Option<Packet> {
    match data
    case RawData(octets) => if |octets| >= 0x1_0000 then None else PutRaw(p, U16(|octets|) + octets, space)
    case NameData(name) =>
      var j := |p.octets| + 2;
      if |name| > 255 || !Wire(name, p.table, space - j).Written? then None
      else
        var wire := Wire(name, p.table, space - j).octets;
        PutName(p.(octets := p.octets + U16(|wire| % 0x1_0000)), name, space)
  }

  function PutRecord(p: Packet, r: Record, space: nat): Option<Packet> {
    var named := PutName(p, r.name, space);
    if named.None? then None
    else
      var fixed := PutRaw(named.value, U16(r.kind) + U16(r.cls) + U32(r.ttl), space);
      if fixed.None? then None else PutData(fixed.value, r.data, space)
  }

  function PutQuestions(p: Packet, qs: seq<Question>, space: nat): Option<Packet>
    decreases |qs|
  {
    if qs == [] then Some(p)
    else
      var one := PutQuestion(p, qs[0], space);
      if one.None? then None else PutQuestions(one.value, qs[1..], space)
  }

  function PutRecords(p: Packet, rs: seq<Record>, space: nat): Option<Packet>
    decreases |rs|
  {
    if rs == [] then Some(p)
    else
      var one := PutRecord(p, rs[0], space);
      if one.None? then None else PutRecords(one.value, rs[1..], space)
  }

  // ----- What is read -----

  predicate NameAt(pkt: Octets, j: nat, name: Octets, next: nat) {
    Parsed(pkt, j, NAME_SPACE) == Some(name) && NameEnd(pkt, j) == next
  }

  predicate OctetsAt(pkt: Octets, j: nat, octets: Octets, next: nat) {
    next == j + |octets| && next <= |pkt| && pkt[j..next] == octets
  }

  predicate QuestionAt(pkt: Octets, j: nat, q: Question, next: nat) {
    NameAt(pkt, j, q.name, NameEnd(pkt, j)) && OctetsAt(pkt, NameEnd(pkt, j), U16(q.kind) + U16(q.cls), next)
  }

  /** The data behind its length field; a name in it ends where the length field says that the data ends. */
  predicate DataAt(pkt: Octets, j: nat, data: Data, next: nat) {
    && j + 2 <= next <= |pkt| && next - j - 2 < 0x1_0000
    && OctetsAt(pkt, j, U16(next - j - 2), j + 2)
    && match data
       case RawData(octets) => OctetsAt(pkt, j + 2, octets, next)
       case NameData(name) => NameAt(pkt, j + 2, name, next)
  }

  predicate RecordAt(pkt: Octets, j: nat, r: Record, next: nat) {
    var e := NameEnd(pkt, j);
    && NameAt(pkt, j, r.name, e)
    && OctetsAt(pkt, e, U16(r.kind) + U16(r.cls) + U32(r.ttl), e + 8)
    && DataAt(pkt, e + 8, r.data, next)
  }

  /** The questions stand one after another from j to next. */
  ghost predicate QuestionsAt(pkt: Octets, j: nat, qs: seq<Question>, next: nat)
    decreases |qs|
  {
    if qs == [] then j == next
    else exists k: nat :: QuestionAt(pkt, j, qs[0], k) && QuestionsAt(pkt, k, qs[1..], next)
  }

  ghost predicate RecordsAt(pkt: Octets, j: nat, rs: seq<Record>, next: nat)
    decreases |rs|
  {
    if rs == [] then j == next
    else exists k: nat :: RecordAt(pkt, j, rs[0], k) && RecordsAt(pkt, k, rs[1..], next)
  }

  // ----- What is written is read -----

  predicate Good(p: Packet) {
    Sound(p.octets, p.table, |p.octets|)
  }

  predicate ProperRecord(r: Record) {
    Proper(r.name) && (r.data.NameData? ==> Proper(r.data.name))
  }

  lemma RawIsGood(p: Packet, raw: Octets)
    requires Good(p)
    ensures Good(p.(octets := p.octets + raw))
  {
    SoundExtends(p.octets, raw, p.table, |p.octets|, |p.octets + raw|);
  }

  /** The octets a name takes on the wire never pass the checked space by more than the closing zero. */
  lemma {:induction false} WireFits(name: Octets, table: seq<Entry>, room: int)
    requires Wire(name, table, room).Written?
    ensures 0 < |Wire(name, table, room).octets| <= room + 1
    decreases |name|
  {
    var d := FirstDot(name);
    if Lookup(table, name) < 0 && d < |name| && d <= 63 && d + 1 <= room {
      WireFits(name[d + 1..], table, room - d - 1);
    }
  }

  /** Putting a name, in the terms of the wire. */
  lemma PutNameIs(p: Packet, name: Octets, space: nat)
    requires PutName(p, name, space).Some?
    ensures var j := |p.octets|;
            var wire := Wire(name, p.table, space - j);
            && |name| <= 255 && wire.Written?
            && PutName(p, name, space).value
               == Packet(p.octets + wire.octets, Remember(p.table, Added(name, p.table, j)))
            && |wire.octets| <= space - j + 1
            && 0 < |wire.octets|
  {
    WireFits(name, p.table, space - |p.octets|);
  }

  /** A readable name, with more octets behind it, as the reader sees it. */
  lemma ParsedBehind(pkt: Octets, more: Octets, j: nat, labels: seq<Octets>)
    requires Labels(pkt, j, |pkt|) == Some(labels)
    requires |Join(labels)| < NAME_SPACE
    ensures Parsed(pkt + more, j, NAME_SPACE) == Some(Join(labels))
    ensures NameEnd(pkt + more, j) == NameEnd(pkt, j)
  {
    hide Labels, NameEnd, Join;
    LabelsExtend(pkt, more, j, |pkt|, |pkt + more|);
    NameEndExtends(pkt, more, j, |pkt|);
  }

  lemma NameReadsBack(p: Packet, name: Octets, space: nat, more: Octets)
    requires Good(p) && space < POINTER_SPACE
    requires PutName(p, name, space).Some?
    ensures var after := PutName(p, name, space).value;
            && Good(after)
            && |p.octets| < |after.octets| <= space + 1
            && p.octets <= after.octets
            && (Proper(name) ==> NameAt(after.octets + more, |p.octets|, name, |after.octets|))
  {
    hide Labels, NameEnd, Join, Canon, Proper, Sound, Backward, Wire, Added, Remember, PutName, Parsed;
    var j := |p.octets|;
    PutNameIs(p, name, space);
    NameWritten(p.octets, name, p.table, space - j);
    if Proper(name) {
      ParsedBehind(PutName(p, name, space).value.octets, more, j, Canon(name));
    }
  }

  /**
   * The reader always gives the visible labels of a written name, joined by dots; that is the name exactly
   * when it is the root or has no empty label. A trailing dot, or two dots in a row, is lost.
   */
  lemma NameSurvivesIff(p: Packet, name: Octets, space: nat, more: Octets)
    requires Good(p) && space < POINTER_SPACE
    requires PutName(p, name, space).Some?
    ensures var read := Parsed(PutName(p, name, space).value.octets + more, |p.octets|, NAME_SPACE);
            && read == Some(Join(Canon(name)))
            && (read == Some(name) <==> Proper(name))
  {
    hide Labels, NameEnd, Join, Canon, Proper, Sound, Backward, Wire, Added, Remember, PutName, Parsed;
    var j := |p.octets|;
    PutNameIs(p, name, space);
    NameWritten(p.octets, name, p.table, space - j);
    VisibleIsShort(name);
    ParsedBehind(PutName(p, name, space).value.octets, more, j, Canon(name));
    TextSurvivesIff(name);
  }

  /** "a." is read as "a". */
  lemma TrailingDotIsLost()
    ensures var written := PutName(Packet([], []), [97, DOT], RESPONSE_SPACE);
            written.Some? && Parsed(written.value.octets, 0, NAME_SPACE) == Some([97])
  {
    hide Parsed, Added, Remember, Sound;
    var name := [97, DOT];
    NothingIsSound([], 0);
    assert name[1..] == [DOT] && name[2..] == [];
    assert FirstDot(name) == 1 && FirstDot(name[2..]) == 0;
    assert Wire(name[2..], [], RESPONSE_SPACE - 2).Written?;
    NameSurvivesIff(Packet([], []), name, RESPONSE_SPACE, []);
    var octets := PutName(Packet([], []), name, RESPONSE_SPACE).value.octets;
    assert octets + [] == octets;
    assert Canon(name[2..]) == [] && name[..1] == [97];
    assert Canon(name) == [[97]] + Canon(name[2..]);
    assert Canon(name) == [[97]];
  }

  lemma RawReads(before: Octets, raw: Octets, more: Octets)
    ensures OctetsAt(before + raw + more, |before|, raw, |before| + |raw|)
  {
  }

  lemma QuestionReadsBack(p: Packet, q: Question, space: nat, more: Octets)
    requires Good(p) && space < POINTER_SPACE
    requires PutQuestion(p, q, space).Some?
    ensures var after := PutQuestion(p, q, space).value;
            && Good(after) && p.octets <= after.octets && |after.octets| <= space
            && (Proper(q.name) ==> QuestionAt(after.octets + more, |p.octets|, q, |after.octets|))
  {
    hide Good, Wire, NameAt;
    var named := PutName(p, q.name, space).value;
    var raw := U16(q.kind) + U16(q.cls);
    NameReadsBack(p, q.name, space, raw + more);
    RawIsGood(named, raw);
    RawReads(named.octets, raw, more);
    assert named.octets + raw + more == named.octets + (raw + more);
    NameAtEnd(named.octets + (raw + more), |p.octets|, q.name, |named.octets|);
  }

  lemma NameAtEnd(pkt: Octets, j: nat, name: Octets, next: nat)
    ensures NameAt(pkt, j, name, next) ==> NameEnd(pkt, j) == next
  {
  }

  lemma RawDataReadsBack(p: Packet, octets: Octets, space: nat, more: Octets)
    requires PutData(p, RawData(octets), space).Some?
    ensures var after := PutData(p, RawData(octets), space).value;
            && after.table == p.table && after.octets == p.octets + (U16(|octets|) + octets)
            && DataAt(after.octets + more, |p.octets|, RawData(octets), |after.octets|)
  {
    RawReads(p.octets, U16(|octets|), octets + more);
    RawReads(p.octets + U16(|octets|), octets, more);
    assert p.octets + (U16(|octets|) + octets) + more == p.octets + U16(|octets|) + (octets + more);
    assert p.octets + (U16(|octets|) + octets) + more == p.octets + U16(|octets|) + octets + more;
  }

  lemma NameDataReadsBack(p: Packet, name: Octets, space: nat, more: Octets)
    requires Good(p) && space < POINTER_SPACE && |p.octets| <= space
    requires PutData(p, NameData(name), space).Some?
    ensures var after := PutData(p, NameData(name), space).value;
            && Good(after) && p.octets <= after.octets && |after.octets| <= space + 1
            && (Proper(name) ==> DataAt(after.octets + more, |p.octets|, NameData(name), |after.octets|))
  {
    hide Good, Wire, NameAt, PutName, Proper;
    var wire := Wire(name, p.table, space - |p.octets| - 2).octets;
    var size := U16(|wire| % 0x1_0000);
    var sized := p.(octets := p.octets + size);
    WireFits(name, p.table, space - |p.octets| - 2);
    RawIsGood(p, size);
    NameReadsBack(sized, name, space, more);
    PutNameIs(sized, name, space);
    RawReads(p.octets, size, wire + more);
    assert p.octets + size + (wire + more) == p.octets + size + wire + more;
  }

  lemma DataReadsBack(p: Packet, data: Data, space: nat, more: Octets)
    requires Good(p) && space < POINTER_SPACE && |p.octets| <= space
    requires PutData(p, data, space).Some?
    ensures var after := PutData(p, data, space).value;
            && Good(after) && p.octets <= after.octets && |after.octets| <= space + 1
            && ((data.NameData? ==> Proper(data.name)) ==>
                  DataAt(after.octets + more, |p.octets|, data, |after.octets|))
  {
    hide Good, DataAt;
    match data
    case RawData(octets) =>
      RawDataReadsBack(p, octets, space, more);
      RawIsGood(p, U16(|octets|) + octets);
    case NameData(name) =>
      NameDataReadsBack(p, name, space, more);
  }

  lemma ProperParts(r: Record)
    requires ProperRecord(r)
    ensures Proper(r.name) && (r.data.NameData? ==> Proper(r.data.name))
  {
  }

  lemma RecordFromParts(pkt: Octets, j: nat, r: Record, e: nat, next: nat)
    requires NameAt(pkt, j, r.name, e)
    requires OctetsAt(pkt, e, U16(r.kind) + U16(r.cls) + U32(r.ttl), e + 8)
    requires DataAt(pkt, e + 8, r.data, next)
    ensures RecordAt(pkt, j, r, next)
  {
    hide OctetsAt, DataAt;
  }

  lemma RecordReadsBack(p: Packet, r: Record, space: nat, more: Octets)
    requires Good(p) && space < POINTER_SPACE
    requires PutRecord(p, r, space).Some?
    ensures var after := PutRecord(p, r, space).value;
            && Good(after) && p.octets <= after.octets && |after.octets| <= space + 1
            && (ProperRecord(r) ==> RecordAt(after.octets + more, |p.octets|, r, |after.octets|))
  {
    hide Good, Wire, NameAt, DataAt, PutData, PutName, RecordAt, OctetsAt, ProperRecord;
    var named := PutName(p, r.name, space).value;
    var raw := U16(r.kind) + U16(r.cls) + U32(r.ttl);
    var fixed := named.(octets := named.octets + raw);
    var after := PutData(fixed, r.data, space).value;
    NameReadsBack(p, r.name, space, []);
    RawIsGood(named, raw);
    DataReadsBack(fixed, r.data, space, more);
    var rest := after.octets[|fixed.octets|..];
    assert after.octets + more == fixed.octets + (rest + more);
    assert after.octets + more == named.octets + (raw + (rest + more));
    NameReadsBack(p, r.name, space, raw + (rest + more));
    RawReads(named.octets, raw, rest + more);
    assert named.octets + raw + (rest + more) == after.octets + more;
    if ProperRecord(r) {
      ProperParts(r);
      RecordFromParts(after.octets + more, |p.octets|, r, |named.octets|, |after.octets|);
    }
  }

  /** Questions written one after another, sharing one table, are read one after another. */
  lemma {:induction false} QuestionsReadBack(p: Packet, qs: seq<Question>, space: nat, more: Octets)
    requires Good(p) && space < POINTER_SPACE
    requires PutQuestions(p, qs, space).Some?
    ensures var after := PutQuestions(p, qs, space).value;
            && Good(after) && p.octets <= after.octets
            && ((forall q :: q in qs ==> Proper(q.name)) ==>
                  QuestionsAt(after.octets + more, |p.octets|, qs, |after.octets|))
    decreases |qs|
  {
    hide Good, PutQuestion, QuestionAt;
    if qs != [] {
      var one := PutQuestion(p, qs[0], space).value;
      QuestionReadsBack(p, qs[0], space, []);
      QuestionsReadBack(one, qs[1..], space, more);
      var after := PutQuestions(p, qs, space).value;
      var rest := after.octets[|one.octets|..];
      assert after.octets + more == one.octets + (rest + more);
      QuestionReadsBack(p, qs[0], space, rest + more);
    }
  }

  lemma {:induction false} RecordsReadBack(p: Packet, rs: seq<Record>, space: nat, more: Octets)
    requires Good(p) && space < POINTER_SPACE
    requires PutRecords(p, rs, space).Some?
    ensures var after := PutRecords(p, rs, space).value;
            && Good(after) && p.octets <= after.octets
            && ((forall r :: r in rs ==> ProperRecord(r)) ==>
                  RecordsAt(after.octets + more, |p.octets|, rs, |after.octets|))
    decreases |rs|
  {
    hide Good, PutRecord, RecordAt, ProperRecord;
    if rs != [] {
      var one := PutRecord(p, rs[0], space).value;
      RecordReadsBack(p, rs[0], space, []);
      RecordsReadBack(one, rs[1..], space, more);
      var after := PutRecords(p, rs, space).value;
      var rest := after.octets[|one.octets|..];
      assert after.octets + more == one.octets + (rest + more);
      RecordReadsBack(p, rs[0], space, rest + more);
    }
  }

  // ----- The server's response -----

  function Header(req: Request, err: nat): Octets
    requires err < 16
  {
    U16(req.transId) + U16(Or16(req.flags, Or16(0x8000, err))) + U16(|req.questions| % 0x1_0000)
    + U16(|req.answers| % 0x1_0000) + U16(|req.authority| % 0x1_0000) + U16(|req.additional| % 0x1_0000)
  }

  /** The flags of a message, section 4.1.1 of RFC 1035, by the weight of their bits. */
  const QR := 15
  const TC := 9
  const RD := 8
  const CD := 4

  /** A response, with what the flags of the request and the error code hold, and perhaps cut. */
  predicate ResponseFlags(f: u16, flags: u16, err: nat, cut: bool) {
    forall k :: 0 <= k < 16 ==> (Bit(f, k) <==> Bit(flags, k) || Bit(err, k) || k == QR || (cut && k == TC))
  }

  /** The header of a response: the id of the request, the flags, and how long the four lists are. */
  predicate HeaderAt(pkt: Octets, req: Request, err: nat, cut: bool) {
    && |pkt| >= 12
    && FromU16(pkt, 0) == req.transId
    && ResponseFlags(FromU16(pkt, 2), req.flags, err, cut)
    && FromU16(pkt, 4) == |req.questions| % 0x1_0000
    && FromU16(pkt, 6) == |req.answers| % 0x1_0000
    && FromU16(pkt, 8) == |req.authority| % 0x1_0000
    && FromU16(pkt, 10) == |req.additional| % 0x1_0000
  }

  lemma OneBit(n: nat, k: nat)
    ensures Bit(Pow2(n), k) <==> k == n
  {
    assert Pow2(n) == 1 * Pow2(n) + 0;
    PairBit(1, 0, n, k);
    NoBits(k);
    if k > n {
      NoBits(k - n - 1);
    }
  }

  lemma HeaderSays(req: Request, err: nat, pkt: Octets)
    requires err < 16 && Header(req, err) <= pkt
    ensures HeaderAt(pkt, req, err, false)
  {
    hide Or16, Bit;
    var f := Or16(req.flags, Or16(0x8000, err));
    var h := Header(req, err);
    assert pkt[..12] == h;
    assert forall k :: 0 <= k < 12 ==> pkt[k] == h[k];
    forall k | 0 <= k < 16 ensures Bit(f, k) <==> Bit(req.flags, k) || Bit(err, k) || k == QR {
      FlagBits(req.flags, err, k);
    }
  }

  lemma FlagBits(flags: u16, err: u16, k: nat)
    ensures Bit(Or16(flags, Or16(0x8000, err)), k) <==> Bit(flags, k) || Bit(err, k) || k == QR
  {
    hide Bit, Or;
    OrBit(flags, Or16(0x8000, err), k);
    OrBit(0x8000, err, k);
    Powers();
    OneBit(15, k);
  }

  function Begun(req: Request, err: nat): (p: Packet)
    requires err < 16
    ensures |p.octets| == 12
  {
    Packet(Header(req, err), [])
  }

  function PutSections(p: Packet, req: Request): Option<Packet> {
    var an := PutRecords(p, req.answers, RESPONSE_SPACE);
    if an.None? then None
    else
      var ns := PutRecords(an.value, req.authority, RESPONSE_SPACE);
      if ns.None? then None else PutRecords(ns.value, req.additional, RESPONSE_SPACE)
  }

  /** The whole response; None when something in it does not fit or has a label that is too long. */
  function Response(req: Request, err: nat): Option<Packet>
    requires err < 16
  {
    var q := PutQuestions(Begun(req, err), req.questions, RESPONSE_SPACE);
    if q.None? then None else PutSections(q.value, req)
  }

  /** As many questions and records as the header says stand one after another behind it and fill the packet. */
  ghost predicate SectionsAt(pkt: Octets, req: Request) {
    && |pkt| >= 12
    && FromU16(pkt, 4) == |req.questions| && FromU16(pkt, 6) == |req.answers|
    && FromU16(pkt, 8) == |req.authority| && FromU16(pkt, 10) == |req.additional|
    && exists q: nat, an: nat, ns: nat ::
      && QuestionsAt(pkt, 12, req.questions, q)
      && RecordsAt(pkt, q, req.answers, an)
      && RecordsAt(pkt, an, req.authority, ns)
      && RecordsAt(pkt, ns, req.additional, |pkt|)
  }

  predicate ProperRequest(req: Request) {
    && (forall q :: q in req.questions ==> Proper(q.name))
    && (forall r :: r in req.answers + req.authority + req.additional ==> ProperRecord(r))
  }

  /** Every name, number and octet of a response can be read from it, section by section, to its end. */
  lemma ResponseReadsBack(req: Request, err: nat)
    requires err < 16 && ProperRequest(req)
    requires Response(req, err).Some?
    ensures SectionsAt(Response(req, err).value.octets, req)
    ensures HeaderAt(Response(req, err).value.octets, req, err, false)
  {
    hide PutQuestions, PutRecords, QuestionsAt, RecordsAt, Proper, ProperRecord, Header, FromU16, ResponseFlags;
    HeaderStays(req, err);
    var space := RESPONSE_SPACE;
    var p := Begun(req, err);
    var q := PutQuestions(p, req.questions, space).value;
    var an := PutRecords(q, req.answers, space).value;
    var ns := PutRecords(an, req.authority, space).value;
    var ar := PutRecords(ns, req.additional, space).value;
    QuestionsReadBack(p, req.questions, space, []);
    RecordsReadBack(q, req.answers, space, []);
    RecordsReadBack(an, req.authority, space, []);
    RecordsReadBack(ns, req.additional, space, []);
    QuestionsReadBack(p, req.questions, space, ar.octets[|q.octets|..]);
    RecordsReadBack(q, req.answers, space, ar.octets[|an.octets|..]);
    RecordsReadBack(an, req.authority, space, ar.octets[|ns.octets|..]);
    Rejoin(q.octets, ar.octets);
    Rejoin(an.octets, ar.octets);
    Rejoin(ns.octets, ar.octets);
    assert ar.octets + [] == ar.octets;
  }

  /** The header stays in front, and every list of a response that fits is short enough for its count. */
  lemma HeaderStays(req: Request, err: nat)
    requires err < 16 && Response(req, err).Some?
    ensures HeaderAt(Response(req, err).value.octets, req, err, false)
    ensures |req.questions| < 0x1_0000 && |req.answers| < 0x1_0000
    ensures |req.authority| < 0x1_0000 && |req.additional| < 0x1_0000
  {
    hide PutQuestions, PutRecords, Header, HeaderAt;
    var p := Begun(req, err);
    QuestionsTakeRoom(p, req.questions, RESPONSE_SPACE);
    var q := PutQuestions(p, req.questions, RESPONSE_SPACE).value;
    RecordsTakeRoom(q, req.answers, RESPONSE_SPACE);
    var an := PutRecords(q, req.answers, RESPONSE_SPACE).value;
    RecordsTakeRoom(an, req.authority, RESPONSE_SPACE);
    var ns := PutRecords(an, req.authority, RESPONSE_SPACE).value;
    RecordsTakeRoom(ns, req.additional, RESPONSE_SPACE);
    HeaderSays(req, err, Response(req, err).value.octets);
  }

  lemma NameTakesRoom(p: Packet, name: Octets, space: nat)
    requires PutName(p, name, space).Some?
    ensures var after := PutName(p, name, space).value;
            p.octets <= after.octets && |p.octets| < |after.octets| <= space + 1
  {
    hide Wire, Added, Remember, PutName;
    PutNameIs(p, name, space);
  }

  lemma QuestionTakesRoom(p: Packet, q: Question, space: nat)
    requires PutQuestion(p, q, space).Some?
    ensures var after := PutQuestion(p, q, space).value;
            p.octets <= after.octets && |p.octets| < |after.octets| <= space + 1
  {
    hide PutName, U16;
    NameTakesRoom(p, q.name, space);
  }

  lemma RecordTakesRoom(p: Packet, r: Record, space: nat)
    requires PutRecord(p, r, space).Some?
    ensures var after := PutRecord(p, r, space).value;
            p.octets <= after.octets && |p.octets| < |after.octets| <= space + 1
  {
    hide PutName, U16, U32, Wire;
    NameTakesRoom(p, r.name, space);
    var fixed := PutRaw(PutName(p, r.name, space).value, U16(r.kind) + U16(r.cls) + U32(r.ttl), space).value;
    if r.data.NameData? {
      var j := |fixed.octets| + 2;
      var wire := Wire(r.data.name, fixed.table, space - j).octets;
      NameTakesRoom(fixed.(octets := fixed.octets + U16(|wire| % 0x1_0000)), r.data.name, space);
    }
  }

  /** Each question takes an octet at least, and so does each record. */
  lemma {:induction false} QuestionsTakeRoom(p: Packet, qs: seq<Question>, space: nat)
    requires PutQuestions(p, qs, space).Some? && |p.octets| <= space + 1
    ensures var after := PutQuestions(p, qs, space).value;
            p.octets <= after.octets && |p.octets| + |qs| <= |after.octets| <= space + 1
    decreases |qs|
  {
    hide PutQuestion;
    if qs != [] {
      QuestionTakesRoom(p, qs[0], space);
      QuestionsTakeRoom(PutQuestion(p, qs[0], space).value, qs[1..], space);
    }
  }

  lemma {:induction false} RecordsTakeRoom(p: Packet, rs: seq<Record>, space: nat)
    requires PutRecords(p, rs, space).Some? && |p.octets| <= space + 1
    ensures var after := PutRecords(p, rs, space).value;
            p.octets <= after.octets && |p.octets| + |rs| <= |after.octets| <= space + 1
    decreases |rs|
  {
    hide PutRecord;
    if rs != [] {
      RecordTakesRoom(p, rs[0], space);
      RecordsTakeRoom(PutRecord(p, rs[0], space).value, rs[1..], space);
    }
  }

  lemma Rejoin(front: Octets, all: Octets)
    requires front <= all
    ensures front + all[|front|..] == all
  {
  }
}
