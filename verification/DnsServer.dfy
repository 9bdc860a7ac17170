/**
 * The methods that put messages together and take them apart: the server's response writer, the client's
 * request writer and the server's request reader.
 */
module DnsServer {
  import opened Bits
  import opened DnsNames
  import opened DnsCodec
  import opened DnsMessage
  import opened DnsRoom
  import opened Options
  import opened Words

  /**
   * The first j octets of the buffer and the label table are the packet p. Behind it the buffer is as it was
   * before the message was begun.
   */
  ghost predicate Holds(buf: array<byte>, table: LabelTable, j: nat, p: Packet, memory: Octets)
    reads buf, table
  {
    && j == |p.octets| <= buf.Length
    && Shows(buf, Ink(p.octets), memory)
    && table.entries == p.table
    && |p.table| <= MAX_LABELS
  }

  /** What of the buffer has been written so far. */
  ghost predicate Shows(buf: array<byte>, d: Draft, memory: Octets)
    reads buf
  {
    |memory| == buf.Length && buf[..] == Laid(d, memory)
  }

  /** More octets behind those of a message. */
  method Append(buf: array<byte>, j: nat, octets: Octets, ghost written: Octets, ghost memory: Octets)
    requires j == |written| && j + |octets| <= buf.Length && Shows(buf, Ink(written), memory)
    modifies buf
    ensures Shows(buf, Ink(written + octets), memory)
  {
    hide Overlay, Laid, Ink;
    Overwrite(buf, j, octets);
    LaidNext(written, memory, octets);
  }

  method Overwrite(buf: array<byte>, at: nat, octets: Octets)
    requires at + |octets| <= buf.Length
    modifies buf
    ensures buf[..] == Overlay(old(buf[..]), at, octets)
  {
    hide Overlay;
    ghost var was := buf[..];
    CopyInto(octets, buf, at);
    assert buf[..][..at + |octets|] == was[..at] + octets;
    assert buf[..][at + |octets|..] == was[at + |octets|..];
    CopiedIs(buf[..], was, at, octets);
  }

  /** What is left to do when the fields before number i are in place. */
  ghost predicate FieldsLeft(fields: seq<Octets>, i: nat, done: Octets, room: int)
    requires i <= |fields|
  {
    && Joined(fields) == done + Joined(fields[i..])
    && Fitting(fields, room) == done + Fitting(fields[i..], room - |done|)
  }

  lemma FieldsStart(fields: seq<Octets>, room: int)
    ensures FieldsLeft(fields, 0, [], room)
  {
    assert fields[0..] == fields;
    assert [] + Joined(fields) == Joined(fields);
    assert [] + Fitting(fields, room) == Fitting(fields, room);
  }

  lemma NextField(fields: seq<Octets>, i: nat, done: Octets, room: int)
    requires i < |fields| && FieldsLeft(fields, i, done, room)
    ensures if |done| + |fields[i]| > room then Fitting(fields, room) == done && |Joined(fields)| > room
            else FieldsLeft(fields, i + 1, done + fields[i], room)
  {
    var rest := fields[i..];
    assert rest[0] == fields[i] && rest[1..] == fields[i + 1..];
    var tail, fit := Joined(rest[1..]), Fitting(rest[1..], room - |done| - |fields[i]|);
    assert done + (fields[i] + tail) == done + fields[i] + tail;
    assert done + (fields[i] + fit) == done + fields[i] + fit;
    assert done + [] == done;
  }

  lemma AllFields(fields: seq<Octets>, done: Octets, room: int)
    requires FieldsLeft(fields, |fields|, done, room)
    ensures Joined(fields) == done
  {
    assert fields[|fields|..] == [] && done + [] == done;
  }

  /** APPEND16 and APPEND32, several in a row: the first one without room ends it. */
  method AppendFields(buf: array<byte>, bufLen: nat, table: LabelTable, j0: nat, fields: seq<Octets>, ghost p: Packet,
                      ghost memory: Octets)
    returns (ok: bool, next: nat)
    requires bufLen <= buf.Length && Holds(buf, table, j0, p, memory) && fields != []
    modifies buf
    ensures ok <==> PutRaw(p, Joined(fields), bufLen).Some?
    ensures ok ==> Holds(buf, table, next, PutRaw(p, Joined(fields), bufLen).value, memory)
    ensures !ok ==> Shows(buf, FieldsDraft(p, fields, bufLen), memory)
  {
    hide Laid, Ink, Joined, Fitting, FieldsLeft, Shows;
    var j := j0;
    ghost var done: Octets := [];
    FieldsStart(fields, bufLen - j0);
    assert p.octets + [] == p.octets;
    for i := 0 to |fields|
      invariant j == j0 + |done| && (i > 0 ==> j <= bufLen)
      invariant Shows(buf, Ink(p.octets + done), memory)
      invariant FieldsLeft(fields, i, done, bufLen - j0)
    {
      NextField(fields, i, done, bufLen - j0);
      if j + |fields[i]| > bufLen { return false, j; }
      Append(buf, j, fields[i], p.octets + done, memory);
      assert p.octets + done + fields[i] == p.octets + (done + fields[i]);
      done := done + fields[i];
      j := j + |fields[i]|;
    }
    AllFields(fields, done, bufLen - j0);
    return true, j;
  }

  method AppendName(buf: array<byte>, bufLen: nat, table: LabelTable, j: nat, name: Octets, ghost p: Packet,
                    ghost memory: Octets)
    returns (r: int)
    requires Roomy(buf, bufLen, NameOverruns(p, name, bufLen)) && Holds(buf, table, j, p, memory)
    requires 0 !in name
    modifies buf, table
    ensures r == WriterResult(name, p.table, bufLen, j)
    ensures r >= 0 <==> PutName(p, name, bufLen).Some?
    ensures r >= 0 ==> Holds(buf, table, r, PutName(p, name, bufLen).value, memory)
    ensures r < 0 ==> Shows(buf, NameDraft(p, name, bufLen), memory)
  {
    hide Laid, Ink, Overlay, Overruns, Wire, Added, Lookup, NamePart, Remember;
    r := DnsnameToLabels(buf, bufLen, j, name, table);
    if r < 0 {
      PartFits(name, p.table, bufLen - j);
      LaidNext(p.octets, memory, NamePart(name, p.table, bufLen - j));
    } else {
      LaidNext(p.octets, memory, Wire(name, p.table, bufLen - j).octets);
      RememberFits(p.table, Added(name, p.table, j));
    }
  }

  lemma {:induction false} PartFits(name: Octets, table: seq<Entry>, room: int)
    ensures NamePart(name, table, room) == [] || |NamePart(name, table, room)| <= room
    ensures WirePart(name, table, room) == [] || |WirePart(name, table, room)| <= room
    decreases |name|
  {
    var d := FirstDot(name);
    if Lookup(table, name) < 0 && d <= 63 && d + 1 <= room && d < |name| {
      PartFits(name[d + 1..], table, room - d - 1);
    }
  }

  /** What a name as record data adds, and that it does so exactly when the writer succeeds. */
  lemma NameDataIs(p: Packet, name: Octets, space: nat)
    requires space < POINTER_SPACE
    ensures var j := |p.octets| + 2;
            var r := WriterResult(name, p.table, space, j);
            && (r >= 0 <==> PutData(p, NameData(name), space).Some?)
            && (r >= 0 ==>
                  && j < r <= space + 1
                  && Wire(name, p.table, space - j).Written?
                  && r == j + |Wire(name, p.table, space - j).octets|
                  && PutData(p, NameData(name), space).value
                     == Packet(p.octets + U16(r - j) + Wire(name, p.table, space - j).octets,
                               Remember(p.table, Added(name, p.table, j))))
  {
    hide Added, Lookup, Remember, Wire;
    var j := |p.octets| + 2;
    if Wire(name, p.table, space - j).Written? {
      WireFits(name, p.table, space - j);
    }
  }

  /** The length of a name is filled in when the name behind it is written. */
  method AppendNameData(buf: array<byte>, bufLen: nat, table: LabelTable, j: nat, name: Octets, ghost p: Packet,
                        ghost memory: Octets)
    returns (ok: bool, next: nat)
    requires Roomy(buf, bufLen, DataOverruns(p, NameData(name), bufLen)) && bufLen < POINTER_SPACE
    requires j <= bufLen && Holds(buf, table, j, p, memory)
    requires 0 !in name
    modifies buf, table
    ensures ok <==> PutData(p, NameData(name), bufLen).Some?
    ensures ok ==> Holds(buf, table, next, PutData(p, NameData(name), bufLen).value, memory)
    ensures !ok ==> Shows(buf, DataDraft(p, NameData(name), bufLen), memory)
  {
    hide Wire, Added, Lookup, Remember, PutData, WriterResult, Overruns, Laid, Ink, Blank, Overlay, NamePart;
    NameDataIs(p, name, bufLen);
    var r := DnsnameToLabels(buf, bufLen, j + 2, name, table);
    if r < 0 {
      PartFits(name, p.table, bufLen - j - 2);
      LaidMore(Ink(p.octets), memory, 2, NamePart(name, p.table, bufLen - j - 2));
      return false, j;
    }
    ghost var wire := Wire(name, p.table, bufLen - j - 2).octets;
    LaidMore(Ink(p.octets), memory, 2, wire);
    RememberFits(p.table, Added(name, p.table, j + 2));
    Overwrite(buf, j, U16(r - j - 2));
    LaidBetween(p.octets, memory, U16(r - j - 2), wire);
    return true, r;
  }

  lemma RememberFits(table: seq<Entry>, entries: seq<Entry>)
    requires |table| <= MAX_LABELS
    ensures |Remember(table, entries)| <= MAX_LABELS
  {
  }

  lemma LengthTakesTwo(n: u16)
    ensures |U16(n)| == 2 && n % 0x1_0000 == n
  {
  }

  method AppendRawData(buf: array<byte>, bufLen: nat, table: LabelTable, j: nat, octets: Octets, ghost p: Packet,
                       ghost memory: Octets)
    returns (ok: bool, next: nat)
    requires bufLen <= buf.Length && Holds(buf, table, j, p, memory)
    requires |octets| < 0x1_0000
    modifies buf
    ensures ok <==> PutData(p, RawData(octets), bufLen).Some?
    ensures ok ==> Holds(buf, table, next, PutData(p, RawData(octets), bufLen).value, memory)
    ensures !ok ==> Shows(buf, DataDraft(p, RawData(octets), bufLen), memory)
  {
    hide Laid, Ink, Shows, U16;
    LengthTakesTwo(|octets|);
    if j + 2 > bufLen {
      assert p.octets + [] == p.octets;
      return false, j;
    }
    Append(buf, j, U16(|octets|), p.octets, memory);
    if j + 2 + |octets| > bufLen { return false, j; }
    Append(buf, j + 2, octets, p.octets + U16(|octets|), memory);
    Reassociate(p.octets, U16(|octets|), octets);
    return true, j + 2 + |octets|;
  }

  predicate CRecord(r: Record) {
    && 0 !in r.name
    && if r.data.NameData? then 0 !in r.data.name else |r.data.octets| < 0x1_0000
  }

  method AppendRecord(buf: array<byte>, bufLen: nat, table: LabelTable, j: nat, item: Record, ghost p: Packet,
                      ghost memory: Octets)
    returns (ok: bool, next: nat)
    requires Roomy(buf, bufLen, RecordOverruns(p, item, bufLen)) && bufLen < POINTER_SPACE
    requires Holds(buf, table, j, p, memory)
    requires CRecord(item)
    modifies buf, table
    ensures ok <==> PutRecord(p, item, bufLen).Some?
    ensures ok ==> Holds(buf, table, next, PutRecord(p, item, bufLen).value, memory)
    ensures !ok ==> Shows(buf, RecordDraft(p, item, bufLen), memory)
  {
    hide PutName, PutData, WriterResult, Shows, NameDraft, FieldsDraft, DataDraft, Joined, U16, U32;
    RecordFieldsAre(item);
    var r := AppendName(buf, bufLen, table, j, item.name, p, memory);
    if r < 0 { return false, j; }
    ghost var named := PutName(p, item.name, bufLen).value;
    ok, next := AppendFields(buf, bufLen, table, r, RecordFields(item), named, memory);
    if !ok { return false, j; }
    ghost var fixed := PutFixed(p, item, bufLen).value;
    var at := next;
    if item.data.NameData? {
      ok, next := AppendNameData(buf, bufLen, table, at, item.data.name, fixed, memory);
    } else {
      ok, next := AppendRawData(buf, bufLen, table, at, item.data.octets, fixed, memory);
    }
  }

  lemma RecordFieldsAre(r: Record)
    ensures Joined(RecordFields(r)) == U16(r.kind) + U16(r.cls) + U32(r.ttl)
  {
    hide U16, U32;
    var a, b, c := U16(r.kind), U16(r.cls), U32(r.ttl);
    JoinedMore(a, [b, c]);
    JoinedMore(b, [c]);
    JoinedMore(c, []);
    assert a + (b + c) == a + b + c;
  }

  lemma QuestionFieldsAre(q: Question)
    ensures Joined(QuestionFields(q)) == U16(q.kind) + U16(q.cls)
  {
    hide U16;
    JoinedMore(U16(q.kind), [U16(q.cls)]);
    JoinedMore(U16(q.cls), []);
  }

  lemma JoinedMore(a: Octets, fields: seq<Octets>)
    ensures Joined([a] + fields) == a + Joined(fields)
    ensures fields == [] ==> [a] + fields == [a] && Joined([a]) == a
    ensures |fields| == 1 ==> [a] + fields == [a, fields[0]]
    ensures |fields| == 2 ==> [a] + fields == [a, fields[0], fields[1]]
  {
    assert ([a] + fields)[1..] == fields;
  }

  /** The answer to a question whose name cannot be written: its error, or 0 when the questions only lack room. */
  function QuestionsError(p: Packet, qs: seq<Question>, space: nat): (e: int)
    ensures e <= 0
    decreases |qs|
  {
    if qs == [] then 0
    else if PutName(p, qs[0].name, space).None? then WriterResult(qs[0].name, p.table, space, |p.octets|)
    else if PutQuestion(p, qs[0], space).None? then 0
    else QuestionsError(PutQuestion(p, qs[0], space).value, qs[1..], space)
  }

  lemma {:induction false} QuestionsAppended(p: Packet, qs: seq<Question>, space: nat)
    requires PutQuestions(p, qs, space).Some?
    ensures p.octets <= PutQuestions(p, qs, space).value.octets
    ensures QuestionsError(p, qs, space) == 0
    decreases |qs|
  {
    if qs != [] {
      var one := PutQuestion(p, qs[0], space).value;
      assert p.octets <= one.octets;
      QuestionsAppended(one, qs[1..], space);
    }
  }

  /** One question; `code` is negative when its name could not be written, 0 otherwise. */
  method AppendQuestion(buf: array<byte>, bufLen: nat, table: LabelTable, j: nat, q: Question, ghost p: Packet,
                        ghost memory: Octets)
    returns (ok: bool, code: int, next: nat)
    requires Roomy(buf, bufLen, NameOverruns(p, q.name, bufLen)) && Holds(buf, table, j, p, memory)
    requires 0 !in q.name
    modifies buf, table
    ensures ok <==> PutQuestion(p, q, bufLen).Some?
    ensures ok ==> Holds(buf, table, next, PutQuestion(p, q, bufLen).value, memory)
    ensures !ok ==> Shows(buf, QuestionDraft(p, q, bufLen), memory)
    ensures code == if PutName(p, q.name, bufLen).None? then WriterResult(q.name, p.table, bufLen, j) else 0
    ensures code == 0 <==> PutName(p, q.name, bufLen).Some?
  {
    hide PutName, WriterResult, NameOverruns, Shows, NameDraft, FieldsDraft, Joined, U16;
    QuestionFieldsAre(q);
    var r := AppendName(buf, bufLen, table, j, q.name, p, memory);
    if r < 0 { return false, r, j; }
    ghost var named := PutName(p, q.name, bufLen).value;
    ok, next := AppendFields(buf, bufLen, table, r, QuestionFields(q), named, memory);
    code := 0;
  }

  /** The question section; `code` is negative when a name could not be written, 0 otherwise. */
  method AppendQuestions(buf: array<byte>, bufLen: nat, table: LabelTable, j0: nat, qs: seq<Question>,
                         ghost p0: Packet, ghost memory: Octets)
    returns (ok: bool, code: int, next: nat)
    requires Roomy(buf, bufLen, QuestionsOverrun(p0, qs, bufLen)) && bufLen < POINTER_SPACE
    requires Holds(buf, table, j0, p0, memory)
    requires forall q :: q in qs ==> 0 !in q.name
    modifies buf, table
    ensures ok <==> PutQuestions(p0, qs, bufLen).Some?
    ensures ok ==> Holds(buf, table, next, PutQuestions(p0, qs, bufLen).value, memory)
    ensures code == QuestionsError(p0, qs, bufLen)
    ensures !ok ==> Shows(buf, QuestionsDraft(p0, qs, bufLen), memory)
  {
    hide PutName, PutQuestion, WriterResult, NameOverruns, Shows, QuestionDraft;
    var j := j0;
    ghost var p := p0;
    for i := 0 to |qs|
      invariant Holds(buf, table, j, p, memory)
      invariant PutQuestions(p0, qs, bufLen) == PutQuestions(p, qs[i..], bufLen)
      invariant QuestionsError(p0, qs, bufLen) == QuestionsError(p, qs[i..], bufLen)
      invariant QuestionsDraft(p0, qs, bufLen) == QuestionsDraft(p, qs[i..], bufLen)
      invariant Roomy(buf, bufLen, QuestionsOverrun(p, qs[i..], bufLen))
    {
      assert qs[i..][0] == qs[i] && qs[i..][1..] == qs[i + 1..];
      UnnamedQuestion(p, qs[i], bufLen);
      ok, code, next := AppendQuestion(buf, bufLen, table, j, qs[i], p, memory);
      if !ok { return false, code, j; }
      p := PutQuestion(p, qs[i], bufLen).value;
      j := next;
    }
    return true, 0, j;
  }

  lemma UnnamedQuestion(p: Packet, q: Question, space: nat)
    ensures PutName(p, q.name, space).None? ==> PutQuestion(p, q, space).None?
  {
    hide PutName;
  }

  /** One of the three record sections. */
  method AppendRecords(buf: array<byte>, bufLen: nat, table: LabelTable, j0: nat, rs: seq<Record>, ghost p0: Packet,
                       ghost memory: Octets)
    returns (ok: bool, next: nat)
    requires Roomy(buf, bufLen, RecordsOverrun(p0, rs, bufLen)) && bufLen < POINTER_SPACE
    requires Holds(buf, table, j0, p0, memory)
    requires forall r :: r in rs ==> CRecord(r)
    modifies buf, table
    ensures ok <==> PutRecords(p0, rs, bufLen).Some?
    ensures ok ==> Holds(buf, table, next, PutRecords(p0, rs, bufLen).value, memory)
    ensures !ok ==> Shows(buf, RecordsDraft(p0, rs, bufLen), memory)
  {
    hide PutRecord, CRecord, RecordOverruns, Shows, RecordDraft;
    var j := j0;
    ghost var p := p0;
    for i := 0 to |rs|
      invariant Holds(buf, table, j, p, memory)
      invariant PutRecords(p0, rs, bufLen) == PutRecords(p, rs[i..], bufLen)
      invariant RecordsDraft(p0, rs, bufLen) == RecordsDraft(p, rs[i..], bufLen)
      invariant Roomy(buf, bufLen, RecordsOverrun(p, rs[i..], bufLen))
    {
      assert rs[i..][0] == rs[i] && rs[i..][1..] == rs[i + 1..];
      ok, next := AppendRecord(buf, bufLen, table, j, rs[i], p, memory);
      if !ok { return false, j; }
      p := PutRecord(p, rs[i], bufLen).value;
      j := next;
    }
    return true, j;
  }

  predicate CRequest(req: Request) {
    && (forall q :: q in req.questions ==> 0 !in q.name)
    && (forall r :: r in req.answers ==> CRecord(r))
    && (forall r :: r in req.authority ==> CRecord(r))
    && (forall r :: r in req.additional ==> CRecord(r))
  }

  /** The truncated bit in the third octet of a message. */
  function Marked(octets: Octets): (t: Octets)
    requires |octets| >= 12
    ensures |t| == |octets|
  {
    octets[2 := Or8(octets[2], 0x02)]
  }

  /** It leaves the other fields of a header as they are. */
  lemma MarkedSays(octets: Octets, req: Request, err: nat)
    requires err < 16 && HeaderAt(octets, req, err, false)
    ensures HeaderAt(Marked(octets), req, err, true)
  {
    hide Or8, Bit;
    var f, g := FromU16(octets, 2), FromU16(Marked(octets), 2);
    forall k | 0 <= k < 16 ensures Bit(g, k) <==> Bit(f, k) || k == TC {
      MarkedBit(octets[2], octets[3], k);
    }
  }

  lemma MarkedBit(high: byte, low: byte, k: nat)
    ensures Bit(Or8(high, 0x02) * 256 + low, k) <==> Bit(high * 256 + low, k) || k == TC
  {
    hide Bit, Or;
    Powers();
    PairBit(high, low, 8, k);
    PairBit(Or8(high, 0x02), low, 8, k);
    if k >= 8 {
      OrBit(high, 0x02, k - 8);
      assert Pow2(1) == 0x02;
      OneBit(1, k - 8);
    }
  }

  lemma SameFront(a: Octets, b: Octets, req: Request, err: nat, cut: bool)
    requires HeaderAt(a, req, err, cut) && |b| >= 12 && a[..12] == b[..12]
    ensures HeaderAt(b, req, err, cut)
  {
    hide ResponseFlags;
    assert forall k :: 0 <= k < 12 ==> a[..12][k] == a[k] && b[..12][k] == b[k];
  }

  /** The response does not go out whole. */
  predicate IsCut(req: Request, err: nat)
    requires err < 16
  {
    Response(req, err).None? || |Response(req, err).value.octets| > DATAGRAM
  }

  /** What is sent starts with the header of the response, marked if it is cut. */
  lemma SentHeader(req: Request, err: nat, response: Octets)
    requires err < 16 && |response| >= 12
    requires if Response(req, err).Some?
             then response == (var octets := Response(req, err).value.octets;
                               if |octets| <= DATAGRAM || |octets| < 12 then octets else Marked(octets)[..DATAGRAM])
             else |Kept(req, err).octets| >= 12 && response[..12] == Marked(Kept(req, err).octets)[..12]
    ensures HeaderAt(response, req, err, IsCut(req, err))
  {
    hide Response, Kept, Header, HeaderAt, Or8;
    if Response(req, err).Some? {
      HeaderStays(req, err);
      var octets := Response(req, err).value.octets;
      if |octets| > DATAGRAM {
        MarkedSays(octets, req, err);
        assert Marked(octets)[..DATAGRAM][..12] == Marked(octets)[..12];
        SameFront(Marked(octets), response, req, err, true);
      }
    } else {
      var kept := Kept(req, err).octets;
      KeptHasHeader(req, err);
      HeaderSays(req, err, kept);
      MarkedSays(kept, req, err);
      SameFront(Marked(kept), response, req, err, true);
    }
  }

  /** The three record sections; ok only when all of them fit. */
  method AppendSections(buf: array<byte>, table: LabelTable, j: nat, req: Request, ghost p: Packet,
                        ghost memory: Octets)
    returns (ok: bool, next: nat)
    requires Roomy(buf, RESPONSE_SPACE, SectionsOverrun(p, req)) && Holds(buf, table, j, p, memory)
    requires CRequest(req)
    modifies buf, table
    ensures ok <==> PutSections(p, req).Some?
    ensures ok ==> Holds(buf, table, next, PutSections(p, req).value, memory)
    ensures !ok ==> Shows(buf, SectionsDraft(p, req), memory)
  {
    hide PutRecords, RecordsOverrun, CRecord, Shows, RecordsDraft;
    ok, next := AppendRecords(buf, RESPONSE_SPACE, table, j, req.answers, p, memory);
    if !ok { return; }
    ghost var an := PutRecords(p, req.answers, RESPONSE_SPACE).value;
    ok, next := AppendRecords(buf, RESPONSE_SPACE, table, next, req.authority, an, memory);
    if !ok { return; }
    ghost var ns := PutRecords(an, req.authority, RESPONSE_SPACE).value;
    ok, next := AppendRecords(buf, RESPONSE_SPACE, table, next, req.additional, ns, memory);
  }

  /** The response in the buffer, or as much of it as the writer gets to. */
  method WriteResponse(req: Request, err: nat, buf: array<byte>) returns (ok: bool, code: int, j: nat)
    requires err < 16 && Roomy(buf, RESPONSE_SPACE, ResponseOverruns(req, err)) && CRequest(req)
    modifies buf
    ensures code == QuestionsError(Begun(req, err), req.questions, RESPONSE_SPACE)
    ensures ok <==> Response(req, err).Some?
    ensures ok ==> code == 0 && j == |Response(req, err).value.octets| <= buf.Length
    ensures Shows(buf, ResponseDraft(req, err), old(buf[..]))
  {
    hide PutQuestions, PutSections, QuestionsDraft, SectionsDraft, Header, QuestionsError, Ink, Laid, Shows;
    hide QuestionsOverrun, SectionsOverrun;
    var table := new LabelTable();
    ghost var p, memory := Begun(req, err), buf[..];
    NothingShown(buf);
    Append(buf, 0, Header(req, err), [], memory);
    assert [] + Header(req, err) == Header(req, err);
    KeptIsDrafted(req, err);
    ok, code, j := AppendQuestions(buf, RESPONSE_SPACE, table, 12, req.questions, p, memory);
    if ok {
      ghost var q := PutQuestions(p, req.questions, RESPONSE_SPACE).value;
      QuestionsAppended(p, req.questions, RESPONSE_SPACE);
      ok, j := AppendSections(buf, table, j, req, q, memory);
    }
  }

  lemma NothingShown(buf: array<byte>)
    ensures Shows(buf, Ink([]), buf[..])
  {
    NothingLaid(buf[..]);
  }

  /**
   * evdns_server_request_format_response: 0 and the response, or a negative answer. A response over 512
   * octets, or one that meets something it cannot write behind the question names, is cut to 512 octets with
   * the truncated bit set. `memory` is what the buffer's memory holds before: it is sent wherever nothing has
   * been written. An octet of memory behind the 1500 is needed if a name overruns.
   */
  method FormatResponse(req: Request, err: int, memory: Octets) returns (r: int, response: Octets)
    requires CRequest(req) && |memory| >= RESPONSE_SPACE
    requires 0 <= err <= 15 && |memory| == RESPONSE_SPACE ==> !ResponseOverruns(req, err)
    ensures r == if err < 0 || err > 15 then -1 else QuestionsError(Begun(req, err), req.questions, RESPONSE_SPACE)
    ensures r == 0 && Response(req, err).Some? ==>
              var octets := Response(req, err).value.octets;
              response == if |octets| <= DATAGRAM then octets else Marked(octets)[..DATAGRAM]
    ensures r == 0 && Response(req, err).None? ==>
              var kept := Kept(req, err).octets;
              && response == Marked(Laid(ResponseDraft(req, err), memory))[..DATAGRAM]
              && 12 <= |kept|
              && if |kept| <= DATAGRAM then Marked(kept) <= response else response == Marked(kept)[..DATAGRAM]
    ensures r == 0 ==> HeaderAt(response, req, err, IsCut(req, err))
  {
    hide Response, ResponseDraft, Header, QuestionsError, Kept, ResponseOverruns, Laid, Ink, HeaderAt, Or8;
    if err < 0 || err > 15 { return -1, []; }
    var buf := new byte[|memory|](k requires 0 <= k < |memory| => memory[k]);
    assert buf[..] == memory;
    var ok, code, j := WriteResponse(req, err, buf);
    if code < 0 { return code, []; }
    KeptIsDrafted(req, err);
    if ok {
      LaidStarts(Response(req, err).value.octets, memory);
      assert buf[..j] == buf[..][..j] == Response(req, err).value.octets;
    }
    KeptIsLaid(req, err, memory);
    if !ok || j > DATAGRAM {
      j := Truncate(buf);
      assert buf[..j] == buf[..][..j];
    }
    SentHeader(req, err, buf[..j]);
    return 0, buf[..j];
  }

  /** All whole questions and records in front of what does not fit are in the buffer. */
  lemma KeptIsLaid(req: Request, err: nat, memory: Octets)
    requires err < 16 && |memory| >= RESPONSE_SPACE
    ensures var kept, sent := Kept(req, err).octets, Marked(Laid(ResponseDraft(req, err), memory))[..DATAGRAM];
            && 12 <= |kept|
            && if |kept| <= DATAGRAM then Marked(kept) <= sent else sent == Marked(kept)[..DATAGRAM]
  {
    hide Kept, ResponseDraft, Ink, Laid, Header, Or8;
    KeptHasHeader(req, err);
    KeptIsDrafted(req, err);
    FrontIsLaid(Kept(req, err).octets, ResponseDraft(req, err), memory);
  }

  lemma FrontIsLaid(front: Octets, d: Draft, memory: Octets)
    requires Ink(front) <= d && 12 <= |front| && |memory| >= DATAGRAM
    ensures var sent := Marked(Laid(d, memory))[..DATAGRAM];
            if |front| <= DATAGRAM then Marked(front) <= sent else sent == Marked(front)[..DATAGRAM]
  {
    hide Ink, Laid, Or8;
    forall k | 0 <= k < |front| ensures IsWritten(d, k) && d[k].value == front[k] {
      assert Ink(front)[k] == d[k];
    }
  }

  /** Of the response to that request 500 octets are what was in memory. */
  method BadLabelSendsMemory(memory: Octets) returns (response: Octets)
    requires |memory| == RESPONSE_SPACE
    ensures |response| == DATAGRAM && response[12..] == memory[12..DATAGRAM]
  {
    hide Response, ResponseDraft, Header, ResponseOverruns, Ink, Kept, Or8;
    BadLabelStops();
    var r;
    r, response := FormatResponse(BadLabelRequest(), 0, memory);
    assert r == 0;
    var sent := Laid(Ink(Header(BadLabelRequest(), 0)), memory);
    forall k | 12 <= k < DATAGRAM ensures response[k] == memory[k] {
      assert Marked(sent)[k] == sent[k];
    }
  }

  method Truncate(buf: array<byte>) returns (j: nat)
    requires buf.Length >= DATAGRAM
    modifies buf
    ensures j == DATAGRAM && buf[..] == Marked(old(buf[..]))
  {
    buf[2] := Or8(buf[2], 0x02);
    return DATAGRAM;
  }
}
