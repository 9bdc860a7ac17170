/** A query from the client's writer to the server's reader. */
module DnsQuery {
  import opened Bits
  import opened DnsNames
  import opened DnsCodec
  import opened DnsMessage
  import opened DnsServer
  import opened Options
  import opened Words

  // ----- The client's writer -----

  /** A standard query with one question, recursion desired. */
  function QueryHeader(transId: u16): (h: Octets)
    ensures |h| == 12
  {
    U16(transId) + U16(0x0100) + U16(1) + U16(0) + U16(0) + U16(0)
  }

  /** The query; names in it are not compressed. */
  function Query(transId: u16, q: Question, space: nat): Option<Packet> {
    if space < 12 || |q.name| > 255 || !Wire(q.name, [], space - 12).Written? then None
    else PutRaw(Packet(QueryHeader(transId) + Wire(q.name, [], space - 12).octets, []), U16(q.kind) + U16(q.cls), space)
  }

  /** evdns_request_len: the space that is set aside for a query. */
  function RequestLen(nameLen: nat): nat { 96 + nameLen + 2 + 4 }

  /** That much space is enough for every name that has one, and no octet behind it is needed. */
  lemma RequestLenSuffices(transId: u16, q: Question, space: nat)
    requires space >= RequestLen(|q.name|)
    ensures !Overruns(q.name, [], space, 12)
    ensures Query(transId, q, space).Some? <==> |q.name| <= 255 && Spelled(q.name, [])
    ensures Query(transId, q, space).Some? ==>
              |Query(transId, q, space).value.octets| == 12 + SpelledLength(q.name) + 4
  {
    hide Wire, Spelled, EndsEmpty;
    if Spelled(q.name, []) {
      SpelledIsLong(q.name, [], space - 12);
    } else {
      OnlyLongLabels(q.name, space - 12);
    }
  }

  /** Without a table only a label over 63 octets keeps a name from being written out. */
  lemma {:induction false} OnlyLongLabels(name: Octets, room: int)
    requires !Spelled(name, [])
    ensures !Wire(name, [], room).Written?
    decreases |name|
  {
    var d := FirstDot(name);
    if d <= 63 && d < |name| {
      OnlyLongLabels(name[d + 1..], room - d - 1);
    }
  }

  /** evdns_request_data_build: the length of the query, or a negative answer. */
  method RequestDataBuild(q: Question, transId: u16, buf: array<byte>, bufLen: nat) returns (r: int)
    requires Roomy(buf, bufLen, Overruns(q.name, [], bufLen, 12))
    requires 0 !in q.name
    modifies buf
    ensures r >= 0 <==> Query(transId, q, bufLen).Some?
    ensures r >= 0 ==> r <= bufLen && buf[..r] == Query(transId, q, bufLen).value.octets
  {
    hide Wire, Overruns, Overlay;
    if 12 > bufLen { return -1; }
    CopyInto(QueryHeader(transId), buf, 0);
    assert buf[..12] == QueryHeader(transId);
    ghost var was := buf[..];
    r := DnsnameToLabels(buf, bufLen, 12, q.name, null);
    if r < 0 { return; }
    WrittenIs(buf, was, 12, Wire(q.name, [], bufLen - 12).octets);
    if r + 4 > bufLen { return -1; }
    CopyInto(U16(q.kind) + U16(q.cls), buf, r);
    r := r + 4;
  }

  /** The part of request_new that builds the packet: names of 256 octets and more are refused. */
  method BuildRequest(q: Question, transId: u16) returns (ok: bool, packet: Octets)
    requires 0 !in q.name
    ensures ok <==> |q.name| <= 255 && Spelled(q.name, [])
    ensures ok ==> Some(packet) == PacketOf(Query(transId, q, RequestLen(|q.name|)))
  {
    hide Query, Spelled, Overruns;
    if |q.name| >= 256 { return false, []; }
    RequestLenSuffices(transId, q, RequestLen(|q.name|));
    var buf := new byte[RequestLen(|q.name|)];
    var r := RequestDataBuild(q, transId, buf, RequestLen(|q.name|));
    if r < 0 { return false, []; }
    return true, buf[..r];
  }

  function PacketOf(p: Option<Packet>): Option<Octets> {
    if p.None? then None else Some(p.value.octets)
  }

  // ----- The server's reader -----

  /** The part of a text that a C string keeps. */
  function UpToZero(text: Octets): (s: Octets)
    ensures s <= text && 0 !in s
    ensures 0 !in text ==> s == text
  {
    if text == [] || text[0] == 0 then [] else
      assert text == [text[0]] + text[1..];
      [text[0]] + UpToZero(text[1..])
  }

  /** n questions read one after another from j on; None as soon as one cannot be read. */
  function QuestionsIn(pkt: Octets, j: nat, n: nat): Option<seq<Question>>
    decreases n
  {
    if n == 0 then Some([])
    else if Parsed(pkt, j, NAME_SPACE).None? || NameEnd(pkt, j) + 4 > |pkt| then None
    else
      var e := NameEnd(pkt, j);
      var rest := QuestionsIn(pkt, e + 4, n - 1);
      if rest.None? then None
      else
        Some([Question(UpToZero(Parsed(pkt, j, NAME_SPACE).value), FromU16(pkt, e), FromU16(pkt, e + 2))] + rest.value)
  }

  /** One question in front of the others. */
  lemma FirstQuestion(pkt: Octets, j: nat, n: nat)
    requires n > 0
    ensures var e := NameEnd(pkt, j);
            QuestionsIn(pkt, j, n)
            == if Parsed(pkt, j, NAME_SPACE).None? || e + 4 > |pkt| then None
               else
                 Ahead([Question(UpToZero(Parsed(pkt, j, NAME_SPACE).value), FromU16(pkt, e), FromU16(pkt, e + 2))],
                       QuestionsIn(pkt, e + 4, n - 1))
  {
  }

  predicate IsAnswer(flags: u16) { And(flags, 0x8000) != 0 }

  /** Recursion desired and checking disabled, which are all that is kept of the flags of a query. */
  function KeptFlags(flags: u16): u16 { And(flags, 0x0110) }

  /** Whether the flags name an operation other than a standard query. */
  predicate Unsupported(flags: u16) { And(flags, 0x7800) != 0 }

  /** An answer is what has the first bit set. */
  lemma AnswerIff(flags: u16)
    ensures IsAnswer(flags) <==> Bit(flags, QR)
  {
    hide And, Bit;
    Powers();
    var top := And(flags, 0x8000);
    forall k | 0 <= k < 16 ensures Bit(top, k) <==> k == QR && Bit(flags, QR) {
      AndBit(flags, 0x8000, k);
      OneBit(15, k);
    }
    AnyBit(top, QR);
  }

  lemma AnyBit(x: u16, n: nat)
    requires n < 16 && forall k :: 0 <= k < 16 && k != n ==> !Bit(x, k)
    ensures x != 0 <==> Bit(x, n)
  {
    hide Bit;
    NoBits(n);
    if !Bit(x, n) {
      forall k | 0 <= k < 16 ensures Bit(x, k) <==> Bit(0, k) {
        NoBits(k);
      }
      Powers();
      SameBits(x, 0, 16);
    }
  }

  /** The two bits that stay of the flags of a query: recursion desired, and checking disabled. */
  lemma KeptFlagsAre(flags: u16, k: nat)
    ensures Bit(KeptFlags(flags), k) <==> (k == RD || k == CD) && Bit(flags, k)
  {
    AndBit(flags, 0x0110, k);
    KeptBits(k);
  }

  lemma KeptBits(k: nat)
    ensures Bit(0x0110, k) <==> k == RD || k == CD
  {
    hide Bit;
    Powers();
    assert Pow2(4) == 0x0010;
    assert Pow2(8) == 1 * Pow2(8) + 0;
    PairBit(1, 0x0010, 8, k);
    OneBit(4, k);
    if k >= 8 { OneBit(0, k - 8); }
  }

  /** The test for other operations comes after the flags have been cut down, and then never fires. */
  lemma NothingIsUnsupported(flags: u16)
    ensures !Unsupported(KeptFlags(flags))
  {
    var kept := KeptFlags(flags);
    var other := And(kept, 0x7800);
    hide And, Bit, KeptFlags;
    forall k | 0 <= k < 16 ensures !Bit(other, k) {
      AndBit(kept, 0x7800, k);
      KeptFlagsAre(flags, k);
      OpcodeBits(k);
    }
    AnyBit(other, 0);
  }

  lemma OpcodeBits(k: nat)
    ensures Bit(0x7800, k) <==> 11 <= k < 15
  {
    hide Bit;
    Powers();
    assert Pow2(11) == 0x800;
    PairBit(0x0f, 0, 11, k);
    NoBits(k);
    if k >= 11 { FourBits(k - 11); }
  }

  lemma FourBits(k: nat)
    ensures Bit(0x0f, k) <==> k < 4
  {
    hide Bit;
    assert Pow2(4) == 16;
    PairBit(0, 0x0f, 4, k);
    if k < 4 { LowBits(k); } else { NoBits(k - 4); }
  }

  lemma LowBits(k: nat)
    requires k < 4
    ensures Bit(0x0f, k)
  {
  }

  /** Another operation than a standard query: one of the four bits of its code is set. */
  lemma UnsupportedIff(flags: u16)
    ensures Unsupported(flags) <==> Bit(flags, 11) || Bit(flags, 12) || Bit(flags, 13) || Bit(flags, 14)
  {
    hide And, Bit;
    var code := And(flags, 0x7800);
    forall k | 0 <= k < 16 ensures Bit(code, k) <==> 11 <= k < 15 && Bit(flags, k) {
      AndBit(flags, 0x7800, k);
      OpcodeBits(k);
    }
    if Bit(flags, 11) || Bit(flags, 12) || Bit(flags, 13) || Bit(flags, 14) {
      NoBits(11);
      NoBits(12);
      NoBits(13);
      NoBits(14);
      assert Bit(code, 11) || Bit(code, 12) || Bit(code, 13) || Bit(code, 14);
    } else {
      AnyBit(code, 0);
    }
  }

  /**
   * request_parse: the transaction id and the questions of a query. An answer is refused; so is what is not a
   * standard query, after the test has lost sight of it.
   */
  method RequestParse(packet: Octets) returns (ok: bool, transId: u16, flags: u16, questions: seq<Question>)
    ensures ok <==>
              && |packet| >= 12
              && !IsAnswer(FromU16(packet, 2))
              && QuestionsIn(packet, 12, FromU16(packet, 4)).Some?
              && !Unsupported(KeptFlags(FromU16(packet, 2)))
    ensures ok ==>
              && transId == FromU16(packet, 0)
              && flags == KeptFlags(FromU16(packet, 2))
              && questions == QuestionsIn(packet, 12, FromU16(packet, 4)).value
  {
    hide QuestionsIn, UpToZero, Parsed, KeptFlags, Unsupported;
    ok, transId, flags, questions := false, 0, 0, [];
    if 12 > |packet| { return; }
    transId, flags := FromU16(packet, 0), FromU16(packet, 2);
    if IsAnswer(flags) { return; }
    flags := KeptFlags(flags);
    var count := FromU16(packet, 4);
    var tmpName := new byte[NAME_SPACE];
    var j := 12;
    AheadOfNothing(QuestionsIn(packet, 12, count));
    for i := 0 to count
      invariant 12 <= j <= |packet|
      invariant QuestionsIn(packet, 12, count) == Ahead(questions, QuestionsIn(packet, j, count - i))
    {
      FirstQuestion(packet, j, count - i);
      var parsed, next := NameParse(packet, j, tmpName);
      if !parsed || next + 4 > |packet| { return; }
      var name := CString(tmpName, Parsed(packet, j, NAME_SPACE).value);
      var q := Question(name, FromU16(packet, next), FromU16(packet, next + 2));
      AheadOfOne(questions, q, QuestionsIn(packet, next + 4, count - i - 1));
      questions := questions + [q];
      j := next + 4;
    }
    NoQuestions(packet, j);
    AheadOfEnd(questions);
    if Unsupported(flags) { return; }
    ok := true;
  }

  function Ahead(done: seq<Question>, rest: Option<seq<Question>>): Option<seq<Question>> {
    if rest.None? then None else Some(done + rest.value)
  }

  lemma AheadOfNothing(rest: Option<seq<Question>>)
    ensures Ahead([], rest) == rest
  {
    if rest.Some? { assert [] + rest.value == rest.value; }
  }

  lemma AheadOfOne(done: seq<Question>, q: Question, rest: Option<seq<Question>>)
    ensures Ahead(done, Ahead([q], rest)) == Ahead(done + [q], rest)
  {
    if rest.Some? { assert done + ([q] + rest.value) == done + [q] + rest.value; }
  }

  lemma NoQuestions(pkt: Octets, j: nat)
    ensures QuestionsIn(pkt, j, 0) == Some([])
  {
  }

  lemma AheadOfEnd(done: seq<Question>)
    ensures Ahead(done, Some([])) == Some(done)
  {
    assert done + [] == done;
  }

  /** strlen and memcpy: the octets before the first zero. */
  method CString(from: array<byte>, ghost text: Octets) returns (s: Octets)
    requires |text| < from.Length && from[..|text|] == text && from[|text|] == 0
    ensures s == UpToZero(text)
  {
    var n := 0;
    while from[n] != 0
      invariant n <= |text| && 0 !in from[..n]
      decreases |text| - n
    {
      n := n + 1;
    }
    assert from[..n] == text[..n];
    assert n < |text| ==> from[n] == from[..|text|][n];
    CutAtZero(text, n);
    return from[..n];
  }

  lemma {:induction false} CutAtZero(text: Octets, n: nat)
    requires n <= |text| && 0 !in text[..n]
    requires n < |text| ==> text[n] == 0
    ensures UpToZero(text) == text[..n]
    decreases n
  {
    if n > 0 {
      assert text[0] == text[..n][0];
      assert text[1..][..n - 1] == text[..n][1..];
      CutAtZero(text[1..], n - 1);
      assert text[..n] == [text[0]] + text[1..][..n - 1];
    }
  }

  // ----- From one to the other -----

  lemma U16IsRead(pkt: Octets, j: nat, x: u16)
    requires OctetsAt(pkt, j, U16(x), j + 2)
    ensures FromU16(pkt, j) == x
  {
    assert pkt[j] == pkt[j..j + 2][0] && pkt[j + 1] == pkt[j..j + 2][1];
  }

  lemma QuestionIsRead(pkt: Octets, j: nat, q: Question, next: nat)
    requires QuestionAt(pkt, j, q, next) && 0 !in q.name
    ensures var e := NameEnd(pkt, j);
            && e + 4 == next <= |pkt|
            && Parsed(pkt, j, NAME_SPACE) == Some(q.name)
            && FromU16(pkt, e) == q.kind && FromU16(pkt, e + 2) == q.cls
  {
    var e := NameEnd(pkt, j);
    assert pkt[e..e + 2] == pkt[e..next][..2] && pkt[e + 2..e + 4] == pkt[e..next][2..];
    U16IsRead(pkt, e, q.kind);
    U16IsRead(pkt, e + 2, q.cls);
  }

  function FromU32(pkt: Octets, j: nat): u32
    requires j + 4 <= |pkt|
  {
    FromU16(pkt, j) * 0x1_0000 + FromU16(pkt, j + 2)
  }

  lemma U32IsRead(pkt: Octets, j: nat, x: u32)
    requires OctetsAt(pkt, j, U32(x), j + 4)
    ensures FromU32(pkt, j) == x
  {
    assert pkt[j..j + 2] == pkt[j..j + 4][..2] && pkt[j + 2..j + 4] == pkt[j..j + 4][2..];
    U16IsRead(pkt, j, x / 0x1_0000);
    U16IsRead(pkt, j + 2, x % 0x1_0000);
  }

  lemma Inside(s: Octets, a: nat, b: nat, i: nat, j: nat)
    requires a <= b <= |s| && i <= j <= b - a
    ensures s[a + i..a + j] == s[a..b][i..j]
  {
    var t := s[a..b];
    forall k | 0 <= k < j - i ensures s[a + i..a + j][k] == t[i..j][k] {
      assert t[i..j][k] == t[i + k];
    }
  }

  /** The fields of a record, section 4.1.3 of RFC 1035: type, class, time to live, length of the data, data. */
  lemma RecordIsRead(pkt: Octets, j: nat, r: Record, next: nat)
    requires RecordAt(pkt, j, r, next)
    ensures var e := NameEnd(pkt, j);
            && e + 10 <= next <= |pkt|
            && Parsed(pkt, j, NAME_SPACE) == Some(r.name)
            && FromU16(pkt, e) == r.kind && FromU16(pkt, e + 2) == r.cls && FromU32(pkt, e + 4) == r.ttl
            && FromU16(pkt, e + 8) == next - e - 10
            && match r.data
               case RawData(octets) => pkt[e + 10..next] == octets
               case NameData(name) => Parsed(pkt, e + 10, NAME_SPACE) == Some(name) && NameEnd(pkt, e + 10) == next
  {
    hide Parsed, NameEnd, U32, FromU32;
    var e := NameEnd(pkt, j);
    var fields := pkt[e..e + 8];
    assert |U32(r.ttl)| == 4 by { NetworkOrder32(r.ttl, 0); }
    assert fields == U16(r.kind) + U16(r.cls) + U32(r.ttl);
    Inside(pkt, e, e + 8, 0, 2);
    Inside(pkt, e, e + 8, 2, 4);
    Inside(pkt, e, e + 8, 4, 8);
    U16IsRead(pkt, e, r.kind);
    U16IsRead(pkt, e + 2, r.cls);
    U32IsRead(pkt, e + 4, r.ttl);
    U16IsRead(pkt, e + 8, next - e - 10);
  }

  /** Questions that stand in a packet are the questions the reader gives. */
  lemma {:induction false} QuestionsAreRead(pkt: Octets, j: nat, qs: seq<Question>, next: nat)
    requires QuestionsAt(pkt, j, qs, next)
    requires forall q :: q in qs ==> 0 !in q.name
    ensures QuestionsIn(pkt, j, |qs|) == Some(qs)
    decreases |qs|
  {
    hide QuestionAt, Parsed, QuestionsIn;
    NoQuestions(pkt, j);
    if qs != [] {
      FirstQuestion(pkt, j, |qs|);
      var k: nat :| QuestionAt(pkt, j, qs[0], k) && QuestionsAt(pkt, k, qs[1..], next);
      QuestionIsRead(pkt, j, qs[0], k);
      QuestionsAreRead(pkt, k, qs[1..], next);
      assert qs == [qs[0]] + qs[1..];
    }
  }

  /** A query has its id, the bit that asks for recursion, and one question. */
  lemma QuerySays(transId: u16, pkt: Octets)
    requires |pkt| >= 12 && pkt[..12] == QueryHeader(transId)
    ensures FromU16(pkt, 0) == transId && !IsAnswer(FromU16(pkt, 2))
    ensures forall k :: 0 <= k < 16 ==> (Bit(FromU16(pkt, 2), k) <==> k == RD)
    ensures FromU16(pkt, 4) == 1 && FromU16(pkt, 6) == FromU16(pkt, 8) == FromU16(pkt, 10) == 0
  {
    hide IsAnswer, Bit;
    assert forall k :: 0 <= k < 12 ==> pkt[k] == pkt[..12][k];
    AnswerIff(0x0100);
    forall k | 0 <= k < 16 ensures Bit(0x0100, k) <==> k == RD {
      Powers();
      OneBit(8, k);
    }
  }

  /** What the client asks is what the server is asked. */
  lemma QueryIsRead(transId: u16, q: Question, space: nat)
    requires space < POINTER_SPACE
    requires 0 !in q.name && Proper(q.name)
    requires Query(transId, q, space).Some?
    ensures var pkt := Query(transId, q, space).value.octets;
            && |pkt| >= 12
            && FromU16(pkt, 0) == transId && !IsAnswer(FromU16(pkt, 2))
            && (forall k :: 0 <= k < 16 ==> (Bit(FromU16(pkt, 2), k) <==> k == RD))
            && FromU16(pkt, 4) == 1 && FromU16(pkt, 6) == FromU16(pkt, 8) == FromU16(pkt, 10) == 0
            && QuestionsIn(pkt, 12, FromU16(pkt, 4)) == Some([q])
  {
    hide Wire, QuestionsIn, Proper, QuestionAt, IsAnswer, Bit, QueryHeader, FromU16;
    var begun := Packet(QueryHeader(transId), []);
    var asked := PutQuestion(begun, q, space).value;
    var pkt := asked.octets;
    QuestionReadsBack(begun, q, space, []);
    assert pkt + [] == pkt;
    assert pkt[..12] == QueryHeader(transId);
    QuerySays(transId, pkt);
    OneQuestion(pkt, 12, q, |pkt|);
    QuestionsAreRead(pkt, 12, [q], |pkt|);
  }

  lemma OneQuestion(pkt: Octets, j: nat, q: Question, next: nat)
    requires QuestionAt(pkt, j, q, next)
    ensures QuestionsAt(pkt, j, [q], next)
  {
    assert QuestionsAt(pkt, next, [q][1..], next);
  }

  /** The question section of a response gives the questions back to this reader too. */
  lemma ResponseQuestionsAreRead(req: Request, err: nat)
    requires err < 16 && ProperRequest(req) && CRequest(req)
    requires Response(req, err).Some?
    ensures QuestionsIn(Response(req, err).value.octets, 12, |req.questions|) == Some(req.questions)
  {
    ResponseReadsBack(req, err);
    var pkt := Response(req, err).value.octets;
    var q: nat, an: nat, ns: nat :| QuestionsAt(pkt, 12, req.questions, q) && RecordsAt(pkt, q, req.answers, an)
                                    && RecordsAt(pkt, an, req.authority, ns)
                                    && RecordsAt(pkt, ns, req.additional, |pkt|);
    QuestionsAreRead(pkt, 12, req.questions, q);
  }

  // ----- And back -----

  /** What reply_parse looks at to see whether an answer brings an error: the code, and whether it was cut. */
  function ErrorPart(flags: u16): u16 { And(flags, 0x020f) }

  lemma ErrorBits(k: nat)
    ensures Bit(0x020f, k) <==> k < 4 || k == TC
  {
    hide Bit;
    Powers();
    assert Pow2(1) == 2;
    PairBit(2, 0x0f, 8, k);
    FourBits(k);
    NoBits(k);
    if k >= 8 { OneBit(1, k - 8); }
  }

  lemma SmallError(err: nat, k: nat)
    requires err < 16 && k >= 4
    ensures !Bit(err, k)
  {
    assert Pow2(4) == 16;
    PairBit(0, err, 4, k);
    NoBits(k - 4);
  }

  /** The error code comes through, and nothing else, unless the response is cut. */
  lemma ErrorComesThrough(f: u16, flags: u16, err: nat)
    requires err < 16 && ResponseFlags(f, KeptFlags(flags), err, false)
    ensures ErrorPart(f) == err && IsAnswer(f)
  {
    hide Bit, KeptFlags;
    AnswerIff(f);
    Powers();
    forall k | 0 <= k < 16 ensures Bit(ErrorPart(f), k) <==> Bit(err, k) {
      AndBit(f, 0x020f, k);
      ErrorBits(k);
      KeptFlagsAre(flags, k);
      if k >= 4 { SmallError(err, k); }
    }
    SameBits(ErrorPart(f), err, 16);
  }

  /**
   * The whole way: the server's response to the client's query comes with the query's id, as an answer, with the
   * bit that asked for recursion, with the server's error code, and with the question.
   */
  lemma AnswerMatchesQuery(transId: u16, q: Question, space: nat, req: Request, err: nat)
    requires space < POINTER_SPACE && err < 16
    requires 0 !in q.name && Proper(q.name) && Query(transId, q, space).Some?
    requires var pkt := Query(transId, q, space).value.octets;
             && |pkt| >= 12
             && req.transId == FromU16(pkt, 0) && req.flags == KeptFlags(FromU16(pkt, 2))
             && Some(req.questions) == QuestionsIn(pkt, 12, FromU16(pkt, 4))
    requires ProperRequest(req) && CRequest(req) && Response(req, err).Some?
    ensures var answer := Response(req, err).value.octets;
            && |answer| >= 12
            && FromU16(answer, 0) == transId
            && IsAnswer(FromU16(answer, 2)) && Bit(FromU16(answer, 2), RD) && ErrorPart(FromU16(answer, 2)) == err
            && FromU16(answer, 4) == 1 && QuestionsIn(answer, 12, 1) == Some([q])
  {
    hide Query, Response, QuestionsIn, Proper, IsAnswer, Bit, KeptFlags, ErrorPart, FromU16, ProperRequest, CRequest;
    QueryIsRead(transId, q, space);
    var pkt := Query(transId, q, space).value.octets;
    var answer := Response(req, err).value.octets;
    ResponseReadsBack(req, err);
    ErrorComesThrough(FromU16(answer, 2), FromU16(pkt, 2), err);
    KeptFlagsAre(FromU16(pkt, 2), RD);
    assert |req.questions| == 1;
    ResponseQuestionsAreRead(req, err);
  }
}
