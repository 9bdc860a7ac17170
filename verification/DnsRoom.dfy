/**
 * Where a message ends that does not fit: what is in place when the writer stops, and when the closing zero of a
 * name gets behind the end of the buffer.
 */
module DnsRoom {
  import opened DnsNames
  import opened DnsCodec
  import opened DnsMessage
  import opened Options
  import opened Words

  // ----- The octet behind the buffer -----

  predicate NameOverruns(p: Packet, name: Octets, space: nat) {
    Overruns(name, p.table, space, |p.octets|)
  }

  /** The record up to its data. */
  function PutFixed(p: Packet, r: Record, space: nat): Option<Packet> {
    var named := PutName(p, r.name, space);
    if named.None? then None else PutRaw(named.value, U16(r.kind) + U16(r.cls) + U32(r.ttl), space)
  }

  /** A name as data has its length in front. */
  predicate DataOverruns(p: Packet, data: Data, space: nat) {
    data.NameData? && Overruns(data.name, p.table, space, |p.octets| + 2)
  }

  predicate RecordOverruns(p: Packet, r: Record, space: nat) {
    || NameOverruns(p, r.name, space)
    || (PutFixed(p, r, space).Some? && DataOverruns(PutFixed(p, r, space).value, r.data, space))
  }

  predicate QuestionsOverrun(p: Packet, qs: seq<Question>, space: nat)
    decreases |qs|
  {
    && qs != []
    && (|| NameOverruns(p, qs[0].name, space)
        || (PutQuestion(p, qs[0], space).Some? && QuestionsOverrun(PutQuestion(p, qs[0], space).value, qs[1..], space)))
  }

  predicate RecordsOverrun(p: Packet, rs: seq<Record>, space: nat)
    decreases |rs|
  {
    && rs != []
    && (|| RecordOverruns(p, rs[0], space)
        || (PutRecord(p, rs[0], space).Some? && RecordsOverrun(PutRecord(p, rs[0], space).value, rs[1..], space)))
  }

  predicate SectionsOverrun(p: Packet, req: Request) {
    var an := PutRecords(p, req.answers, RESPONSE_SPACE);
    || RecordsOverrun(p, req.answers, RESPONSE_SPACE)
    || (&& an.Some?
        && var ns := PutRecords(an.value, req.authority, RESPONSE_SPACE);
           || RecordsOverrun(an.value, req.authority, RESPONSE_SPACE)
           || (ns.Some? && RecordsOverrun(ns.value, req.additional, RESPONSE_SPACE)))
  }

  /** Some name of the response overruns the 1500 octets. */
  predicate ResponseOverruns(req: Request, err: nat)
    requires err < 16
  {
    var q := PutQuestions(Begun(req, err), req.questions, RESPONSE_SPACE);
    || QuestionsOverrun(Begun(req, err), req.questions, RESPONSE_SPACE)
    || (q.Some? && SectionsOverrun(q.value, req))
  }

  lemma NameLength(p: Packet, name: Octets, space: nat)
    requires PutName(p, name, space).Some?
    ensures var after := PutName(p, name, space).value;
            && |p.octets| < |after.octets| <= space + 1
            && (|after.octets| == space + 1 <==> NameOverruns(p, name, space))
  {
    hide Overruns, Added, Remember, Wire;
    PutNameIs(p, name, space);
    OverrunIff(name, p.table, space, |p.octets|);
  }

  lemma QuestionLength(p: Packet, q: Question, space: nat)
    requires PutQuestion(p, q, space).Some?
    ensures !NameOverruns(p, q.name, space)
    ensures |PutQuestion(p, q, space).value.octets| <= space
  {
    hide PutName, NameOverruns;
    NameLength(p, q.name, space);
  }

  lemma {:induction false} QuestionsLength(p: Packet, qs: seq<Question>, space: nat)
    requires PutQuestions(p, qs, space).Some?
    ensures !QuestionsOverrun(p, qs, space)
    ensures qs != [] ==> |PutQuestions(p, qs, space).value.octets| <= space
    decreases |qs|
  {
    hide PutQuestion, NameOverruns;
    if qs != [] {
      QuestionLength(p, qs[0], space);
      QuestionsLength(PutQuestion(p, qs[0], space).value, qs[1..], space);
    }
  }

  lemma DataLength(p: Packet, data: Data, space: nat)
    requires PutData(p, data, space).Some?
    ensures var n := |PutData(p, data, space).value.octets|;
            n <= space + 1 && (n == space + 1 <==> DataOverruns(p, data, space))
  {
    hide PutName, Wire, Overruns;
    match data
    case RawData(octets) =>
    case NameData(name) =>
      var wire := Wire(name, p.table, space - |p.octets| - 2).octets;
      NameLength(p.(octets := p.octets + U16(|wire| % 0x1_0000)), name, space);
  }

  lemma RecordLength(p: Packet, r: Record, space: nat)
    requires PutRecord(p, r, space).Some?
    ensures var n := |PutRecord(p, r, space).value.octets|;
            n <= space + 1 && (n == space + 1 <==> RecordOverruns(p, r, space))
  {
    hide PutName, PutData, NameOverruns, DataOverruns;
    NameLength(p, r.name, space);
    DataLength(PutFixed(p, r, space).value, r.data, space);
  }

  lemma NothingBehind(p: Packet, r: Record, space: nat)
    requires |p.octets| == space + 1
    ensures PutRecord(p, r, space).None?
  {
    hide PutData;
    if PutName(p, r.name, space).Some? {
      NameLength(p, r.name, space);
    }
  }

  /** Records that have all been written passed the end exactly if the last octet is behind it. */
  lemma {:induction false} RecordsLength(p: Packet, rs: seq<Record>, space: nat)
    requires PutRecords(p, rs, space).Some? && |p.octets| <= space + 1
    ensures var n := |PutRecords(p, rs, space).value.octets|;
            && n <= space + 1
            && (n == space + 1 <==> |p.octets| == space + 1 || RecordsOverrun(p, rs, space))
    ensures |p.octets| == space + 1 ==> rs == []
    decreases |rs|
  {
    hide PutRecord, RecordOverruns;
    if rs != [] {
      RecordLength(p, rs[0], space);
      if |p.octets| == space + 1 {
        NothingBehind(p, rs[0], space);
      }
      RecordsLength(PutRecord(p, rs[0], space).value, rs[1..], space);
    }
  }

  /**
   * A response that is written to its end has touched the octet behind the buffer exactly when it is one octet
   * longer than the buffer.
   */
  lemma OverrunsIffTooLong(req: Request, err: nat)
    requires err < 16 && Response(req, err).Some?
    ensures ResponseOverruns(req, err) <==> |Response(req, err).value.octets| == RESPONSE_SPACE + 1
    ensures |Response(req, err).value.octets| <= RESPONSE_SPACE + 1
  {
    hide PutQuestions, PutRecords, QuestionsOverrun, RecordsOverrun;
    var p := Begun(req, err);
    QuestionsLength(p, req.questions, RESPONSE_SPACE);
    var q := PutQuestions(p, req.questions, RESPONSE_SPACE).value;
    if req.questions == [] { NoQuestionsPut(p, RESPONSE_SPACE); }
    RecordsLength(q, req.answers, RESPONSE_SPACE);
    var an := PutRecords(q, req.answers, RESPONSE_SPACE).value;
    RecordsLength(an, req.authority, RESPONSE_SPACE);
    var ns := PutRecords(an, req.authority, RESPONSE_SPACE).value;
    RecordsLength(ns, req.additional, RESPONSE_SPACE);
  }

  lemma NoQuestionsPut(p: Packet, space: nat)
    ensures PutQuestions(p, [], space) == Some(p)
  {
  }

  /** A record for the root with 1475 octets of data, and one for a name of one octet behind it. */
  function LongRequest(): Request {
    Request(0, 0, [], [Record([], 1, 1, 0, RawData(seq(1475, _ => 0))), Record([97], 1, 1, 0, RawData([]))], [], [])
  }

  /** It makes the server write behind its 1500 octets. */
  lemma LongRequestOverruns()
    ensures ResponseOverruns(LongRequest(), 0)
  {
    hide Header, PutRecord, NameOverruns;
    var req := LongRequest();
    var p := Begun(req, 0);
    NoQuestionsPut(p, RESPONSE_SPACE);
    var one := RootRecord(p, req.answers[0]);
    assert NameOverruns(one, [97], RESPONSE_SPACE) by { ShortNameOverruns(one); }
    assert RecordsOverrun(one, req.answers[1..], RESPONSE_SPACE);
  }

  lemma RootRecord(p: Packet, r: Record) returns (one: Packet)
    requires p.table == [] && |p.octets| == 12
    requires r.name == [] && r.data.RawData? && |r.data.octets| == 1475
    ensures PutRecord(p, r, RESPONSE_SPACE) == Some(one)
    ensures |one.octets| == 1498 && one.table == [Entry([], 12)]
  {
    assert Wire([], [], 1488) == Written([0]);
    assert Added([], [], 12) == [Entry([], 12)];
    one := PutRecord(p, r, RESPONSE_SPACE).value;
  }

  lemma ShortNameOverruns(p: Packet)
    requires p.table == [Entry([], 12)] && |p.octets| == 1498
    ensures NameOverruns(p, [97], RESPONSE_SPACE)
  {
    assert Lookup(p.table[1..], [97]) < 0;
    assert FirstDot([97][1..]) == 0;
  }

  // ----- What is in place when something does not fit -----

  /** The packet with all questions in front of the first one that does not fit. */
  function KeptQuestions(p: Packet, qs: seq<Question>, space: nat): Packet
    decreases |qs|
  {
    if qs == [] || PutQuestion(p, qs[0], space).None? then p
    else KeptQuestions(PutQuestion(p, qs[0], space).value, qs[1..], space)
  }

  function KeptRecords(p: Packet, rs: seq<Record>, space: nat): Packet
    decreases |rs|
  {
    if rs == [] || PutRecord(p, rs[0], space).None? then p
    else KeptRecords(PutRecord(p, rs[0], space).value, rs[1..], space)
  }

  function KeptSections(p: Packet, req: Request): Packet {
    var an := PutRecords(p, req.answers, RESPONSE_SPACE);
    if an.None? then KeptRecords(p, req.answers, RESPONSE_SPACE)
    else
      var ns := PutRecords(an.value, req.authority, RESPONSE_SPACE);
      if ns.None? then KeptRecords(an.value, req.authority, RESPONSE_SPACE)
      else KeptRecords(ns.value, req.additional, RESPONSE_SPACE)
  }

  /** The response up to the first question or record that does not fit, or all of it. */
  function Kept(req: Request, err: nat): Packet
    requires err < 16
  {
    var q := PutQuestions(Begun(req, err), req.questions, RESPONSE_SPACE);
    if q.None? then KeptQuestions(Begun(req, err), req.questions, RESPONSE_SPACE) else KeptSections(q.value, req)
  }

  lemma {:induction false} AllRecordsKept(p: Packet, rs: seq<Record>, space: nat)
    ensures PutRecords(p, rs, space).Some? ==> KeptRecords(p, rs, space) == PutRecords(p, rs, space).value
    ensures p.octets <= KeptRecords(p, rs, space).octets
    decreases |rs|
  {
    hide PutRecord;
    if rs != [] && PutRecord(p, rs[0], space).Some? {
      RecordIsAppended(p, rs[0], space);
      AllRecordsKept(PutRecord(p, rs[0], space).value, rs[1..], space);
    }
  }

  lemma RecordIsAppended(p: Packet, r: Record, space: nat)
    requires PutRecord(p, r, space).Some?
    ensures p.octets <= PutRecord(p, r, space).value.octets
  {
    hide Wire, Added, Remember;
  }

  lemma {:induction false} QuestionsStart(p: Packet, qs: seq<Question>, space: nat)
    ensures p.octets <= KeptQuestions(p, qs, space).octets
    decreases |qs|
  {
    hide Wire, Added, Remember;
    if qs != [] && PutQuestion(p, qs[0], space).Some? {
      assert p.octets <= PutQuestion(p, qs[0], space).value.octets;
      hide PutQuestion;
      QuestionsStart(PutQuestion(p, qs[0], space).value, qs[1..], space);
    }
  }

  lemma KeptHasHeader(req: Request, err: nat)
    requires err < 16
    ensures Header(req, err) <= Kept(req, err).octets
  {
    hide Header, PutQuestions, PutRecords, KeptQuestions, KeptRecords;
    var p := Begun(req, err);
    QuestionsStart(p, req.questions, RESPONSE_SPACE);
    var q := PutQuestions(p, req.questions, RESPONSE_SPACE);
    if q.Some? {
      AllQuestionsKept(p, req.questions, RESPONSE_SPACE);
      AllRecordsKept(q.value, req.answers, RESPONSE_SPACE);
      var an := PutRecords(q.value, req.answers, RESPONSE_SPACE);
      if an.Some? {
        AllRecordsKept(an.value, req.authority, RESPONSE_SPACE);
        var ns := PutRecords(an.value, req.authority, RESPONSE_SPACE);
        if ns.Some? {
          AllRecordsKept(ns.value, req.additional, RESPONSE_SPACE);
        }
      }
    }
  }

  lemma {:induction false} AllQuestionsKept(p: Packet, qs: seq<Question>, space: nat)
    ensures PutQuestions(p, qs, space).Some? ==> KeptQuestions(p, qs, space) == PutQuestions(p, qs, space).value
    decreases |qs|
  {
    hide PutQuestion;
    if qs != [] && PutQuestion(p, qs[0], space).Some? {
      AllQuestionsKept(PutQuestion(p, qs[0], space).value, qs[1..], space);
    }
  }

  // ----- Every octet of the buffer -----

  /** What has been written to the buffer from its start on; None where nothing has been. */
  type Draft = seq<Option<byte>>

  function Ink(octets: Octets): (d: Draft)
    ensures |d| == |octets| && forall k :: 0 <= k < |d| ==> d[k] == Some(octets[k])
  {
    seq(|octets|, k requires 0 <= k < |octets| => Some(octets[k]))
  }

  function Blank(n: nat): (d: Draft)
    ensures |d| == n && forall k :: 0 <= k < n ==> d[k] == None
  {
    seq(n, _ => None)
  }

  predicate IsWritten(d: Draft, k: nat) { k < |d| && d[k].Some? }

  /** The buffer: what has been written, and elsewhere what the memory held before. */
  function Laid(d: Draft, memory: Octets): (r: Octets)
    ensures |r| == |memory|
    ensures forall k :: 0 <= k < |r| ==> r[k] == if IsWritten(d, k) then d[k].value else memory[k]
  {
    seq(|memory|, k requires 0 <= k < |memory| => if IsWritten(d, k) then d[k].value else memory[k])
  }

  lemma InkOfBoth(a: Octets, b: Octets)
    ensures Ink(a + b) == Ink(a) + Ink(b)
  {
  }

  lemma NothingLaid(memory: Octets)
    ensures Laid(Ink([]), memory) == memory
  {
  }

  /** Octets behind what is there, perhaps with a gap. */
  lemma LaidMore(d: Draft, memory: Octets, gap: nat, t: Octets)
    requires |d| + gap + |t| <= |memory| || t == []
    ensures Overlay(Laid(d, memory), |d| + gap, t) == Laid(d + Blank(gap) + Ink(t), memory)
  {
    var at, now, next := |d| + gap, Laid(d, memory), Laid(d + Blank(gap) + Ink(t), memory);
    if at + |t| <= |memory| {
      var r := Overlay(now, at, t);
      forall k | 0 <= k < |memory| ensures r[k] == next[k] {
        if at <= k < at + |t| {
          assert r[k] == t[k - at] && (d + Blank(gap) + Ink(t))[k] == Ink(t)[k - at];
        } else if k < |d| {
          assert (d + Blank(gap) + Ink(t))[k] == d[k];
        }
      }
    }
  }

  lemma LaidNext(octets: Octets, memory: Octets, t: Octets)
    requires |octets| + |t| <= |memory| || t == []
    ensures Overlay(Laid(Ink(octets), memory), |octets|, t) == Laid(Ink(octets + t), memory)
  {
    hide Overlay, Laid, Ink, Blank;
    LaidMore(Ink(octets), memory, 0, t);
    InkOfBoth(octets, t);
    assert Ink(octets) + Blank(0) == Ink(octets);
  }

  /** Filling the gap. */
  lemma LaidBetween(octets: Octets, memory: Octets, t: Octets, behind: Octets)
    requires |octets| + |t| + |behind| <= |memory|
    ensures Overlay(Laid(Ink(octets) + Blank(|t|) + Ink(behind), memory), |octets|, t)
            == Laid(Ink(octets + t + behind), memory)
  {
    var d := Ink(octets) + Blank(|t|) + Ink(behind);
    var all := octets + t + behind;
    var r := Overlay(Laid(d, memory), |octets|, t);
    forall k | 0 <= k < |memory| ensures r[k] == Laid(Ink(all), memory)[k] {
      if k < |octets| {
        assert d[k] == Ink(octets)[k] && all[k] == octets[k];
      } else if k < |octets| + |t| {
        assert all[k] == t[k - |octets|];
      } else if k < |all| {
        assert d[k] == Ink(behind)[k - |octets| - |t|] && all[k] == behind[k - |octets| - |t|];
      }
    }
  }

  lemma LaidStarts(octets: Octets, memory: Octets)
    requires |octets| <= |memory|
    ensures Laid(Ink(octets), memory)[..|octets|] == octets
  {
  }

  // ----- Where the writer stops -----

  /** Fields one after another, as long as the next one has room. */
  function Joined(fields: seq<Octets>): Octets {
    if fields == [] then [] else fields[0] + Joined(fields[1..])
  }

  function Fitting(fields: seq<Octets>, room: int): Octets
    decreases |fields|
  {
    if fields == [] || |fields[0]| > room then [] else fields[0] + Fitting(fields[1..], room - |fields[0]|)
  }

  function QuestionFields(q: Question): seq<Octets> { [U16(q.kind), U16(q.cls)] }

  function RecordFields(r: Record): seq<Octets> { [U16(r.kind), U16(r.cls), U32(r.ttl)] }

  /** A name in front of which or in which the writer stops. */
  function NameDraft(p: Packet, name: Octets, space: nat): Draft {
    Ink(p.octets + NamePart(name, p.table, space - |p.octets|))
  }

  function FieldsDraft(p: Packet, fields: seq<Octets>, space: nat): Draft {
    Ink(p.octets + Fitting(fields, space - |p.octets|))
  }

  /** The length of a name as data would have been filled in last; plain data that is too long leaves its length. */
  function DataDraft(p: Packet, data: Data, space: nat): Draft {
    match data
    case RawData(octets) =>
      Ink(p.octets + if |p.octets| + 2 > space then [] else U16(|octets| % 0x1_0000))
    case NameData(name) =>
      Ink(p.octets) + Blank(2) + Ink(NamePart(name, p.table, space - |p.octets| - 2))
  }

  function QuestionDraft(p: Packet, q: Question, space: nat): Draft {
    var named := PutName(p, q.name, space);
    if named.None? then NameDraft(p, q.name, space) else FieldsDraft(named.value, QuestionFields(q), space)
  }

  function RecordDraft(p: Packet, r: Record, space: nat): Draft {
    var named, fixed := PutName(p, r.name, space), PutFixed(p, r, space);
    if named.None? then NameDraft(p, r.name, space)
    else if fixed.None? then FieldsDraft(named.value, RecordFields(r), space)
    else DataDraft(fixed.value, r.data, space)
  }

  /** The buffer after the questions, or where the writer stopped in one. */
  function QuestionsDraft(p: Packet, qs: seq<Question>, space: nat): Draft
    decreases |qs|
  {
    if qs == [] then Ink(p.octets)
    else if PutQuestion(p, qs[0], space).None? then QuestionDraft(p, qs[0], space)
    else QuestionsDraft(PutQuestion(p, qs[0], space).value, qs[1..], space)
  }

  function RecordsDraft(p: Packet, rs: seq<Record>, space: nat): Draft
    decreases |rs|
  {
    if rs == [] then Ink(p.octets)
    else if PutRecord(p, rs[0], space).None? then RecordDraft(p, rs[0], space)
    else RecordsDraft(PutRecord(p, rs[0], space).value, rs[1..], space)
  }

  function SectionsDraft(p: Packet, req: Request): Draft {
    var an := PutRecords(p, req.answers, RESPONSE_SPACE);
    if an.None? then RecordsDraft(p, req.answers, RESPONSE_SPACE)
    else
      var ns := PutRecords(an.value, req.authority, RESPONSE_SPACE);
      if ns.None? then RecordsDraft(an.value, req.authority, RESPONSE_SPACE)
      else RecordsDraft(ns.value, req.additional, RESPONSE_SPACE)
  }

  /** All of the response that is ever written. */
  function ResponseDraft(req: Request, err: nat): Draft
    requires err < 16
  {
    var q := PutQuestions(Begun(req, err), req.questions, RESPONSE_SPACE);
    if q.None? then QuestionsDraft(Begun(req, err), req.questions, RESPONSE_SPACE) else SectionsDraft(q.value, req)
  }

  lemma {:induction false} QuestionsDrafted(p: Packet, qs: seq<Question>, space: nat)
    ensures Ink(KeptQuestions(p, qs, space).octets) <= QuestionsDraft(p, qs, space)
    ensures PutQuestions(p, qs, space).Some? ==>
              QuestionsDraft(p, qs, space) == Ink(PutQuestions(p, qs, space).value.octets)
    decreases |qs|
  {
    hide Ink, Blank, PutQuestion, QuestionDraft;
    if qs != [] {
      if PutQuestion(p, qs[0], space).Some? {
        QuestionsDrafted(PutQuestion(p, qs[0], space).value, qs[1..], space);
      } else {
        QuestionDrafted(p, qs[0], space);
      }
    }
  }

  lemma QuestionDrafted(p: Packet, q: Question, space: nat)
    ensures Ink(p.octets) <= QuestionDraft(p, q, space)
  {
    hide Ink, Blank, Wire, Added, Remember, NamePart, Fitting;
    InkStarts(p.octets, NamePart(q.name, p.table, space - |p.octets|));
    var named := PutName(p, q.name, space);
    if named.Some? {
      var more := named.value.octets[|p.octets|..];
      var fields := Fitting(QuestionFields(q), space - |named.value.octets|);
      assert named.value.octets + fields == p.octets + (more + fields);
      InkStarts(p.octets, more + fields);
    }
  }

  lemma InkStarts(a: Octets, b: Octets)
    ensures Ink(a) <= Ink(a + b)
  {
    InkOfBoth(a, b);
  }

  lemma RecordDrafted(p: Packet, r: Record, space: nat)
    ensures Ink(p.octets) <= RecordDraft(p, r, space)
  {
    hide Ink, Blank, Wire, Added, Remember, NamePart, Fitting, U16, U32;
    InkStarts(p.octets, NamePart(r.name, p.table, space - |p.octets|));
    var named, fixed := PutName(p, r.name, space), PutFixed(p, r, space);
    if named.Some? {
      var more := named.value.octets[|p.octets|..];
      var fields := Fitting(RecordFields(r), space - |named.value.octets|);
      assert named.value.octets + fields == p.octets + (more + fields);
      InkStarts(p.octets, more + fields);
      if fixed.Some? {
        DataDrafted(fixed.value, r.data, space);
        var rest := fixed.value.octets[|p.octets|..];
        assert fixed.value.octets == p.octets + rest;
        InkStarts(p.octets, rest);
      }
    }
  }

  lemma DataDrafted(p: Packet, data: Data, space: nat)
    ensures Ink(p.octets) <= DataDraft(p, data, space)
  {
    hide Ink, Blank, NamePart, U16;
    if data.RawData? {
      InkStarts(p.octets, if |p.octets| + 2 > space then [] else U16(|data.octets| % 0x1_0000));
    }
  }

  lemma {:induction false} RecordsDrafted(p: Packet, rs: seq<Record>, space: nat)
    ensures Ink(KeptRecords(p, rs, space).octets) <= RecordsDraft(p, rs, space)
    ensures PutRecords(p, rs, space).Some? ==>
              RecordsDraft(p, rs, space) == Ink(PutRecords(p, rs, space).value.octets)
    decreases |rs|
  {
    hide Ink, Blank, PutRecord, RecordDraft;
    if rs != [] {
      if PutRecord(p, rs[0], space).Some? {
        RecordsDrafted(PutRecord(p, rs[0], space).value, rs[1..], space);
      } else {
        RecordDrafted(p, rs[0], space);
      }
    }
  }

  /** It starts with all that is kept whole, and is that when everything fits. */
  lemma KeptIsDrafted(req: Request, err: nat)
    requires err < 16
    ensures Ink(Kept(req, err).octets) <= ResponseDraft(req, err)
    ensures Response(req, err).Some? ==> ResponseDraft(req, err) == Ink(Response(req, err).value.octets)
  {
    hide Ink, Header, PutQuestions, PutRecords, KeptQuestions, KeptRecords, QuestionsDraft, RecordsDraft;
    var p := Begun(req, err);
    QuestionsDrafted(p, req.questions, RESPONSE_SPACE);
    var q := PutQuestions(p, req.questions, RESPONSE_SPACE);
    if q.Some? {
      RecordsDrafted(q.value, req.answers, RESPONSE_SPACE);
      var an := PutRecords(q.value, req.answers, RESPONSE_SPACE);
      if an.Some? {
        RecordsDrafted(an.value, req.authority, RESPONSE_SPACE);
        var ns := PutRecords(an.value, req.authority, RESPONSE_SPACE);
        if ns.Some? {
          RecordsDrafted(ns.value, req.additional, RESPONSE_SPACE);
        }
      }
    }
  }

  /** An octet of the buffer is the same whatever the memory held exactly if it has been written. */
  lemma WrittenIffDetermined(d: Draft, k: nat, n: nat)
    requires k < n
    ensures IsWritten(d, k) <==> forall m: Octets :: |m| == n ==> Laid(d, m)[k] == Laid(d, seq(n, _ => 0))[k]
  {
    var zeros: Octets := seq(n, _ => 0);
    if !IsWritten(d, k) {
      var m := zeros[k := 1];
      assert Laid(d, m)[k] == 1 && Laid(d, zeros)[k] == 0;
    }
  }

  /**
   * Where a record that cannot be written ends, everything before is written but the length of a name as data,
   * which would have been filled in last.
   */
  lemma OnlyLengthsAreMissing(p: Packet, r: Record, space: nat, k: nat)
    requires PutRecord(p, r, space).None?
    ensures var d, fixed := RecordDraft(p, r, space), PutFixed(p, r, space);
            k < |d| ==>
              (!IsWritten(d, k) <==>
               fixed.Some? && r.data.NameData? && |fixed.value.octets| <= k < |fixed.value.octets| + 2)
  {
    hide PutName, Wire, Added, Remember, NamePart, Fitting, U16, U32;
  }

  /** One answer for a name with a single label of 64 octets. */
  function BadLabelRequest(): Request {
    Request(0, 0, [], [Record(seq(64, _ => 97), 1, 1, 0, RawData([]))], [], [])
  }

  /** Nothing but the header of its response is ever written. */
  lemma BadLabelStops()
    ensures var req := BadLabelRequest();
            && Response(req, 0).None? && !ResponseOverruns(req, 0)
            && |Header(req, 0)| == 12 && ResponseDraft(req, 0) == Ink(Header(req, 0))
  {
    hide Header, Ink, Added, Remember;
    var req := BadLabelRequest();
    var p, r := Begun(req, 0), req.answers[0];
    var name: Octets := r.name;
    assert FirstDot(name) == 64;
    NoQuestionsPut(p, RESPONSE_SPACE);
    assert Wire(name, [], RESPONSE_SPACE - 12) == LabelTooLong;
    assert NamePart(name, [], RESPONSE_SPACE - 12) == [];
    assert p.octets + [] == p.octets;
    assert PutRecord(p, r, RESPONSE_SPACE).None?;
  }
}
