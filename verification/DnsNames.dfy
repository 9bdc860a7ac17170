/**
 * Domain names on the wire: what a packet says a name is, how a name is cut into labels, and what the
 * compressing writer puts into a packet. The format is section 4.1.4 of RFC 1035: a label is a length octet
 * below 64 and that many octets, a zero octet ends the name, and a pair of octets whose first one is 192 or
 * more continues the name at an earlier offset.
 */
module DnsNames {

  import opened Options
  import opened Words

  type Octets = seq<byte>

  const DOT: byte := 46

  /** The largest offset plus one that fits the fourteen bits of a pointer. */
  const POINTER_SPACE := 0x4000

  const MAX_LABELS := 128

  // ----- Reading -----

  /** The offset held by the low fourteen bits of two octets. */
  function Target(high: byte, low: byte): (t: nat)
    ensures t < POINTER_SPACE
  {
    high % 64 * 256 + low
  }

  /**
   * The labels of the name at offset j, following at most `jumps` pointers; None when the packet ends first,
   * a pointer leaves the packet, or the allowance of pointers is used up. The top two bits of a length octet
   * are not told apart: any of them makes it a pointer, as in the parser.
   */
  function Labels(pkt: Octets, j: nat, jumps: nat): Option<seq<Octets>>
    decreases jumps, |pkt| - j
  {
    if j >= |pkt| then None
    else if pkt[j] == 0 then Some([])
    else if pkt[j] >= 64 then
      if j + 1 >= |pkt| || Target(pkt[j], pkt[j + 1]) >= |pkt| || jumps == 0 then None
      else Labels(pkt, Target(pkt[j], pkt[j + 1]), jumps - 1)
    else if j + 1 + pkt[j] > |pkt| then None
    else Cons(pkt[j + 1..j + 1 + pkt[j]], Labels(pkt, j + 1 + pkt[j], jumps))
  }

  function Cons(piece: Octets, rest: Option<seq<Octets>>): Option<seq<Octets>> {
    if rest.None? then None else Some([piece] + rest.value)
  }

  function Prepend(labels: seq<Octets>, rest: Option<seq<Octets>>): Option<seq<Octets>> {
    if rest.None? then None else Some(labels + rest.value)
  }

  /** Where the octets of the name at j stop: after its zero octet or after its first pointer. */
  function NameEnd(pkt: Octets, j: nat): (e: nat)
    ensures j <= e
    ensures j < |pkt| ==> j < e
    decreases |pkt| - j
  {
    if j >= |pkt| then j
    else if pkt[j] == 0 then j + 1
    else if pkt[j] >= 64 then j + 2
    else NameEnd(pkt, j + 1 + pkt[j])
  }

  lemma NameEndStep(pkt: Octets, j: nat)
    ensures j < |pkt| ==>
              NameEnd(pkt, j) == if pkt[j] == 0 then j + 1
                                    else if pkt[j] >= 64 then j + 2
                                    else NameEnd(pkt, j + 1 + pkt[j])
  {
  }

  /** A readable name stops inside its packet. */
  lemma {:induction false} NameEndInside(pkt: Octets, j: nat, jumps: nat)
    requires Labels(pkt, j, jumps).Some?
    ensures j < NameEnd(pkt, j) <= |pkt|
    decreases |pkt| - j
  {
    if j < |pkt| && 0 < pkt[j] < 64 {
      NameEndInside(pkt, j + 1 + pkt[j], jumps);
    }
  }

  /** More octets behind a readable name, or a larger allowance of pointers, do not change what it says. */
  lemma {:induction false} LabelsExtend(pkt: Octets, more: Octets, j: nat, jumps: nat, allowed: nat)
    requires Labels(pkt, j, jumps).Some?
    requires jumps <= allowed
    ensures Labels(pkt + more, j, allowed) == Labels(pkt, j, jumps)
    decreases jumps, |pkt| - j
  {
    if pkt[j] == 0 {
    } else if pkt[j] >= 64 {
      LabelsExtend(pkt, more, Target(pkt[j], pkt[j + 1]), jumps - 1, allowed - 1);
    } else {
      var next := j + 1 + pkt[j];
      assert (pkt + more)[j + 1..next] == pkt[j + 1..next];
      LabelsExtend(pkt, more, next, jumps, allowed);
    }
  }

  lemma {:induction false} NameEndExtends(pkt: Octets, more: Octets, j: nat, jumps: nat)
    requires Labels(pkt, j, jumps).Some?
    ensures NameEnd(pkt + more, j) == NameEnd(pkt, j)
    decreases |pkt| - j
  {
    if 0 < pkt[j] < 64 {
      NameEndExtends(pkt, more, j + 1 + pkt[j], jumps);
    }
  }

  // ----- The allowance of pointers loses nothing -----

  /** Jump targets of the name at j, when `jumps` pointers are just enough: as many offsets, all different. */
  lemma {:induction false} DistinctTargets(pkt: Octets, j: nat, jumps: nat) returns (targets: set<nat>)
    requires Labels(pkt, j, jumps).Some?
    requires jumps > 0 ==> Labels(pkt, j, jumps - 1).None?
    ensures |targets| == jumps
    ensures forall t :: t in targets ==> t < |pkt|
    ensures forall t :: t in targets ==> jumps > 0 && Labels(pkt, t, jumps - 1).Some?
    decreases jumps, |pkt| - j
  {
    if jumps == 0 {
      targets := {};
    } else if pkt[j] >= 64 {
      var next: nat := Target(pkt[j], pkt[j + 1]);
      var later := DistinctTargets(pkt, next, jumps - 1);
      forall t | t in later ensures t != next && Labels(pkt, t, jumps - 1).Some? {
        LabelsExtend(pkt, [], t, jumps - 2, jumps - 1);
        assert pkt + [] == pkt;
      }
      targets := later + {next};
    } else {
      targets := DistinctTargets(pkt, j + 1 + pkt[j], jumps);
    }
  }

  /** The smallest allowance that reads the name at j. */
  lemma {:induction false} LeastJumps(pkt: Octets, j: nat, jumps: nat) returns (least: nat)
    requires Labels(pkt, j, jumps).Some?
    ensures least <= jumps && Labels(pkt, j, least) == Labels(pkt, j, jumps)
    ensures least > 0 ==> Labels(pkt, j, least - 1).None?
    decreases jumps
  {
    if jumps == 0 || Labels(pkt, j, jumps - 1).None? {
      least := jumps;
    } else {
      least := LeastJumps(pkt, j, jumps - 1);
      LabelsExtend(pkt, [], j, jumps - 1, jumps);
      assert pkt + [] == pkt;
    }
  }

  lemma {:induction false} BoundedSet(s: set<nat>, n: nat)
    requires forall t :: t in s ==> t < n
    ensures |s| <= n
  {
    if n > 0 {
      BoundedSet(s - {n - 1}, n - 1);
      assert |s - {n - 1}| >= |s| - 1;
    } else {
      assert s == {};
    }
  }

  /**
   * Giving up after as many jumps as the packet has octets rejects only names that never end: whatever can be
   * read with some allowance is read, the same, with that one.
   */
  lemma OnlyLoopsAreRefused(pkt: Octets, j: nat, jumps: nat)
    requires Labels(pkt, j, jumps).Some?
    ensures Labels(pkt, j, |pkt|) == Labels(pkt, j, jumps)
  {
    var least := LeastJumps(pkt, j, jumps);
    var targets := DistinctTargets(pkt, j, least);
    BoundedSet(targets, |pkt|);
    LabelsExtend(pkt, [], j, least, |pkt|);
    assert pkt + [] == pkt;
  }

  // ----- Pointers that only go back -----

  /**
   * The name at j ends, and each of its pointers goes to an offset before the start of the run of labels
   * that the pointer closes.
   */
  predicate Backward(pkt: Octets, j: nat, start: nat)
    decreases start, |pkt| - j
  {
    && j < |pkt|
    && (|| pkt[j] == 0
        || (pkt[j] >= 64 && j + 1 < |pkt|
            && Target(pkt[j], pkt[j + 1]) < start
            && Backward(pkt, Target(pkt[j], pkt[j + 1]), Target(pkt[j], pkt[j + 1])))
        || (0 < pkt[j] < 64 && j + 1 + pkt[j] <= |pkt| && Backward(pkt, j + 1 + pkt[j], start)))
  }

  /** Such a name is readable, with no more jumps than the offset it starts at. */
  lemma {:induction false} BackwardIsReadable(pkt: Octets, j: nat, start: nat)
    requires Backward(pkt, j, start)
    requires start <= |pkt|
    ensures Labels(pkt, j, start).Some?
    decreases start, |pkt| - j
  {
    if pkt[j] >= 64 {
      var t: nat := Target(pkt[j], pkt[j + 1]);
      BackwardIsReadable(pkt, t, t);
      LabelsExtend(pkt, [], t, t, start - 1);
      assert pkt + [] == pkt;
    } else if pkt[j] > 0 {
      BackwardIsReadable(pkt, j + 1 + pkt[j], start);
    }
  }

  lemma {:induction false} BackwardExtends(pkt: Octets, more: Octets, j: nat, start: nat, later: nat)
    requires Backward(pkt, j, start)
    requires start <= later
    ensures Backward(pkt + more, j, later)
    decreases start, |pkt| - j
  {
    if pkt[j] >= 64 {
      var t: nat := Target(pkt[j], pkt[j + 1]);
      BackwardExtends(pkt, more, t, t, t);
    } else if pkt[j] > 0 {
      BackwardExtends(pkt, more, j + 1 + pkt[j], start, later);
    }
  }

  // ----- Names as text -----

  /** The labels with a dot between each two. */
  function Join(labels: seq<Octets>): Octets {
    if labels == [] then []
    else if |labels| == 1 then labels[0]
    else labels[0] + [DOT] + Join(labels[1..])
  }

  lemma {:induction false} JoinSnoc(labels: seq<Octets>, piece: Octets)
    ensures Join(labels + [piece]) == if labels == [] then piece else Join(labels) + [DOT] + piece
  {
    if |labels| >= 1 {
      assert (labels + [piece])[1..] == labels[1..] + [piece];
      JoinSnoc(labels[1..], piece);
    }
  }

  lemma {:induction false} JoinGrows(labels: seq<Octets>, more: seq<Octets>)
    ensures |Join(labels)| <= |Join(labels + more)|
    decreases |more|
  {
    if more == [] {
      assert labels + more == labels;
    } else {
      JoinSnoc(labels, more[0]);
      JoinGrows(labels + [more[0]], more[1..]);
      assert labels + [more[0]] + more[1..] == labels + more;
    }
  }

  /** The offset of the first dot, or the length of the name. */
  function FirstDot(name: Octets): (d: nat)
    ensures d <= |name| && DOT !in name[..d]
    ensures d < |name| ==> name[d] == DOT
  {
    if name == [] || name[0] == DOT then 0
    else
      assert forall k :: 0 <= k < FirstDot(name[1..]) ==> name[k + 1] == name[1..][..FirstDot(name[1..])][k];
      1 + FirstDot(name[1..])
  }

  /** The labels of the name between its dots. */
  function Split(name: Octets): seq<Octets> {
    var d := FirstDot(name);
    if d == |name| then [name] else [name[..d]] + Split(name[d + 1..])
  }

  /** The pieces before the first empty one: what a reader can see of a written name. */
  function Canon(name: Octets): seq<Octets> {
    var d := FirstDot(name);
    if d == 0 then [] else if d == |name| then [name] else [name[..d]] + Canon(name[d + 1..])
  }

  /** The root, or a name without an empty label. */
  predicate Proper(name: Octets) {
    name == [] || [] !in Split(name)
  }

  lemma {:induction false} CanonOfLabels(name: Octets)
    requires [] !in Split(name)
    ensures Canon(name) == Split(name) && |Canon(name)| > 0
    ensures Join(Canon(name)) == name
  {
    var d := FirstDot(name);
    assert Split(name)[0] == name[..d];
    if d < |name| {
      assert Split(name)[1..] == Split(name[d + 1..]);
      assert forall l :: l in Split(name[d + 1..]) ==> l in Split(name);
      CanonOfLabels(name[d + 1..]);
      assert name == name[..d] + [DOT] + name[d + 1..];
      assert Canon(name)[1..] == Canon(name[d + 1..]);
    } else {
      assert name[..d] == name;
    }
  }

  lemma {:induction false} CanonLosesText(name: Octets)
    requires name != [] && [] in Split(name)
    ensures |Join(Canon(name))| < |name|
  {
    var d := FirstDot(name);
    if 0 < d {
      assert Split(name)[0] == name[..d] != [];
      var rest := name[d + 1..];
      assert Split(name)[1..] == Split(rest);
      assert [] in Split(rest) by { assert Split(name)[0] != []; }
      if rest == [] {
        assert Canon(name) == [name[..d]];
      } else {
        CanonLosesText(rest);
        assert Canon(name)[1..] == Canon(rest);
      }
    }
  }

  lemma VisibleIsShort(name: Octets)
    ensures |Join(Canon(name))| <= |name|
  {
    if name != [] && [] in Split(name) {
      CanonLosesText(name);
    } else if name != [] {
      CanonOfLabels(name);
    }
  }

  /** A name is what its visible labels spell exactly when it is the root or has no empty label. */
  lemma TextSurvivesIff(name: Octets)
    ensures Join(Canon(name)) == name <==> Proper(name)
  {
    if name != [] {
      if [] in Split(name) {
        CanonLosesText(name);
      } else {
        CanonOfLabels(name);
      }
    }
  }

  // ----- Writing -----

  /** One remembered suffix and the offset where its labels start. */
  datatype Entry = Entry(v: Octets, pos: nat)

  /** The offset remembered for this text, by the first entry that has it, or -1. */
  function Lookup(table: seq<Entry>, name: Octets): (pos: int)
    ensures pos >= -1
    ensures pos >= 0 ==> Entry(name, pos) in table
    ensures pos < 0 ==> forall e :: e in table ==> e.v != name
  {
    if table == [] then -1
    else if table[0].v == name then table[0].pos
    else Lookup(table[1..], name)
  }

  /** The two octets of a pointer. */
  function PointerTo(pos: nat): (p: Octets)
    ensures |p| == 2 && p[0] >= 192
    ensures pos < POINTER_SPACE ==> Target(p[0], p[1]) == pos
  {
    [192 + pos / 256 % 64, pos % 256]
  }

  datatype WireResult = Written(octets: Octets) | LabelTooLong | NoRoom

  function After(octets: Octets, rest: WireResult): WireResult {
    if rest.Written? then Written(octets + rest.octets) else rest
  }

  /**
   * What the writer puts into a packet for a name, when it has room for `room` more octets: labels up to the
   * first suffix the table knows, and a pointer to that one. The closing zero is not counted against the room.
   */
  function Wire(name: Octets, table: seq<Entry>, room: int): WireResult
    decreases |name|
  {
    var d := FirstDot(name);
    if Lookup(table, name) >= 0 then
      if room < 2 then NoRoom else Written(PointerTo(Lookup(table, name)))
    else if d > 63 then LabelTooLong
    else if d + 1 > room then NoRoom
    else if d == |name| then Written([d] + name + if d == 0 then [] else [0])
    else After([d] + name[..d], Wire(name[d + 1..], table, room - d - 1))
  }

  /** The suffixes written out in labels, with their offsets, when the name starts at offset j. */
  function Added(name: Octets, table: seq<Entry>, j: nat): seq<Entry>
    decreases |name|
  {
    var d := FirstDot(name);
    if Lookup(table, name) >= 0 then []
    else if d == |name| then [Entry(name, j)]
    else [Entry(name, j)] + Added(name[d + 1..], table, j + d + 1)
  }

  /** A table never grows beyond MAX_LABELS entries: later ones are dropped. */
  function Remember(table: seq<Entry>, entries: seq<Entry>): seq<Entry> {
    var all := table + entries;
    if |all| <= MAX_LABELS then all else all[..MAX_LABELS]
  }

  /** Every remembered offset is before `start` and reads as its text, through pointers that only go back. */
  predicate Sound(pkt: Octets, table: seq<Entry>, start: nat) {
    forall e :: e in table ==>
      && e.pos < start && e.pos < POINTER_SPACE
      && Backward(pkt, e.pos, e.pos)
      && Labels(pkt, e.pos, e.pos) == Some(Canon(e.v))
  }

  lemma SoundExtends(pkt: Octets, more: Octets, table: seq<Entry>, start: nat, later: nat)
    requires Sound(pkt, table, start)
    requires start <= later
    ensures Sound(pkt + more, table, later)
  {
    forall e | e in table
      ensures Backward(pkt + more, e.pos, e.pos) && Labels(pkt + more, e.pos, e.pos) == Some(Canon(e.v))
    {
      BackwardExtends(pkt, more, e.pos, e.pos, e.pos);
      LabelsExtend(pkt, more, e.pos, e.pos, e.pos);
    }
  }

  lemma BothSound(pkt: Octets, one: seq<Entry>, other: seq<Entry>, start: nat)
    requires Sound(pkt, one, start) && Sound(pkt, other, start)
    ensures Sound(pkt, one + other, start)
    ensures Sound(pkt, Remember(one, other), start)
  {
  }

  lemma NothingIsSound(pkt: Octets, start: nat)
    ensures Sound(pkt, [], start)
  {
  }

  /** One label in front of a readable rest. */
  lemma LabelReads(pkt: Octets, piece: Octets, rest: Octets, start: nat)
    requires |piece| < 64
    requires start <= |pkt|
    requires piece != [] ==> Backward(pkt + ([|piece|] + piece) + rest, |pkt| + 1 + |piece|, start)
    ensures Backward(pkt + ([|piece|] + piece) + rest, |pkt|, start)
    ensures Labels(pkt + ([|piece|] + piece) + rest, |pkt|, start)
            == if piece == [] then Some([])
               else Cons(piece, Labels(pkt + ([|piece|] + piece) + rest, |pkt| + 1 + |piece|, start))
  {
    var all := pkt + ([|piece|] + piece) + rest;
    assert all[|pkt|] == |piece|;
    assert all[|pkt| + 1..|pkt| + 1 + |piece|] == piece;
  }

  /** A pointer to a readable place before the start of the run. */
  lemma JumpReads(pkt: Octets, pos: nat, rest: Octets, labels: seq<Octets>, start: nat)
    requires pos < start <= |pkt| && pos < POINTER_SPACE
    requires Backward(pkt, pos, pos) && Labels(pkt, pos, pos) == Some(labels)
    ensures var all := pkt + (PointerTo(pos) + rest);
            Backward(all, |pkt|, start) && Labels(all, |pkt|, start) == Some(labels)
  {
    var p := PointerTo(pos);
    var all := pkt + (p + rest);
    assert all[|pkt|] == p[0] && all[|pkt| + 1] == p[1];
    BackwardExtends(pkt, p + rest, pos, pos, pos);
    LabelsExtend(pkt, p + rest, pos, pos, start - 1);
  }

  lemma PointerReads(pkt: Octets, rest: Octets, table: seq<Entry>, name: Octets, start: nat)
    requires Sound(pkt, table, start) && start <= |pkt|
    requires Lookup(table, name) >= 0
    ensures var all := pkt + PointerTo(Lookup(table, name)) + rest;
            Backward(all, |pkt|, start) && Labels(all, |pkt|, start) == Some(Canon(name))
  {
    hide Backward, Labels, PointerTo, Canon, Lookup;
    var pos: nat := Lookup(table, name);
    assert Entry(name, pos) in table;
    assert pkt + PointerTo(pos) + rest == pkt + (PointerTo(pos) + rest);
    JumpReads(pkt, pos, rest, Canon(name), start);
  }

  lemma ZeroReads(pkt: Octets, start: nat)
    ensures Backward(pkt + [0], |pkt|, start) && Labels(pkt + [0], |pkt|, start) == Some([])
  {
    assert (pkt + [0])[|pkt|] == 0;
  }

  lemma LastLabelReads(pkt: Octets, name: Octets, start: nat)
    requires |name| < 64 && start <= |pkt|
    requires FirstDot(name) == |name|
    ensures var all := pkt + ([|name|] + name + if name == [] then [] else [0]);
            && Backward(all, |pkt|, start)
            && Labels(all, |pkt|, start) == Some(Canon(name))
  {
    hide Backward, Labels;
    var close := if name == [] then [] else [0];
    var head := pkt + ([|name|] + name);
    assert pkt + ([|name|] + name + close) == head + close;
    ZeroReads(head, start);
    LabelReads(pkt, name, close, start);
    assert [name] + [] == [name];
  }

  /** What is written reads back as the visible labels, and follows only pointers that go back. */
  lemma {:induction false} WireReads(pkt: Octets, name: Octets, table: seq<Entry>, room: int, start: nat)
    requires Sound(pkt, table, start) && start <= |pkt|
    requires Wire(name, table, room).Written?
    ensures var all := pkt + Wire(name, table, room).octets;
            && Backward(all, |pkt|, start)
            && Labels(all, |pkt|, start) == Some(Canon(name))
    decreases |name|
  {
    hide Backward, Labels, Sound;
    var d := FirstDot(name);
    if Lookup(table, name) >= 0 {
      PointerReads(pkt, [], table, name, start);
      assert pkt + PointerTo(Lookup(table, name)) + [] == pkt + PointerTo(Lookup(table, name));
    } else if d == |name| {
      LastLabelReads(pkt, name, start);
    } else {
      var piece := name[..d];
      var rest := Wire(name[d + 1..], table, room - d - 1).octets;
      var head := pkt + ([d] + piece);
      SoundExtends(pkt, [d] + piece, table, start, start);
      WireReads(head, name[d + 1..], table, room - d - 1, start);
      assert pkt + ([d] + piece + rest) == head + rest;
      LabelReads(pkt, piece, rest, start);
    }
  }

  /** The whole name, as an entry at its own offset. */
  lemma NameIsSound(pkt: Octets, name: Octets, table: seq<Entry>, room: int, start: nat)
    requires Sound(pkt, table, start) && start <= |pkt|
    requires Wire(name, table, room).Written?
    requires |pkt + Wire(name, table, room).octets| <= POINTER_SPACE
    ensures var all := pkt + Wire(name, table, room).octets;
            Sound(all, [Entry(name, |pkt|)], |all|)
  {
    hide Backward, Labels;
    var all := pkt + Wire(name, table, room).octets;
    WireReads(pkt, name, table, room, start);
    LabelsExtend(all, [], |pkt|, start, |pkt|);
    BackwardExtends(all, [], |pkt|, start, |pkt|);
    assert all + [] == all;
  }

  lemma WireStep(name: Octets, table: seq<Entry>, room: int)
    requires Lookup(table, name) < 0 && FirstDot(name) < |name|
    requires Wire(name, table, room).Written?
    ensures var d := FirstDot(name);
            && d < 64
            && Wire(name[d + 1..], table, room - d - 1).Written?
            && Wire(name, table, room).octets == [d] + name[..d] + Wire(name[d + 1..], table, room - d - 1).octets
  {
    hide Lookup, FirstDot;
  }

  lemma AddedStep(name: Octets, table: seq<Entry>, j: nat)
    requires Lookup(table, name) < 0 && FirstDot(name) < |name|
    ensures var d := FirstDot(name);
            Added(name, table, j) == [Entry(name, j)] + Added(name[d + 1..], table, j + d + 1)
  {
    hide Lookup, FirstDot;
  }

  /** One label of a name that goes on after a dot. */
  lemma FirstLabel(pkt: Octets, name: Octets, table: seq<Entry>, room: int)
    requires Lookup(table, name) < 0 && FirstDot(name) < |name|
    requires Wire(name, table, room).Written?
    ensures FirstDot(name) < 64
    ensures var d := FirstDot(name);
            var head := pkt + ([d] + name[..d]);
            && Wire(name[d + 1..], table, room - d - 1).Written?
            && pkt + Wire(name, table, room).octets == head + Wire(name[d + 1..], table, room - d - 1).octets
            && Added(name, table, |pkt|) == [Entry(name, |pkt|)] + Added(name[d + 1..], table, |head|)
  {
    hide Lookup, FirstDot, Wire, Added;
    var d := FirstDot(name);
    WireStep(name, table, room);
    AddedStep(name, table, |pkt|);
    Reassociate(pkt, [d] + name[..d], Wire(name[d + 1..], table, room - d - 1).octets);
  }

  lemma Reassociate(a: Octets, b: Octets, c: Octets)
    ensures a + (b + c) == a + b + c
  {
  }

  lemma LastAdded(name: Octets, table: seq<Entry>, j: nat)
    ensures Lookup(table, name) >= 0 ==> Added(name, table, j) == []
    ensures Lookup(table, name) < 0 && FirstDot(name) == |name| ==> Added(name, table, j) == [Entry(name, j)]
  {
  }

  /** The suffixes written out in labels can be pointed to. */
  lemma {:induction false} AddedReads(pkt: Octets, name: Octets, table: seq<Entry>, room: int, start: nat)
    requires Sound(pkt, table, start) && start <= |pkt|
    requires Wire(name, table, room).Written?
    requires |pkt + Wire(name, table, room).octets| <= POINTER_SPACE
    ensures var all := pkt + Wire(name, table, room).octets;
            Sound(all, Added(name, table, |pkt|), |all|)
    decreases |name|
  {
    hide Sound, Wire, Added, Lookup, FirstDot, Labels, Backward;
    var d := FirstDot(name);
    var all := pkt + Wire(name, table, room).octets;
    LastAdded(name, table, |pkt|);
    if Lookup(table, name) >= 0 {
      NothingIsSound(all, |all|);
    } else {
      NameIsSound(pkt, name, table, room, start);
      if d < |name| {
        var head := pkt + ([d] + name[..d]);
        FirstLabel(pkt, name, table, room);
        SoundExtends(pkt, [d] + name[..d], table, start, start);
        AddedReads(head, name[d + 1..], table, room - d - 1, start);
        BothSound(all, [Entry(name, |pkt|)], Added(name[d + 1..], table, |head|), |all|);
      }
    }
  }

  lemma LabelEnds(pkt: Octets, octets: Octets, rest: Octets)
    requires 1 < |octets| <= 64 && octets[0] == |octets| - 1
    ensures NameEnd(pkt + octets + rest, |pkt|) == NameEnd(pkt + octets + rest, |pkt| + |octets|)
  {
    hide NameEnd;
    OctetBehind(pkt, octets, rest);
    NameEndStep(pkt + octets + rest, |pkt|);
  }

  lemma OctetBehind(pkt: Octets, octets: Octets, rest: Octets)
    requires octets != []
    ensures |pkt| < |pkt + octets + rest| && (pkt + octets + rest)[|pkt|] == octets[0]
  {
  }

  lemma PointerEnds(pkt: Octets, pos: nat)
    ensures NameEnd(pkt + PointerTo(pos), |pkt|) == |pkt| + 2
  {
    hide NameEnd;
    NameEndStep(pkt + PointerTo(pos), |pkt|);
    assert (pkt + PointerTo(pos))[|pkt|] == PointerTo(pos)[0];
  }

  lemma LastLabelEnds(pkt: Octets, name: Octets)
    requires |name| < 64
    ensures var all := pkt + ([|name|] + name + if name == [] then [] else [0]);
            NameEnd(all, |pkt|) == |all|
  {
    hide NameEnd;
    if name == [] {
      ZeroEnds(pkt);
      assert pkt + ([0] + [] + []) == pkt + [0];
    } else {
      var head := pkt + ([|name|] + name);
      LabelEnds(pkt, [|name|] + name, [0]);
      ZeroEnds(head);
      assert pkt + ([|name|] + name + [0]) == head + [0];
    }
  }

  lemma ZeroEnds(pkt: Octets)
    ensures NameEnd(pkt + [0], |pkt|) == |pkt| + 1
  {
    hide NameEnd;
    NameEndStep(pkt + [0], |pkt|);
    assert (pkt + [0])[|pkt|] == 0;
  }

  lemma SplitAtDot(name: Octets)
    requires FirstDot(name) < |name|
    ensures Split(name) == [name[..FirstDot(name)]] + Split(name[FirstDot(name) + 1..])
  {
  }

  lemma ProperRest(name: Octets)
    requires Proper(name) && FirstDot(name) < |name|
    ensures 0 < FirstDot(name) && Proper(name[FirstDot(name) + 1..])
  {
    hide Split, FirstDot;
    var d := FirstDot(name);
    SplitAtDot(name);
    NotInParts(name[..d], Split(name[d + 1..]), []);
  }

  lemma NotInParts(first: Octets, rest: seq<Octets>, x: Octets)
    requires x !in [first] + rest
    ensures x != first && x !in rest
  {
    assert ([first] + rest)[0] == first;
    assert forall i :: 0 <= i < |rest| ==> rest[i] == ([first] + rest)[i + 1];
  }

  /** Where the written name stops: behind all its octets, unless an empty label ends it early. */
  lemma {:induction false} WireEnds(pkt: Octets, name: Octets, table: seq<Entry>, room: int)
    requires Wire(name, table, room).Written?
    requires Proper(name)
    ensures var all := pkt + Wire(name, table, room).octets;
            NameEnd(all, |pkt|) == |all|
    decreases |name|
  {
    hide NameEnd, Proper;
    var d := FirstDot(name);
    if Lookup(table, name) >= 0 {
      PointerEnds(pkt, Lookup(table, name));
    } else if d == |name| {
      LastLabelEnds(pkt, name);
    } else {
      FirstLabel(pkt, name, table, room);
      ProperRest(name);
      var head := pkt + ([d] + name[..d]);
      hide Wire;
      WireEnds(head, name[d + 1..], table, room - d - 1);
      LabelEnds(pkt, [d] + name[..d], Wire(name[d + 1..], table, room - d - 1).octets);
    }
  }

  /** The state of a packet under construction, after a name has been put behind it. */
  lemma NameWritten(pkt: Octets, name: Octets, table: seq<Entry>, room: int)
    requires Sound(pkt, table, |pkt|)
    requires Wire(name, table, room).Written?
    requires |pkt + Wire(name, table, room).octets| <= POINTER_SPACE
    ensures var all := pkt + Wire(name, table, room).octets;
            && Sound(all, Remember(table, Added(name, table, |pkt|)), |all|)
            && Backward(all, |pkt|, |pkt|)
            && Labels(all, |pkt|, |all|) == Some(Canon(name))
            && (Proper(name) ==> Join(Canon(name)) == name && NameEnd(all, |pkt|) == |all|)
  {
    var b := Wire(name, table, room).octets;
    var all := pkt + b;
    WireReads(pkt, name, table, room, |pkt|);
    LabelsExtend(all, [], |pkt|, |pkt|, |all|);
    assert all + [] == all;
    AddedReads(pkt, name, table, room, |pkt|);
    SoundExtends(pkt, b, table, |pkt|, |all|);
    TextSurvivesIff(name);
    if Proper(name) {
      WireEnds(pkt, name, table, room);
    }
  }
}
