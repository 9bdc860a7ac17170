/**
 * The resolver's bookkeeping: requests in flight, hashed by transaction id; requests that wait; and the
 * nameservers, chosen in turn. Circular lists are sequences that start at the list's head.
 */
module DnsScheduler {
  import opened DnsPick
  import opened Lists
  import opened Words

  const NO_ID: u16 := 0xFFFF

  /** struct nameserver, without its socket, address and timers. */
  class Nameserver {
    var up: bool
    var requestsInflight: int
    var choked: bool
    var timedout: int
    var failedTimes: int
    var probe: Request?

    constructor ()
      ensures up && requestsInflight == 0 && !choked && timedout == 0 && failedTimes == 0 && probe == null
    {
      up, requestsInflight, choked, timedout, failedTimes, probe := true, 0, false, 0, 0, null;
    }
  }

  /** struct request, without its packet, timer and callback. */
  class Request {
    var transId: u16
    var ns: Nameserver?
    var txCount: nat
    var reissueCount: nat
    var transmitMe: bool

    constructor (transId: u16, ns: Nameserver?)
      ensures this.transId == transId && this.ns == ns && txCount == 0 && reissueCount == 0 && !transmitMe
    {
      this.transId, this.ns := transId, ns;
      txCount, reissueCount, transmitMe := 0, 0, false;
    }
  }

  function ProbeOf(ns: Nameserver): set<Request>
    reads ns`probe
  {
    if ns.probe == null then {} else {ns.probe}
  }

  /** The servers that are up, in the order in which they are met. */
  ghost function Ups(servers: seq<Nameserver>): seq<Nameserver>
    reads servers`up
  {
    if servers == [] then [] else (if servers[0].up then [servers[0]] else []) + Ups(servers[1..])
  }

  twostate lemma {:induction false} SameUps(servers: seq<Nameserver>)
    requires forall s :: s in servers ==> s.up == old(s.up)
    ensures Ups(servers) == old(Ups(servers))
  {
    if servers != [] {
      SameUps(servers[1..]);
    }
  }

  lemma {:induction false} UpsOfBoth(a: seq<Nameserver>, b: seq<Nameserver>)
    ensures Ups(a + b) == Ups(a) + Ups(b)
  {
    if a == [] {
      assert a + b == b;
    } else {
      assert (a + b)[1..] == a[1..] + b;
      UpsOfBoth(a[1..], b);
    }
  }

  lemma {:induction false} UpsMembers(servers: seq<Nameserver>)
    ensures forall s :: s in Ups(servers) <==> s in servers && s.up
    ensures NoRepeat(servers) ==> NoRepeat(Ups(servers))
  {
    if servers != [] {
      UpsMembers(servers[1..]);
    }
  }

  lemma {:induction false} FirstUp(servers: seq<Nameserver>)
    requires Ups(servers) != []
    ensures Ups(servers)[0] in servers && Ups(servers)[0].up
  {
    if !servers[0].up {
      FirstUp(servers[1..]);
    }
  }

  lemma {:induction false} NoneUp(servers: seq<Nameserver>)
    requires forall s :: s in servers ==> !s.up
    ensures Ups(servers) == []
  {
    if servers != [] {
      NoneUp(servers[1..]);
    }
  }

  lemma UpsOfRotation(servers: seq<Nameserver>)
    requires servers != []
    ensures Ups(Rotate(servers)) == if servers[0].up then Rotate(Ups(servers)) else Ups(servers)
  {
    UpsOfBoth(servers[1..], [servers[0]]);
    assert Ups([servers[0]]) == if servers[0].up then [servers[0]] else [];
  }

  lemma FairAmong(ups: seq<Nameserver>, picks: seq<Nameserver>, rounds: nat, s: Nameserver)
    requires ups != [] && NoRepeat(ups) && picks == Picks(ups, rounds * |ups|)
    ensures multiset(picks)[s] == if s in ups then rounds else 0
  {
    RoundsAreFair(ups, rounds, s);
  }

  /** The requests among these that are assigned to this server, and how many they are. */
  ghost function Assignment(requests: set<Request>, s: Nameserver): set<Request>
    reads requests`ns
  {
    set r | r in requests && r.ns == s
  }

  ghost function Load(requests: set<Request>, s: Nameserver): nat
    reads requests`ns
  {
    |Assignment(requests, s)|
  }

  lemma LoadOfOneMore(requests: set<Request>, r: Request, s: Nameserver)
    requires r !in requests
    ensures Load(requests + {r}, s) == Load(requests, s) + if r.ns == s then 1 else 0
  {
    if r.ns == s {
      assert Assignment(requests + {r}, s) == Assignment(requests, s) + {r};
    } else {
      assert Assignment(requests + {r}, s) == Assignment(requests, s);
    }
  }

  /** What moving requests away from a server that is down does to one of them. */
  twostate predicate StaysOrLeaves(r: Request, ns: Nameserver)
    reads r, r.ns
  {
    r.ns == old(r.ns) || (old(r.ns) == ns && r.txCount == 0 && r.ns != null && r.ns.up)
  }

  lemma UpsAround(servers: seq<Nameserver>, i: nat)
    requires i < |servers|
    ensures |Ups(servers)| == |Ups(servers[..i])| + (if servers[i].up then 1 else 0) + |Ups(servers[i + 1..])|
    ensures Ups(servers) == Ups(servers[..i]) + (if servers[i].up then [servers[i]] else []) + Ups(servers[i + 1..])
  {
    assert servers == servers[..i] + ([servers[i]] + servers[i + 1..]);
    UpsOfBoth(servers[..i], [servers[i]] + servers[i + 1..]);
    UpsOfBoth([servers[i]], servers[i + 1..]);
    assert [servers[i]][1..] == [];
  }

  lemma {:induction false} WithoutMiddle(front: seq<Nameserver>, ns: Nameserver, back: seq<Nameserver>)
    requires ns !in front
    ensures Without(front + [ns] + back, ns) == front + back
    decreases |front|
  {
    if front == [] {
      assert front + [ns] + back == [ns] + back && front + back == back;
    } else {
      assert (front + [ns] + back)[1..] == front[1..] + [ns] + back;
      WithoutMiddle(front[1..], ns, back);
      assert [front[0]] + (front[1..] + back) == front + back;
    }
  }

  /** Each of these requests is in the bucket of its id, once, and the buckets hold nothing else. */
  ghost predicate HashedBy(heads: seq<seq<Request>>, flying: set<Request>)
    reads flying`transId
  {
    && |heads| > 0
    && (forall b, r :: 0 <= b < |heads| && r in heads[b] ==> r in flying)
    && (forall b, r :: 0 <= b < |heads| && r in heads[b] ==> r.transId % |heads| == b)
    && (forall r :: r in flying ==> r in heads[r.transId % |heads|])
    && (forall b :: 0 <= b < |heads| ==> NoRepeat(heads[b]))
  }

  /** The buckets after a request has joined the end of its own. */
  function Entered(heads: seq<seq<Request>>, req: Request): (after: seq<seq<Request>>)
    requires heads != []
    reads req`transId
    ensures |after| == |heads|
  {
    var b := req.transId % |heads|;
    heads[b := heads[b] + [req]]
  }

  /** The same for one request after another. */
  function AllEntered(heads: seq<seq<Request>>, list: seq<Request>): (after: seq<seq<Request>>)
    requires heads != []
    reads list`transId
    ensures |after| == |heads|
    decreases |list|
  {
    if list == [] then heads else AllEntered(Entered(heads, list[0]), list[1..])
  }

  /** The buckets after a request has left its own. */
  function Left(heads: seq<seq<Request>>, req: Request): (after: seq<seq<Request>>)
    requires heads != []
    reads req`transId
  {
    var b := req.transId % |heads|;
    heads[b := Without(heads[b], req)]
  }

  lemma EnterHashed(heads: seq<seq<Request>>, flying: set<Request>, req: Request)
    requires HashedBy(heads, flying) && req !in flying
    ensures var b := req.transId % |heads|;
            HashedBy(heads[b := heads[b] + [req]], flying + {req})
  {
  }

  lemma LeaveHashed(heads: seq<seq<Request>>, flying: set<Request>, req: Request)
    requires HashedBy(heads, flying) && req in flying
    ensures var b := req.transId % |heads|;
            && |Without(heads[b], req)| == |heads[b]| - 1
            && HashedBy(heads[b := Without(heads[b], req)], flying - {req})
  {
    var b := req.transId % |heads|;
    hide Without, NoRepeat;
    WithoutIsShorter(heads[b], req);
    var rest := Without(heads[b], req);
    var after := heads[b := rest];
    forall c, r | 0 <= c < |after| && r in after[c]
      ensures r in flying - {req} && r.transId % |after| == c
    {
      if c == b {
        InWithout(heads[b], req, r);
      }
      assert r in heads[c];
    }
    forall r | r in flying - {req} ensures r in after[r.transId % |after|] {
      InWithout(heads[b], req, r);
      assert r in heads[r.transId % |heads|];
    }
  }

  lemma NothingHashed(heads: seq<seq<Request>>)
    requires |heads| > 0 && forall b :: 0 <= b < |heads| ==> heads[b] == []
    ensures HashedBy(heads, {})
  {
  }

  /** These requests one bucket after another. */
  function Flatten(heads: seq<seq<Request>>): seq<Request> {
    if heads == [] then [] else Flatten(heads[..|heads| - 1]) + heads[|heads| - 1]
  }

  /** The part of a list that belongs to a set. */
  function Only(list: seq<Request>, keep: set<Request>): seq<Request> {
    if list == [] then []
    else Only(list[..|list| - 1], keep) + if list[|list| - 1] in keep then [list[|list| - 1]] else []
  }

  lemma {:induction false} FlattenNothing(heads: seq<seq<Request>>)
    requires forall b :: 0 <= b < |heads| ==> heads[b] == []
    ensures Flatten(heads) == []
    decreases |heads|
  {
    if heads != [] {
      FlattenNothing(heads[..|heads| - 1]);
    }
  }

  /** The first request in the order of the buckets. */
  lemma {:induction false} FlattenFirst(heads: seq<seq<Request>>, i: nat)
    requires i < |heads| && heads[i] != [] && forall b :: 0 <= b < i ==> heads[b] == []
    ensures Flatten(heads) == [heads[i][0]] + Flatten(heads[i := heads[i][1..]])
    decreases |heads|
  {
    var n := |heads| - 1;
    var after := heads[i := heads[i][1..]];
    assert after[..n] == if i < n then heads[..n][i := heads[i][1..]] else heads[..n];
    if i < n {
      FlattenFirst(heads[..n], i);
      assert [heads[i][0]] + (Flatten(after[..n]) + heads[n]) == [heads[i][0]] + Flatten(after[..n]) + heads[n];
    } else {
      FlattenNothing(heads[..n]);
      assert heads[i] == [heads[i][0]] + heads[i][1..];
    }
  }

  lemma FlattenMore(heads: seq<seq<Request>>, b: nat)
    requires b < |heads|
    ensures Flatten(heads[..b + 1]) == Flatten(heads[..b]) + heads[b]
  {
    assert heads[..b + 1][..b] == heads[..b];
  }

  lemma OnlyMore(list: seq<Request>, i: nat, keep: set<Request>)
    requires i < |list|
    ensures Only(list[..i + 1], keep) == Only(list[..i], keep) + if list[i] in keep then [list[i]] else []
  {
    assert list[..i + 1][..i] == list[..i];
  }

  lemma {:induction false} OnlyOfBoth(a: seq<Request>, b: seq<Request>, keep: set<Request>)
    ensures Only(a + b, keep) == Only(a, keep) + Only(b, keep)
    decreases |b|
  {
    if b == [] {
      assert a + b == a;
    } else {
      assert (a + b)[..|a + b| - 1] == a + b[..|b| - 1];
      OnlyOfBoth(a, b[..|b| - 1], keep);
    }
  }

  lemma {:induction false} OnlySame(list: seq<Request>, s: set<Request>, t: set<Request>)
    requires forall r :: r in list ==> (r in s <==> r in t)
    ensures Only(list, s) == Only(list, t)
    decreases |list|
  {
    if list != [] {
      assert list[|list| - 1] in list;
      OnlySame(list[..|list| - 1], s, t);
    }
  }

  lemma {:induction false} OnlyHas(list: seq<Request>, keep: set<Request>, r: Request)
    ensures r in Only(list, keep) <==> r in list && r in keep
    decreases |list|
  {
    if list != [] {
      assert list == list[..|list| - 1] + [list[|list| - 1]];
      OnlyHas(list[..|list| - 1], keep, r);
    }
  }

  /** How many of the list there are from this request on. */
  function Since(list: seq<Request>, r: Request): nat {
    if list == [] then 0 else if list[0] == r then |list| else Since(list[1..], r)
  }

  lemma {:induction false} SinceIs(list: seq<Request>, r: Request) returns (p: nat)
    requires r in list
    ensures p < |list| && list[p] == r && Since(list, r) == |list| - p
    decreases |list|
  {
    p := 0;
    if list[0] != r {
      assert list == [list[0]] + list[1..];
      p := SinceIs(list[1..], r);
      p := p + 1;
    }
  }

  /** The server whose turn it is after k turns. */
  ghost function InTurn(good: seq<Nameserver>, k: nat): Nameserver
    requires good != []
  {
    good[k % |good|]
  }

  lemma FirstInTurn(good: seq<Nameserver>, n: nat)
    requires good != []
    ensures Turned(good, n)[0] == InTurn(good, n)
  {
    TurnedAt(good, n, 0);
  }

  lemma LaterInTurn(good: seq<Nameserver>, n: nat, k: nat)
    requires good != []
    ensures InTurn(Turned(good, n), k) == InTurn(good, n + k)
  {
    TurnedAround(good, n, k);
  }

  lemma TurnedNever(list: seq<Nameserver>)
    ensures Turned(list, 0) == list
  {
  }

  lemma TurnedMore(list: seq<Nameserver>, n: nat)
    ensures Turned(list, n + 1) == Rotate(Turned(list, n))
  {
  }

  /** Two turns are the same server's exactly if whole rounds lie between them. */
  lemma SameInTurn(good: seq<Nameserver>, p: nat, m: nat)
    requires good != [] && NoRepeat(good) && p <= m
    ensures InTurn(good, p) == InTurn(good, m) <==> (m - p) % |good| == 0
  {
    SameRemainder(p, m, |good|);
  }

  /** How many requests the buckets hold. */
  function Total(heads: seq<seq<Request>>): nat {
    if heads == [] then 0 else |heads[0]| + Total(heads[1..])
  }

  lemma {:induction false} TotalOfUpdate(heads: seq<seq<Request>>, b: nat, bucket: seq<Request>)
    requires b < |heads|
    ensures Total(heads[b := bucket]) == Total(heads) - |heads[b]| + |bucket|
  {
    if b > 0 {
      assert heads[b := bucket][1..] == heads[1..][b - 1 := bucket];
      TotalOfUpdate(heads[1..], b - 1, bucket);
    } else {
      assert heads[b := bucket][1..] == heads[1..];
    }
  }

  lemma {:induction false} TotalOfNothing(heads: seq<seq<Request>>)
    requires forall b :: 0 <= b < |heads| ==> heads[b] == []
    ensures Total(heads) == 0
  {
    if heads != [] {
      TotalOfNothing(heads[1..]);
    }
  }

  lemma NothingInBuckets(heads: seq<seq<Request>>, flying: set<Request>)
    requires HashedBy(heads, flying) && flying == {}
    ensures forall b :: 0 <= b < |heads| ==> heads[b] == []
  {
    hide HashedBy;
    forall b | 0 <= b < |heads| ensures |heads[b]| == 0 {
      if |heads[b]| > 0 {
        FirstFlies(heads, flying, b);
      }
    }
  }

  lemma FirstFlies(heads: seq<seq<Request>>, flying: set<Request>, b: nat)
    requires HashedBy(heads, flying) && b < |heads| && |heads[b]| > 0
    ensures heads[b][0] in flying
  {
    assert heads[b][0] in heads[b];
  }

  /** The buckets hold as many entries as there are requests in flight. */
  lemma {:induction false} BucketsHoldAll(heads: seq<seq<Request>>, flying: set<Request>)
    requires HashedBy(heads, flying)
    ensures Total(heads) == |flying|
    decreases |flying|
  {
    if flying == {} {
      NothingInBuckets(heads, flying);
      TotalOfNothing(heads);
    } else {
      var req :| req in flying;
      var b := req.transId % |heads|;
      LeaveHashed(heads, flying, req);
      hide HashedBy, Without, Total;
      TotalOfUpdate(heads, b, Without(heads[b], req));
      BucketsHoldAll(heads[b := Without(heads[b], req)], flying - {req});
    }
  }

  /** Where a request is, how often it was sent, and whether it is to be sent. */
  datatype Standing = Standing(ns: Nameserver?, txCount: nat, marked: bool)

  ghost function StandingOf(r: Request): Standing
    reads r`ns, r`txCount, r`transmitMe
  {
    Standing(r.ns, r.txCount, r.transmitMe)
  }

  lemma GivenServer(a: Standing, ns: Nameserver, b: Standing, down: set<Nameserver>, downNow: set<Nameserver>,
                    choked: set<Nameserver>)
    ensures Sent(a.(ns := ns), ns, b, down, downNow, choked) ==> Sent(a, ns, b, down, downNow, choked)
  {
  }

  ghost predicate Leaves(a: Standing, b: Standing, ns: Nameserver?, down: set<Nameserver>, downNow: set<Nameserver>) {
    a.txCount == 0 && {ns} <= downNow && {ns} !! down && {b.ns} !! down
  }

  ghost predicate Onward(a: Standing, b: Standing, down: set<Nameserver>, downNow: set<Nameserver>) {
    && (b.marked ==> a.marked)
    && b.txCount == a.txCount + (if a.marked && !b.marked then 1 else 0)
    && (b.ns == a.ns || Leaves(a, b, a.ns, down, downNow))
  }

  lemma NothingYet(a: Standing, down: set<Nameserver>)
    ensures Onward(a, a, down, down)
  {
  }

  lemma OnwardTwice(a: Standing, b: Standing, c: Standing, down: set<Nameserver>, between: set<Nameserver>,
                    downNow: set<Nameserver>)
    requires Onward(a, b, down, between) && Onward(b, c, between, downNow) && down <= between <= downNow
    ensures Onward(a, c, down, downNow)
  {
  }

  ghost predicate InPlace(b: Standing, sent: int, down: set<Nameserver>, turn: Nameserver, known: set<Nameserver>,
                          downNow: set<Nameserver>, choked: set<Nameserver>)
  {
    && b.txCount == sent + (if b.marked then 0 else 1)
    && (known <= downNow || {b.ns} !! down)
    && (downNow == down ==> b.ns == turn && (b.marked ==> {b.ns} <= choked))
  }

  lemma StaysInPlace(a: Standing, b: Standing, sent: int, down: set<Nameserver>, turn: Nameserver, known: set<Nameserver>,
                     before: set<Nameserver>, now: set<Nameserver>, choked: set<Nameserver>, chokedNow: set<Nameserver>)
    requires InPlace(a, sent, down, turn, known, before, choked) && Onward(a, b, before, now)
    requires down <= before <= now && choked <= chokedNow
    ensures InPlace(b, sent, down, turn, known, now, chokedNow)
  {
  }

  lemma SentInPlace(a: Standing, b: Standing, down: set<Nameserver>, turn: Nameserver, known: set<Nameserver>,
                    before: set<Nameserver>, ns: Nameserver, now: set<Nameserver>, choked: set<Nameserver>)
    requires Sent(a, ns, b, before, now, choked) && down <= before <= now
    requires known <= now || {b.ns} !! before
    requires before == down ==> ns == turn
    ensures InPlace(b, a.txCount, down, turn, known, now, choked)
  {
  }

  ghost predicate Sent(a: Standing, ns: Nameserver, b: Standing, down: set<Nameserver>, downNow: set<Nameserver>,
                       choked: set<Nameserver>)
  {
    && b.txCount == a.txCount + (if b.marked then 0 else 1)
    && (b.ns == ns || Leaves(a, b, ns, down, downNow))
    && (b.marked && b.ns == ns ==> {ns} <= choked)
  }

  /** struct evdns_base. */
  class Base {
    var heads: seq<seq<Request>>
    var waiting: seq<Request>
    var servers: seq<Nameserver>
    var goodNameservers: int
    var requestsInflight: int
    var requestsWaiting: int
    var maxRequestsInflight: int
    var maxRetransmits: int
    var maxReissues: int
    var maxNameserverTimeout: int
    /** The requests in the buckets, and the servers in the list. */
    ghost var inflight: set<Request>
    ghost var known: set<Nameserver>
    /** All requests that were ever submitted. */
    ghost var requests: set<Request>

    /** The list has each known server once, and the good ones are counted. */
    ghost predicate ServersFit()
      reads this`servers, this`known, this`goodNameservers, servers`up
    {
      && NoRepeat(servers)
      && (forall s :: s in servers ==> s in known)
      && (forall s :: s in known ==> s in servers)
      && goodNameservers == |Ups(servers)|
    }

    /** The buckets hold the requests in flight, and each of these has an id. */
    ghost predicate Hashed()
      reads this`heads, this`inflight, inflight`transId
    {
      HashedBy(heads, inflight) && forall r :: r in inflight ==> r.transId != NO_ID
    }

    /** A request has a server exactly when it is in flight. */
    ghost predicate Assigned()
      reads this`inflight, this`waiting, this`known, this`requests, inflight`ns, waiting`ns
    {
      && (forall r :: r in inflight ==> r.ns != null && r.ns in known)
      && (forall r :: r in waiting ==> r.ns == null)
      && NoRepeat(waiting)
      && inflight <= requests
      && (forall r :: r in waiting ==> r in requests)
    }

    /** The counters are right when these are the requests in flight. */
    ghost predicate Counts(flying: set<Request>)
      reads this`known, this`requestsInflight, flying`ns, known`requestsInflight
    {
      && requestsInflight == |flying|
      && (forall s :: s in known ==> s.requestsInflight == Load(flying, s))
    }

    ghost predicate Counted()
      reads this`inflight, this`waiting, this`known, this`requestsInflight, this`requestsWaiting
      reads inflight`ns, known`requestsInflight
    {
      Counts(inflight) && requestsWaiting == |waiting|
    }

    ghost predicate Valid()
      reads this, inflight`ns, inflight`transId, waiting`ns, known`requestsInflight, servers`up
    {
      ServersFit() && Hashed() && Assigned() && Counted() && maxRequestsInflight < NO_ID
    }

    /** request_swap_ns: a request moves to another server, and the loads with it. */
    method SwapNs(req: Request, ns: Nameserver?)
      requires Assigned() && Counted() && req in inflight
      requires ns != null ==> ns in known
      modifies req`ns, known`requestsInflight
      ensures Assigned() && Counted()
      ensures req.ns == if ns == null then old(req.ns) else ns
    {
      hide Load, NoRepeat;
      if ns != null && req.ns != ns {
        ghost var others := inflight - {req};
        assert inflight == others + {req};
        ghost var from := req.ns;
        forall s: Nameserver | s in known
          ensures s.requestsInflight == Load(others, s) + if s == from then 1 else 0
        {
          LoadOfOneMore(others, req, s);
        }
        assert req.ns.requestsInflight > 0;
        req.ns.requestsInflight := req.ns.requestsInflight - 1;
        ns.requestsInflight := ns.requestsInflight + 1;
        req.ns := ns;
        forall s: Nameserver | s in known ensures Load(inflight, s) == Load(others, s) + if s == ns then 1 else 0 {
          LoadOfOneMore(others, req, s);
        }
      }
    }

    /** The turn passes to the next server. */
    method PassTurn()
      requires ServersFit() && servers != []
      modifies this`servers
      ensures ServersFit()
      ensures servers == Rotate(old(servers)) && servers != []
      ensures Ups(servers) == if old(servers)[0].up then Rotate(old(Ups(servers))) else old(Ups(servers))
    {
      RotateKeepsDistinct(servers);
      RotateKeepsMembers(servers);
      UpsOfRotation(servers);
      servers := Rotate(servers);
    }

    /** The loop of nameserver_pick: on to the first server that is up, which comes before a whole round. */
    method SkipDown()
      requires ServersFit() && goodNameservers > 0
      modifies this`servers
      ensures ServersFit()
      ensures servers != [] && servers[0].up && Ups(servers) == old(Ups(servers))
    {
      hide Rotate, Ups;
      ghost var all := servers;
      SomeUp(all);
      var startedAt := servers[0];
      ghost var i := 0;
      while !servers[0].up
        invariant 0 <= i < |all| && servers == all[i..] + all[..i]
        invariant forall k :: 0 <= k < i ==> !all[k].up
        invariant Ups(servers) == Ups(all)
        decreases |all| - i
      {
        RotateAgain(all, i);
        UpsOfRotation(servers);
        servers := Rotate(servers);
        i := i + 1;
        if servers[0] == startedAt {
          NoneUp(all);
          assert false;
        }
      }
      SplitMembers(all, i);
    }

    /**
     * nameserver_pick: the next server that is up, and the turn passes on; when none is up, simply the next
     * server. The servers that are up are taken in turn.
     */
    method NameserverPick() returns (picked: Nameserver?)
      requires ServersFit()
      modifies this`servers
      ensures ServersFit()
      ensures picked == null <==> servers == []
      ensures old(Ups(servers)) != [] ==>
                picked == old(Ups(servers))[0] && Ups(servers) == Rotate(old(Ups(servers)))
      ensures old(servers) != [] && old(Ups(servers)) == [] ==>
                servers == Rotate(old(servers)) && picked == servers[0]
      ensures picked != null ==> picked in known && (picked.up <==> goodNameservers > 0)
    {
      hide Rotate, NoRepeat;
      UpsMembers(servers);
      if servers == [] { return null; }
      if goodNameservers == 0 {
        PassTurn();
        assert servers[0] in servers;
        return servers[0];
      }
      SkipDown();
      picked := servers[0];
      assert picked in servers;
      PassTurn();
    }

    /** That many choices one after another, while nothing else happens: they take the good servers in turn. */
    method PickInTurn(n: nat) returns (picks: seq<Nameserver>)
      requires ServersFit() && goodNameservers > 0
      modifies this`servers
      ensures ServersFit() && picks == Picks(old(Ups(servers)), n)
    {
      hide Ups, NoRepeat, Rotate;
      picks := [];
      for i := 0 to n
        invariant ServersFit()
        invariant Picks(old(Ups(servers)), n) == picks + Picks(Ups(servers), n - i)
      {
        ghost var ups := Ups(servers);
        var picked := NameserverPick();
        assert Picks(ups, n - i) == [picked] + Picks(Rotate(ups), n - i - 1);
        assert picks + ([picked] + Picks(Ups(servers), n - i - 1)) == picks + [picked] + Picks(Ups(servers), n - i - 1);
        picks := picks + [picked];
      }
    }

    /** In whole rounds each good server is chosen as often as any other, and no other server ever. */
    method PickRounds(rounds: nat) returns (picks: seq<Nameserver>)
      requires ServersFit() && goodNameservers > 0
      modifies this`servers
      ensures ServersFit() && |picks| == rounds * goodNameservers
      ensures forall s :: s in known ==> multiset(picks)[s] == if s.up then rounds else 0
    {
      hide Ups, Rotate, Picks;
      ghost var ups, list := Ups(servers), servers;
      UpsMembers(list);
      picks := PickInTurn(rounds * goodNameservers);
      forall s | s in known ensures multiset(picks)[s] == if s.up then rounds else 0 {
        FairAmong(ups, picks, rounds, s);
      }
    }

    /** The servers in the order of their turns: those that are up, or all from the next one on when none is. */
    ghost function Line(): seq<Nameserver>
      reads this`servers, servers`up
    {
      if Ups(servers) != [] then Ups(servers) else Rotate(servers)
    }

    /** The server whose turn it is. */
    ghost function Next(): Nameserver?
      reads this`servers, servers`up
    {
      if Line() == [] then null else Line()[0]
    }

    lemma LineIsThere()
      ensures Line() == [] <==> servers == []
    {
    }

    lemma NextInLine()
      ensures Next() == if Line() == [] then null else Line()[0]
    {
    }

    /** request_swap_ns with the next server in turn. */
    method MoveRequest(req: Request)
      requires ServersFit() && Assigned() && Counted() && req in inflight
      modifies this`servers, req`ns, known`requestsInflight
      ensures ServersFit() && Assigned() && Counted()
      ensures goodNameservers > 0 ==> req.ns != null && req.ns.up
      ensures req.ns == old(Next())
      ensures Ups(servers) == if old(Ups(servers)) == [] then [] else Rotate(old(Ups(servers)))
    {
      hide NoRepeat, Load, Ups;
      UpsMembers(servers);
      var other := NameserverPick();
      SwapNs(req, other);
    }

    /** The requests of a server that have not been sent. */
    ghost function Unsent(ns: Nameserver): set<Request>
      reads this`inflight, inflight`ns, inflight`txCount
    {
      set r | r in inflight && r.txCount == 0 && r.ns == ns
    }

    /** They are where the round robin has put them: the first one at the first good server, and so on. */
    ghost predicate Spread(leavers: seq<Request>, good: seq<Nameserver>)
      reads this`servers, servers`up, leavers`ns
    {
      && good != []
      && Ups(servers) == Turned(good, |leavers|)
      && forall k :: 0 <= k < |leavers| ==> leavers[k].ns == InTurn(good, k)
    }

    /** One more of them moves. */
    method LeaveOne(req: Request, ghost leavers: seq<Request>, ghost good: seq<Nameserver>)
      requires ServersFit() && Assigned() && Counted() && req in inflight && goodNameservers > 0
      requires Spread(leavers, good) && req !in leavers
      modifies this`servers, req`ns, known`requestsInflight
      ensures ServersFit() && Assigned() && Counted()
      ensures req.ns != null && req.ns.up
      ensures Spread(leavers + [req], good)
    {
      hide Base.ServersFit, Base.Assigned, Base.Counted, Ups, Rotate;
      SomeGood();
      MoveRequest(req);
      FirstInTurn(good, |leavers|);
    }

    lemma SomeGood()
      requires ServersFit() && goodNameservers > 0
      ensures Ups(servers) != [] && Next() == Ups(servers)[0]
    {
    }

    /**
     * The inner loop of nameserver_failed: requests of one bucket that have not gone out leave the server, and
     * take the good servers in turn.
     */
    method LeaveServer(ns: Nameserver, bucket: seq<Request>)
      requires ServersFit() && Assigned() && Counted()
      requires ns in known && !ns.up && goodNameservers > 0
      requires NoRepeat(bucket) && forall r :: r in bucket ==> r in inflight
      modifies this`servers, inflight`ns, known`requestsInflight
      ensures ServersFit() && Assigned() && Counted()
      ensures forall r :: r in inflight ==> StaysOrLeaves(r, ns)
      ensures forall r :: r in bucket && r.txCount == 0 ==> r.ns != ns
      ensures Spread(Only(bucket, old(Unsent(ns))), old(Ups(servers)))
      ensures forall r :: r in inflight && !(r in bucket && r in old(Unsent(ns))) ==> r.ns == old(r.ns)
    {
      hide Base.ServersFit, Base.Assigned, Base.Counted, Base.Spread, Ups, Only, NoRepeat;
      ghost var unsent, good := Unsent(ns), Ups(servers);
      NothingSpread(good, unsent);
      for i := 0 to |bucket|
        invariant ServersFit() && Assigned() && Counted()
        invariant forall r :: r in inflight ==> StaysOrLeaves(r, ns)
        invariant forall k :: 0 <= k < i && bucket[k].txCount == 0 ==> bucket[k].ns != ns
        invariant Spread(Only(bucket[..i], unsent), good)
        invariant forall r :: r in inflight && !(r in bucket[..i] && r in unsent) ==> r.ns == old(r.ns)
      {
        OnlyMore(bucket, i, unsent);
        NotAgain(bucket, i);
        assert bucket[i] in unsent <==> bucket[i].txCount == 0 && bucket[i].ns == ns;
        if bucket[i].txCount == 0 && bucket[i].ns == ns {
          OnlyHas(bucket[..i], unsent, bucket[i]);
          LeaveOne(bucket[i], Only(bucket[..i], unsent), good);
        } else {
          assert Only(bucket[..i + 1], unsent) == Only(bucket[..i], unsent) + [] == Only(bucket[..i], unsent);
        }
      }
      assert bucket[..|bucket|] == bucket;
    }

    lemma NothingSpread(good: seq<Nameserver>, unsent: set<Request>)
      requires ServersFit() && goodNameservers > 0 && good == Ups(servers)
      ensures Spread(Only([], unsent), good)
    {
    }

    lemma NotAgain(list: seq<Request>, i: nat)
      requires i < |list| && NoRepeat(list)
      ensures list[i] !in list[..i] && list[..i + 1] == list[..i] + [list[i]]
    {
    }

    /** A server's state changes, and the count of good servers with it. */
    method SetState(ns: Nameserver, up: bool)
      requires ServersFit() && ns in known && ns.up != up
      modifies this`goodNameservers, ns`up
      ensures ServersFit() && ns.up == up
      ensures 0 <= goodNameservers == old(goodNameservers) + if up then 1 else -1
      ensures !up ==> Ups(servers) == Without(old(Ups(servers)), ns)
    {
      hide Ups, Without;
      ghost var i :| 0 <= i < |servers| && servers[i] == ns;
      UpsAround(servers, i);
      ghost var front, back := Ups(servers[..i]), Ups(servers[i + 1..]);
      FrontMembers(servers, i);
      WithoutMiddle(front, ns, back);
      ns.up := up;
      goodNameservers := goodNameservers + if up then 1 else -1;
      assert servers[i].up == up;
      UpsAround(servers, i);
    }

    lemma FrontMembers(servers: seq<Nameserver>, i: nat)
      requires i < |servers| && NoRepeat(servers)
      ensures servers[i] !in Ups(servers[..i])
    {
      UpsMembers(servers[..i]);
    }

    /** How many other servers are good. */
    ghost function GoodBeside(ns: Nameserver): int
      reads this`goodNameservers, ns`up
    {
      goodNameservers - if ns.up then 1 else 0
    }

    /** The requests that leave a server when it fails, in the order in which they are met. */
    ghost function Leavers(ns: Nameserver): seq<Request>
      reads this`heads, this`inflight, inflight`ns, inflight`txCount
    {
      Only(Flatten(heads), Unsent(ns))
    }

    /** The loops of nameserver_failed: nothing that has not been sent yet stays with a server that is down. */
    method LeaveServerAll(ns: Nameserver)
      requires ServersFit() && Assigned() && Counted() && Hashed()
      requires ns in known && !ns.up && goodNameservers > 0
      modifies this`servers, inflight`ns, known`requestsInflight
      ensures ServersFit() && Assigned() && Counted() && Hashed()
      ensures forall r :: r in inflight ==> StaysOrLeaves(r, ns)
      ensures forall b, r :: 0 <= b < |heads| && r in heads[b] && r.txCount == 0 ==> r.ns != ns
      ensures Spread(old(Leavers(ns)), old(Ups(servers)))
      ensures forall r :: r in inflight && r !in old(Unsent(ns)) ==> r.ns == old(r.ns)
    {
      hide Base.ServersFit, Base.Assigned, Base.Counted, Base.Hashed, Base.Spread, Ups, Only, Flatten;
      ghost var unsent, good := Unsent(ns), Ups(servers);
      NothingSpread(good, unsent);
      NothingFlat();
      BucketsAreLists();
      for i := 0 to |heads|
        invariant ServersFit() && Assigned() && Counted() && Hashed()
        invariant forall r :: r in inflight ==> StaysOrLeaves(r, ns)
        invariant forall b, r :: 0 <= b < i && r in heads[b] && r.txCount == 0 ==> r.ns != ns
        invariant Spread(Only(Flatten(heads[..i]), unsent), good)
        invariant forall r :: r in inflight && !(r in Flatten(heads[..i]) && r in unsent) ==> r.ns == old(r.ns)
      {
        label Before:
        ghost var before := Only(Flatten(heads[..i]), unsent);
        SpreadMeans(before, good);
        forall k | 0 <= k < |before| ensures before[k] in inflight && before[k] !in heads[i] {
          BeforeFlies(i, unsent, before[k]);
        }
        BucketsApart(i);
        OnlySame(heads[i], unsent, Unsent(ns));
        LeaveServer(ns, heads[i]);
        forall b, r | 0 <= b < i + 1 && r in heads[b] && r.txCount == 0 ensures r.ns != ns {
          assert r in inflight;
          assert StaysOrLeaves@Before(r, ns);
          if b < i {
            assert r in heads[b] && old@Before(r.ns) != ns;
          }
        }
        FlattenMore(heads, i);
        OnlyOfBoth(Flatten(heads[..i]), heads[i], unsent);
        SpreadMore(before, Only(heads[i], unsent), good);
      }
      assert heads[..|heads|] == heads;
    }

    lemma NothingFlat()
      ensures Flatten(heads[..0]) == []
    {
    }

    lemma BucketsAreLists()
      requires Hashed()
      ensures forall b :: 0 <= b < |heads| ==> NoRepeat(heads[b])
      ensures forall b, r :: 0 <= b < |heads| && r in heads[b] ==> r in inflight
    {
    }

    /** What is in one bucket is not in those before it. */
    lemma BucketsApart(i: nat)
      requires Hashed() && i < |heads|
      ensures forall r :: r in heads[i] ==> r !in Flatten(heads[..i])
    {
      forall r | r in heads[i] ensures r !in Flatten(heads[..i]) {
        NotEarlier(r, i, i);
      }
    }

    lemma {:induction false} NotEarlier(r: Request, i: nat, b: nat)
      requires Hashed() && b <= i < |heads| && r in heads[i]
      ensures r !in Flatten(heads[..b])
      decreases b
    {
      if b > 0 {
        NotEarlier(r, i, b - 1);
        FlattenMore(heads, b - 1);
        assert r.transId % |heads| == i;
      }
    }

    lemma SpreadMore(before: seq<Request>, more: seq<Request>, good: seq<Nameserver>)
      requires good != [] && Spread(more, Turned(good, |before|))
      requires forall k :: 0 <= k < |before| ==> before[k].ns == InTurn(good, k)
      ensures Spread(before + more, good)
    {
      hide Ups, Turned, InTurn, Spread;
      var turned := Turned(good, |before|);
      TurnedTwice(good, |before|, |more|);
      SpreadMeans(more, turned);
      forall k | 0 <= k < |more| ensures more[k].ns == InTurn(good, |before| + k) {
        LaterInTurn(good, |before|, k);
      }
      SpreadIs(before, more, good);
    }

    lemma SpreadIs(before: seq<Request>, more: seq<Request>, good: seq<Nameserver>)
      requires good != [] && Ups(servers) == Turned(good, |before| + |more|)
      requires forall k :: 0 <= k < |before| ==> before[k].ns == InTurn(good, k)
      requires forall k :: 0 <= k < |more| ==> more[k].ns == InTurn(good, |before| + k)
      ensures Spread(before + more, good)
    {
      hide Ups, Turned, InTurn;
      var all := before + more;
      forall k | 0 <= k < |all| ensures all[k].ns == InTurn(good, k) {
        if k >= |before| {
          assert all[k] == more[k - |before|];
        }
      }
    }

    lemma SpreadMeans(leavers: seq<Request>, good: seq<Nameserver>)
      requires Spread(leavers, good)
      ensures good != [] && Ups(servers) == Turned(good, |leavers|)
      ensures forall k :: 0 <= k < |leavers| ==> leavers[k].ns == InTurn(good, k)
    {
    }

    lemma BeforeFlies(i: nat, unsent: set<Request>, r: Request)
      requires Hashed() && i < |heads| && r in Only(Flatten(heads[..i]), unsent)
      ensures r in inflight && r in unsent && r !in heads[i]
    {
      OnlyHas(Flatten(heads[..i]), unsent, r);
      FlatFlies(r, i);
      if r in heads[i] {
        NotEarlier(r, i, i);
      }
    }

    lemma {:induction false} FlatFlies(r: Request, b: nat)
      requires Hashed() && b <= |heads| && r in Flatten(heads[..b])
      ensures r in inflight
      decreases b
    {
      if b > 0 {
        FlattenMore(heads, b - 1);
        if r !in heads[b - 1] {
          FlatFlies(r, b - 1);
        }
      }
    }

    /**
     * nameserver_failed: a server is taken for dead. While another one is good, no request that has not been
     * sent yet stays with it: in the order of the buckets they take the other good servers in turn.
     */
    method NameserverFailed(ns: Nameserver)
      requires Valid() && ns in known
      modifies this`servers, this`goodNameservers, ns`up, ns`failedTimes, inflight`ns, known`requestsInflight
      ensures Valid() && !ns.up
      ensures ns.failedTimes == if old(ns.up) then 1 else old(ns.failedTimes)
      ensures !old(ns.up) ==> servers == old(servers) && forall r :: r in inflight ==> r.ns == old(r.ns)
      ensures forall r :: r in inflight ==> StaysOrLeaves(r, ns)
      ensures old(ns.up) && goodNameservers > 0 ==>
                forall b, r :: 0 <= b < |heads| && r in heads[b] && r.txCount == 0 ==> r.ns != ns
      ensures goodNameservers == old(GoodBeside(ns))
      ensures old(ns.up) && goodNameservers > 0 ==>
                && Spread(old(Leavers(ns)), old(Without(Ups(servers), ns)))
                && forall r :: r in inflight && r !in old(Unsent(ns)) ==> r.ns == old(r.ns)
      ensures goodNameservers == 0 ==> servers == old(servers) && forall r :: r in inflight ==> r.ns == old(r.ns)
    {
      hide Base.ServersFit, Base.Assigned, Base.Counted, Base.Hashed, Base.Spread, Ups, Without, Only, Flatten;
      if !ns.up { return; }
      SetState(ns, false);
      ns.failedTimes := 1;
      if goodNameservers == 0 { return; }
      LeaveServerAll(ns);
    }

    // ----- Buckets -----

    /** request_find_from_trans_id: a request in flight with this id, if there is any. */
    method Find(transId: u16) returns (found: Request?)
      requires Hashed()
      ensures found != null ==> found in inflight && found.transId == transId
      ensures found == null ==> forall r :: r in inflight ==> r.transId != transId
    {
      var bucket := heads[transId % |heads|];
      for i := 0 to |bucket|
        invariant forall k :: 0 <= k < i ==> bucket[k].transId != transId
      {
        if bucket[i].transId == transId { return bucket[i]; }
      }
      return null;
    }

    /** evdns_request_insert into the bucket of the request's id. */
    method EnterBucket(req: Request)
      requires Hashed() && req !in inflight && req.transId != NO_ID
      modifies this`heads, this`inflight
      ensures Hashed() && inflight == old(inflight) + {req} && heads == Entered(old(heads), req)
    {
      var b := req.transId % |heads|;
      EnterHashed(heads, inflight, req);
      heads := heads[b := heads[b] + [req]];
      inflight := inflight + {req};
    }

    /** evdns_request_remove from the bucket of the request's id. */
    method LeaveBucket(req: Request)
      requires Hashed() && req in inflight
      modifies this`heads, this`inflight
      ensures Hashed() && inflight == old(inflight) - {req} && heads == Left(old(heads), req)
    {
      var b := req.transId % |heads|;
      LeaveHashed(heads, inflight, req);
      heads := heads[b := Without(heads[b], req)];
      inflight := inflight - {req};
    }

    // ----- Sending -----

    /** The servers that are taken for dead. */
    ghost function Down(): set<Nameserver>
      reads this`known, known`up
    {
      set s | s in known && !s.up
    }

    /** The servers whose sockets take nothing at the moment. */
    ghost function Choked(): set<Nameserver>
      reads this`known, known`choked
    {
      set s | s in known && s.choked
    }

    /** A request leaves its server only unsent, when that goes down now, and for one that was not down before. */
    twostate predicate StaysOrMoves(r: Request)
      reads this`known, known`up, r`ns, r`txCount
    {
      && r.txCount >= old(r.txCount)
      && (|| r.ns == old(r.ns)
          || (old(r.txCount) == 0 && old({r.ns}) <= Down() && old({r.ns} !! Down()) && {r.ns} !! old(Down())))
    }

    /**
     * evdns_request_transmit_to, when the socket answers so, and what its caller makes of that for the server:
     * one that cannot be reached has failed, one that is choked is not tried.
     */
    method TransmitTo(ns: Nameserver, answer: SendAnswer) returns (r: int)
      requires Valid() && ns in known
      modifies this`servers, this`goodNameservers, ns`up, ns`failedTimes, ns`choked
      modifies inflight`ns, known`requestsInflight
      ensures Valid() && old(Down()) <= Down() && old(Choked()) <= Choked()
      ensures r == if old(ns.choked) || answer.Later? then 1 else if answer.Gone? then 0 else 2
      ensures ns.choked == (old(ns.choked) || answer.Later?)
      ensures r == 2 ==> ns in Down()
      ensures r == 1 ==> ns in Choked() && forall q :: q in inflight ==> q.ns == old(q.ns)
      ensures r == 1 ==> Down() == old(Down()) && goodNameservers == old(goodNameservers)
      ensures forall q :: q in inflight ==> StaysOrMoves(q)
      ensures Down() == old(Down()) ==> servers == old(servers)
    {
      hide Base.Valid;
      r := if ns.choked || answer.Later? then 1 else if answer.Gone? then 0 else 2;
      if r == 1 {
        ns.choked := true;
      } else if r == 2 {
        NameserverFailed(ns);
      }
    }

    /** Whether the server of a request is known to take nothing at the moment. */
    function Held(req: Request): bool
      reads req`ns, req.ns
    {
      req.ns != null && req.ns.choked
    }

    /**
     * evdns_request_transmit: one attempt to send. Afterwards the request is marked to be sent exactly when
     * it could not be tried or has to be tried again.
     */
    method Transmit(req: Request, answer: SendAnswer) returns (r: int)
      requires Valid() && req in inflight
      modifies this`servers, this`goodNameservers, known`up, known`failedTimes, known`choked
      modifies inflight`ns, known`requestsInflight, req`transmitMe, req`txCount
      ensures Valid() && old(Down()) <= Down() && old(Choked()) <= Choked()
      ensures r == if old(Held(req)) || answer.Later? then 1 else if answer.Gone? then 0 else 2
      ensures req.transmitMe == (r == 1) && req.txCount == old(req.txCount) + if r == 1 then 0 else 1
      ensures r == 1 ==> req.ns == old(req.ns) && {req.ns} <= Choked()
      ensures r == 1 ==> Down() == old(Down()) && goodNameservers == old(goodNameservers)
      ensures r == 2 ==> old({req.ns}) <= Down()
      ensures forall q :: q in inflight ==> StaysOrMoves(q)
      ensures Down() == old(Down()) ==> servers == old(servers)
    {
      hide Base.Valid, Base.Down, Base.Choked;
      ServerIsKnown(req);
      assert req.transId != NO_ID;
      r := TransmitTo(req.ns, answer);
      req.transmitMe := r == 1;
      if r != 1 {
        req.txCount := req.txCount + 1;
      }
    }

    /** The requests in flight that are marked to be sent. */
    ghost function Marked(): set<Request>
      reads this`inflight, inflight`transmitMe
    {
      set r | r in inflight && r.transmitMe
    }

    /** A request that is still marked has not been sent: its server is choked, unless it has just got that. */
    ghost predicate Waits(r: Request, txCount: nat, ns: Nameserver?)
      reads this`known, known`choked, r`ns, r`txCount
    {
      r.txCount == txCount && (r.ns == ns ==> {r.ns} <= Choked())
    }

    /** What an attempt leaves behind. */
    twostate predicate Attempted(r: Request)
      reads this`known, known`choked, r`ns, r`txCount, r`transmitMe
    {
      if r.transmitMe then Waits(r, old(r.txCount), old(r.ns)) else r.txCount == old(r.txCount) + 1
    }

    /**
     * A request in flight goes on: it is sent at most once more, and only if it was marked, and then it is not any
     * longer. It stays at its server or leaves it as above.
     */
    twostate predicate GoesOn(r: Request)
      reads this`known, known`up, r`ns, r`txCount, r`transmitMe
    {
      Onward(old(StandingOf(r)), StandingOf(r), old(Down()), Down())
    }

    /**
     * A request that was given this server has been sent once, or is still marked and the server takes nothing.
     * It has left the server only if that went down at once.
     */
    twostate predicate SentTo(r: Request, ns: Nameserver)
      reads this`known, known`up, known`choked, r`ns, r`txCount, r`transmitMe
    {
      Sent(old(StandingOf(r)), ns, StandingOf(r), old(Down()), Down(), Choked())
    }

    /** The server is the request's, and takes nothing while the request is still marked. */
    ghost predicate GoesTo(r: Request, ns: Nameserver)
      reads this`known, known`choked, r`ns, r`transmitMe
    {
      r.ns == ns && (r.transmitMe ==> {ns} <= Choked())
    }

    /** No request that waits could go into flight. */
    predicate Pumped()
      reads this`requestsInflight, this`maxRequestsInflight, this`waiting, this`servers
    {
      requestsInflight >= maxRequestsInflight || waiting == [] || servers == []
    }

    /** A server that was down is not taken for a request while another one is good. */
    twostate predicate FindsGood(r: Request)
      reads this`known, known`up, r`ns
    {
      known <= Down() || {r.ns} !! old(Down())
    }

    /** Either still to be tried, or tried once. */
    twostate predicate OnceAtMost(r: Request)
      reads r`txCount, r`transmitMe
    {
      r.txCount == old(r.txCount) + if r.transmitMe then 0 else 1
    }

    /** One more attempt, for a request that is marked. */
    method TransmitMarked(req: Request)
      requires Valid() && req in inflight && req.transmitMe
      modifies this`servers, this`goodNameservers, known`up, known`failedTimes, known`choked
      modifies inflight`ns, known`requestsInflight, req`transmitMe, req`txCount
      ensures Valid() && old(Down()) <= Down() && old(Choked()) <= Choked() && Marked() <= old(Marked())
      ensures Attempted(req) && forall q :: q in inflight ==> StaysOrMoves(q)
      ensures Down() == old(Down()) ==> servers == old(servers)
    {
      hide Base.Valid, Base.Down, Base.Choked;
      var answer: SendAnswer := *;
      var _ := Transmit(req, answer);
    }

    /** The inner loop of evdns_transmit. */
    method TransmitBucket(bucket: seq<Request>) returns (tried: bool)
      requires Valid()
      requires forall r :: r in bucket ==> r in inflight
      modifies this`servers, this`goodNameservers, known`up, known`failedTimes, known`choked
      modifies inflight`ns, known`requestsInflight, inflight`transmitMe, inflight`txCount
      ensures Valid() && old(Down()) <= Down() && old(Choked()) <= Choked() && Marked() <= old(Marked())
      ensures forall r :: r in inflight ==> StaysOrMoves(r)
      ensures forall r :: r in old(Marked()) ==> OnceAtMost(r)
      ensures forall r :: r in bucket && r in old(Marked()) ==> Attempted(r)
      ensures forall r :: r in inflight && r !in old(Marked()) ==> r.txCount == old(r.txCount)
      ensures Down() == old(Down()) ==> servers == old(servers)
      ensures tried <==> exists r :: r in bucket && r in old(Marked())
      ensures !tried ==> Marked() == old(Marked())
    {
      hide Base.Valid, Base.Down, Base.Choked;
      ghost var marked, down, choked := Marked(), Down(), Choked();
      tried := false;
      for i := 0 to |bucket|
        invariant Valid() && down <= Down() && choked <= Choked() && Marked() <= marked
        invariant tried <==> exists k :: 0 <= k < i && bucket[k] in marked
        invariant !tried ==> Marked() == marked
        invariant Down() == down ==> servers == old(servers)
        invariant forall r :: r in inflight ==> StaysOrMoves(r)
        invariant forall r :: r in marked ==> OnceAtMost(r)
        invariant forall k :: 0 <= k < i && bucket[k] in marked ==> Attempted(bucket[k])
        invariant forall r :: r in inflight && r !in marked ==> r.txCount == old(r.txCount)
      {
        if bucket[i].transmitMe {
          tried := true;
          TransmitMarked(bucket[i]);
        }
      }
    }

    /** evdns_transmit: every request in flight that is marked gets an attempt, and no other. */
    method TransmitAll() returns (tried: bool)
      requires Valid()
      modifies this`servers, this`goodNameservers, known`up, known`failedTimes, known`choked
      modifies inflight`ns, known`requestsInflight, inflight`transmitMe, inflight`txCount
      ensures Valid() && old(Down()) <= Down() && old(Choked()) <= Choked() && Marked() <= old(Marked())
      ensures forall r :: r in inflight ==> StaysOrMoves(r)
      ensures forall r :: r in old(Marked()) ==> Attempted(r)
      ensures forall r :: r in inflight && r !in old(Marked()) ==> r.txCount == old(r.txCount)
      ensures Down() == old(Down()) ==> servers == old(servers)
      ensures tried <==> old(Marked()) != {}
    {
      hide Base.Line, Ups, Rotate, Turned;
      hide Base.Valid, Base.Down, Base.Choked;
      BucketsFly();
      ghost var marked, down, choked := Marked(), Down(), Choked();
      tried := false;
      for b := 0 to |heads|
        invariant Valid() && down <= Down() && choked <= Choked() && Marked() <= marked
        invariant Down() == down ==> servers == old(servers)
        invariant forall r :: r in inflight ==> StaysOrMoves(r)
        invariant forall r :: r in marked ==> OnceAtMost(r)
        invariant forall c, r :: 0 <= c < b && r in heads[c] && r in marked ==> Attempted(r)
        invariant forall r :: r in inflight && r !in marked ==> r.txCount == old(r.txCount)
        invariant !tried ==> Marked() == marked && forall c, r :: 0 <= c < b && r in heads[c] ==> r !in marked
        invariant tried ==> marked != {}
      {
        label Before:
        var some := TransmitBucket(heads[b]);
        forall r | r in marked ensures OnceAtMost(r) {
          if r in old@Before(Marked()) {
            assert OnceAtMost@Before(r);
          } else {
            assert r !in Marked();
          }
        }
        tried := tried || some;
      }
      forall r | r in marked ensures Attempted(r) && tried {
        ghost var b :| 0 <= b < |heads| && r in heads[b];
      }
    }

    lemma BucketsFly()
      requires Valid()
      ensures forall b, r :: 0 <= b < |heads| && r in heads[b] ==> r in inflight
      ensures forall r :: r in inflight ==> exists b :: 0 <= b < |heads| && r in heads[b]
    {
    }

    // ----- Moving requests -----

    /**
     * transaction_id_pick: ids are drawn until one is met that is not 0xffff and that no request in flight has.
     * An id that has been drawn in vain is not drawn again here; in the source that only delays the end.
     */
    method PickId() returns (transId: u16)
      requires Hashed() && |inflight| < NO_ID
      ensures transId != NO_ID
      ensures forall r :: r in inflight ==> r.transId != transId
    {
      ghost var free := FreeId(inflight);
      var drawn: set<u16> := {};
      while true
        invariant free !in drawn
        decreases 0x1_0000 - |drawn|
      {
        transId :| transId !in drawn;
        drawn := drawn + {transId};
        AtMostAllIds(drawn, 0x1_0000);
        if transId != NO_ID {
          var found := Find(transId);
          if found == null { return; }
        }
      }
    }

    lemma FreeId(taken: set<Request>) returns (id: u16)
      requires |taken| < NO_ID
      ensures id != NO_ID && forall r :: r in taken ==> r.transId != id
    {
      IdsAreFew(taken);
      id := LeastMissing(Ids(taken), NO_ID);
      assert forall r :: r in taken ==> (r.transId as int) in Ids(taken);
    }

    /** One request more in flight: its server's load and the count go up. */
    method CountIn(req: Request, ghost flying: set<Request>)
      requires Counts(flying) && req !in flying && req.ns != null && req.ns in known
      modifies this`requestsInflight, req.ns`requestsInflight
      ensures Counts(flying + {req})
    {
      hide Load;
      forall s: Nameserver | s in known
        ensures Load(flying + {req}, s) == Load(flying, s) + if req.ns == s then 1 else 0
      {
        LoadOfOneMore(flying, req, s);
      }
      requestsInflight := requestsInflight + 1;
      req.ns.requestsInflight := req.ns.requestsInflight + 1;
    }

    method CountOut(req: Request, ghost flying: set<Request>)
      requires Counts(flying) && req in flying && req.ns != null && req.ns in known
      modifies this`requestsInflight, req.ns`requestsInflight
      ensures Counts(flying - {req})
    {
      hide Load;
      ghost var rest := flying - {req};
      assert flying == rest + {req};
      forall s: Nameserver | s in known
        ensures Load(flying, s) == Load(rest, s) + if req.ns == s then 1 else 0
      {
        LoadOfOneMore(rest, req, s);
      }
      requestsInflight := requestsInflight - 1;
      req.ns.requestsInflight := req.ns.requestsInflight - 1;
    }

    /** A request that is in no list enters a bucket, and is counted. */
    method Launch(req: Request)
      requires Valid() && req !in inflight && req !in waiting
      requires req.ns != null && req.ns in known && req in requests && req.transId != NO_ID
      modifies this`heads, this`inflight, this`requestsInflight, req.ns`requestsInflight
      ensures Valid() && inflight == old(inflight) + {req} && heads == Entered(old(heads), req)
    {
      hide Base.ServersFit, Base.Counts, Base.Hashed;
      ghost var flying := inflight;
      EnterBucket(req);
      CountIn(req, flying);
    }

    /** The reverse, when a request is finished. */
    method Retire(req: Request)
      requires Valid() && req in inflight
      modifies this`heads, this`inflight, this`requestsInflight, known`requestsInflight
      ensures Valid() && inflight == old(inflight) - {req} && heads == Left(old(heads), req)
    {
      hide Base.ServersFit, Base.Counts, Base.Hashed;
      ghost var flying := inflight;
      LeaveBucket(req);
      CountOut(req, flying);
    }

    /** evdns_request_remove of the first waiting request. */
    method TakeWaiting() returns (req: Request)
      requires Valid() && waiting != []
      modifies this`waiting, this`requestsWaiting
      ensures Valid() && waiting == old(waiting)[1..] && req == old(waiting)[0]
      ensures req !in inflight && req !in waiting && req in requests && req.ns == null
    {
      hide Base.ServersFit, Base.Counts, Base.Hashed;
      req := waiting[0];
      assert forall r :: r in waiting[1..] ==> r in waiting;
      waiting := waiting[1..];
      requestsWaiting := requestsWaiting - 1;
    }

    lemma InflightIsOwned()
      requires Valid()
      ensures inflight <= requests
      ensures forall r :: r in waiting ==> r in requests
      ensures |waiting| == requestsWaiting && |inflight| == requestsInflight
      ensures maxRequestsInflight < NO_ID
    {
    }

    /** One turn of the pump: the first waiting request gets this server and an id, and is sent. */
    method Promote(ns: Nameserver, ghost head: Request)
      requires Valid() && waiting != [] && head == waiting[0] && ns in known && |inflight| < NO_ID
      modifies this`servers, this`goodNameservers, this`heads, this`inflight, this`waiting
      modifies this`requestsInflight, this`requestsWaiting
      modifies inflight`ns, inflight`transmitMe, inflight`txCount
      modifies head`ns, head`transId, head`transmitMe, head`txCount
      modifies known`up, known`failedTimes, known`choked, known`requestsInflight
      ensures Valid() && waiting == old(waiting)[1..] && inflight == old(inflight) + {old(waiting)[0]}
      ensures old(Down()) <= Down() && old(Choked()) <= Choked()
      ensures requestsInflight == old(requestsInflight) + 1
      ensures Down() == old(Down()) ==> servers == old(servers)
      ensures SentTo(old(waiting)[0], ns)
      ensures forall r :: r in old(inflight) ==> GoesOn(r)
    {
      hide Base.Valid, Base.Down, Base.Choked, Onward, Sent, StandingOf, Entered, NoRepeat, HashedBy;
      ListsAreApart(head);
      ghost var was, down := StandingOf(head), Down();
      var req := Lift(ns, head);
      label Lifted:
      ghost var now := StandingOf(req);
      assert now == was.(ns := ns) && Down() == down;
      SendAll(req);
      GivenServer(was, ns, StandingOf(req), down, Down(), Choked());
      forall r | r in old(inflight) ensures GoesOn(r) {
        assert GoesOn@Lifted(r) && r in old@Lifted(inflight);
      }
    }

    lemma WaitingIsApart()
      requires Valid()
      ensures forall r :: r in waiting ==> r !in inflight
      ensures waiting != [] ==> waiting[0] !in waiting[1..]
    {
    }

    /** The part of it that moves the request. */
    method Lift(ns: Nameserver, ghost head: Request) returns (req: Request)
      requires Valid() && waiting != [] && head == waiting[0] && ns in known && |inflight| < NO_ID
      modifies this`heads, this`inflight, this`waiting, this`requestsInflight, this`requestsWaiting
      modifies head`ns, head`transId, known`requestsInflight
      ensures Valid() && waiting == old(waiting)[1..] && inflight == old(inflight) + {req}
      ensures heads == Entered(old(heads), req)
      ensures req == old(waiting)[0] && requestsInflight == old(requestsInflight) + 1
      ensures req.ns == ns && StandingOf(req) == old(StandingOf(head)).(ns := ns)
      ensures forall r :: r in old(inflight) ==> StandingOf(r) == old(StandingOf(r))
    {
      hide Base.Valid, Base.Down;
      InflightIsOwned();
      req := TakeWaiting();
      Assign(req, ns);
      Launch(req);
      InflightIsOwned();
    }

    /** The part of it that sends: this request first, then everything that is marked. */
    method SendAll(req: Request)
      requires Valid() && req in inflight
      modifies this`servers, this`goodNameservers, known`up, known`failedTimes, known`choked
      modifies inflight`ns, known`requestsInflight, inflight`transmitMe, inflight`txCount
      ensures Valid() && old(Down()) <= Down() && old(Choked()) <= Choked()
      ensures Down() == old(Down()) ==> servers == old(servers)
      ensures req.ns != null && SentTo(req, old(req.ns))
      ensures forall r :: r in inflight && r != req ==> GoesOn(r)
    {
      hide Base.Valid, Base.Down, Base.Choked;
      ServerIsKnown(req);
      ghost var marked := Marked();
      var answer: SendAnswer := *;
      var r := Transmit(req, answer);
      label Sent:
      var _ := TransmitAll();
      ServerIsKnown(req);
      if r == 1 {
        assert Attempted@Sent(req);
      } else {
        assert req !in Marked();
      }
      forall q | q in inflight ensures StaysOrMoves(q) && (q != req ==> GoesOn(q)) {
        assert StaysOrMoves@Sent(q);
        if q in old@Sent(Marked()) {
          assert Attempted@Sent(q);
        } else {
          assert q !in Marked();
        }
      }
    }

    /** A request in no list gets a server and a fresh id. */
    method Assign(req: Request, ns: Nameserver)
      requires Valid() && req !in inflight && req !in waiting && |inflight| < NO_ID
      modifies req`ns, req`transId
      ensures Valid() && req.ns == ns && req.transId != NO_ID
      ensures forall r :: r in inflight ==> r.transId != req.transId
    {
      hide Base.ServersFit, Base.Counts, Base.Assigned, Base.Hashed;
      req.ns := ns;
      var id := PickId();
      req.transId := id;
    }

    /** nameserver_pick for a request that has no server yet: it gets the one whose turn it is. */
    method PickKnown() returns (ns: Nameserver?)
      requires Valid()
      modifies this`servers
      ensures Valid() && Line() == Rotate(old(Line()))
      ensures ns == old(Next()) && (ns == null <==> servers == [])
      ensures ns != null ==> ns in known && (ns.up <==> goodNameservers > 0)
    {
      hide Base.Counts, Base.Assigned, Base.Hashed, Ups, NoRepeat;
      UpsMembers(servers);
      ns := NameserverPick();
      UpsMembers(servers);
    }

    /** One turn of the pump, unless there is no server. */
    method PumpOne(ghost head: Request) returns (done: bool)
      requires Valid() && requestsInflight < maxRequestsInflight && requestsWaiting != 0
      requires waiting != [] && head == waiting[0]
      modifies this`servers, this`goodNameservers, this`heads, this`inflight, this`waiting
      modifies this`requestsInflight, this`requestsWaiting
      modifies inflight`ns, inflight`transmitMe, inflight`txCount
      modifies head`ns, head`transId, head`transmitMe, head`txCount
      modifies known`up, known`failedTimes, known`choked, known`requestsInflight
      ensures Valid() && old(Down()) <= Down()
      ensures done ==> servers == [] && waiting == old(waiting) && inflight == old(inflight) && unchanged(head)
      ensures done ==> requestsInflight == old(requestsInflight) && Down() == old(Down()) && Line() == old(Line())
      ensures !done ==> old(waiting) != [] && waiting == old(waiting)[1..]
      ensures !done ==> inflight == old(inflight) + {old(waiting)[0]}
      ensures !done ==> requestsInflight == old(requestsInflight) + 1
      ensures !done ==> old(Next()) != null && SentTo(old(waiting)[0], old(Next()))
      ensures !done ==> FindsGood(old(waiting)[0])
      ensures !done && Down() == old(Down()) ==> Line() == Rotate(old(Line()))
      ensures old(Choked()) <= Choked() && forall r :: r in old(inflight) ==> GoesOn(r)
    {
      hide Base.Valid, Base.Down, Base.Choked, Base.Line, Base.Next, Rotate;
      InflightIsOwned();
      LineIsThere();
      var ns := PickKnown();
      LineIsThere();
      if ns == null { return true; }
      NotDown(ns);
      GoodIff();
      label Picked:
      Promote(ns, head);
      done := false;
      assert SentTo@Picked(old(waiting)[0], ns);
      forall r | r in old(inflight) ensures GoesOn(r) {
        assert GoesOn@Picked(r);
      }
      if Down() == old(Down()) {
        SameLine@Picked();
      }
    }

    lemma GoodIff()
      requires Valid()
      ensures goodNameservers > 0 <==> !(known <= Down())
    {
      hide Base.Hashed, Base.Assigned, Base.Counted;
      if goodNameservers > 0 {
        FirstUp(servers);
        assert Ups(servers)[0] in known && Ups(servers)[0] !in Down();
      }
      if !(known <= Down()) {
        var s :| s in known && s !in Down();
        UpsMembers(servers);
        assert s in Ups(servers);
      }
    }

    /** The turns are the same as long as the list is and the same servers are down. */
    twostate lemma SameLine()
      requires old(Valid()) && Down() == old(Down()) && servers == old(servers) && known == old(known)
      ensures Line() == old(Line())
    {
      hide Base.Hashed, Base.Assigned, Base.Counted;
      forall s | s in servers ensures s.up == old(s.up) {
        assert s in Down() <==> s in old(Down());
      }
      SameUps(servers);
    }

    /**
     * evdns_requests_pump_waiting_queue: the requests that have waited longest go into flight, until the
     * limit is reached, none is left, or there is no server at all.
     */
    method Pump() returns (ghost moved: nat)
      requires Valid()
      modifies this`servers, this`goodNameservers, this`heads, this`inflight, this`waiting
      modifies this`requestsInflight, this`requestsWaiting
      modifies requests`ns, requests`transId, requests`transmitMe, requests`txCount
      modifies known`up, known`failedTimes, known`choked, known`requestsInflight
      ensures Valid() && old(Down()) <= Down() && moved <= |old(waiting)|
      ensures waiting == old(waiting)[moved..]
      ensures inflight == old(inflight) + Elements(old(waiting)[..moved])
      ensures Pumped()
      ensures moved > 0 ==> requestsInflight <= maxRequestsInflight
      ensures moved == 0 ==> Down() == old(Down())
      ensures moved > 0 ==> old(Line()) != []
      ensures forall k :: 0 <= k < moved ==> OnceAtMost(old(waiting)[k]) && FindsGood(old(waiting)[k])
      ensures Down() == old(Down()) ==>
                && Line() == Turned(old(Line()), moved)
                && forall k :: 0 <= k < moved ==> GoesTo(old(waiting)[k], InTurn(old(Line()), k))
      ensures forall r :: r in old(inflight) ==> GoesOn(r)
    {
      hide Base.Valid, Base.Down, Base.Choked, Base.Line, Base.Next, Base.PumpedTo, Elements, InTurn, Turned;
      hide Onward, StandingOf;
      moved := 0;
      NoElements(waiting);
      ghost var queue, flying, down, line, sent := waiting, inflight, Down(), Line(), SendCounts(waiting);
      NothingPumped();
      forall r | r in flying ensures GoesOn(r) {
        NothingYet(StandingOf(r), down);
      }
      var done := false;
      while !done && requestsInflight < maxRequestsInflight && requestsWaiting != 0
        invariant Valid() && down <= Down() && moved <= |queue| && waiting == queue[moved..]
        invariant inflight == flying + Elements(queue[..moved])
        invariant moved > 0 ==> requestsInflight <= maxRequestsInflight
        invariant done ==> servers == []
        invariant PumpedTo(queue, sent, down, line, moved)
        invariant forall r :: r in flying ==> r in inflight && GoesOn(r)
        decreases !done, |waiting|
      {
        label Turn:
        done := PumpStep(queue, sent, down, line, moved);
        forall r | r in flying ensures r in inflight && GoesOn(r) {
          assert GoesOn@Turn(r);
          OnwardTwice(old(StandingOf(r)), old@Turn(StandingOf(r)), StandingOf(r), down, old@Turn(Down()), Down());
        }
        if !done {
          OneElementMore(queue, moved);
          moved := moved + 1;
        }
      }
      InflightIsOwned();
      PumpedMeans(queue, sent, down, line, moved);
    }

    /** How often each request of the queue has been sent. */
    ghost function SendCounts(queue: seq<Request>): (sent: seq<int>)
      reads queue`txCount
      ensures |sent| == |queue| && forall k :: 0 <= k < |queue| ==> sent[k] == queue[k].txCount
    {
      if queue == [] then [] else [queue[0].txCount] + SendCounts(queue[1..])
    }

    /** A request that was moved: sent or to be sent, at a server that was not down, as its turn was. */
    ghost predicate Flown(r: Request, sent: int, down: set<Nameserver>, turn: Nameserver)
      reads this, known, r
    {
      r in inflight && InPlace(StandingOf(r), sent, down, turn, known, Down(), Choked())
    }

    /** The first requests of the queue have been moved. */
    ghost predicate PumpedTo(queue: seq<Request>, sent: seq<int>, down: set<Nameserver>, line: seq<Nameserver>, moved: nat)
      reads this, known, servers, queue
    {
      && moved <= |queue| == |sent| && waiting == queue[moved..]
      && (forall k :: moved <= k < |queue| ==> queue[k].txCount == sent[k])
      && (moved > 0 ==> line != [])
      && (forall k :: 0 <= k < moved ==> Flown(queue[k], sent[k], down, InTurn(line, k)))
      && (moved == 0 ==> Down() == down)
      && down <= Down()
      && (Down() == down ==> Line() == Turned(line, moved))
    }

    lemma NothingPumped()
      ensures PumpedTo(waiting, SendCounts(waiting), Down(), Line(), 0)
    {
      TurnedNever(Line());
    }

    lemma PumpedMeans(queue: seq<Request>, sent: seq<int>, down: set<Nameserver>, line: seq<Nameserver>, moved: nat)
      requires PumpedTo(queue, sent, down, line, moved)
      ensures down <= Down() && (moved > 0 ==> line != [])
      ensures moved == 0 ==> Down() == down
      ensures moved <= |queue| == |sent|
      ensures forall k :: 0 <= k < moved ==>
                && queue[k].txCount == sent[k] + (if queue[k].transmitMe then 0 else 1)
                && (known <= Down() || {queue[k].ns} !! down)
      ensures Down() == down ==> Line() == Turned(line, moved)
      ensures Down() == down ==> forall k :: 0 <= k < moved ==> GoesTo(queue[k], InTurn(line, k))
    {
    }

    /** One turn of the pump, seen from the beginning. */
    method PumpStep(ghost queue: seq<Request>, ghost sent: seq<int>, ghost down: set<Nameserver>,
                    ghost line: seq<Nameserver>, ghost moved: nat) returns (done: bool)
      requires Valid() && requestsInflight < maxRequestsInflight && requestsWaiting != 0
      requires PumpedTo(queue, sent, down, line, moved)
      modifies this`servers, this`goodNameservers, this`heads, this`inflight, this`waiting
      modifies this`requestsInflight, this`requestsWaiting
      modifies requests`ns, requests`transId, requests`transmitMe, requests`txCount
      modifies known`up, known`failedTimes, known`choked, known`requestsInflight
      ensures Valid() && old(Down()) <= Down()
      ensures done ==> servers == [] && waiting == old(waiting) && inflight == old(inflight)
      ensures done ==> requestsInflight == old(requestsInflight)
      ensures !done ==> old(waiting) != [] && waiting == old(waiting)[1..]
      ensures !done ==> inflight == old(inflight) + {old(waiting)[0]}
      ensures !done ==> requestsInflight == old(requestsInflight) + 1
      ensures PumpedTo(queue, sent, down, line, if done then moved else moved + 1)
      ensures forall r :: r in old(inflight) ==> GoesOn(r)
    {
      hide Base.Valid, Base.Down, Base.Choked, Base.Line, Base.Next, InTurn, Turned, Rotate, Onward, Sent, InPlace;
      InflightIsOwned();
      WaitingIsApart();
      NextInLine();
      TurnedMore(line, moved);
      if line != [] { FirstInTurn(line, moved); }
      assert waiting[0] == queue[moved] && waiting[0] in waiting;
      forall k | moved < k < |queue| ensures queue[k] !in inflight && queue[k] != waiting[0] {
        assert queue[k] == waiting[k - moved] == waiting[1..][k - moved - 1];
      }
      done := PumpOne(waiting[0]);
      forall k | 0 <= k < moved ensures Flown(queue[k], sent[k], down, InTurn(line, k)) {
        assert old(Flown(queue[k], sent[k], down, InTurn(line, k))) && GoesOn(queue[k]);
        StaysInPlace(old(StandingOf(queue[k])), StandingOf(queue[k]), sent[k], down, InTurn(line, k), known,
                     old(Down()), Down(), old(Choked()), Choked());
      }
      if !done {
        assert queue[moved..][1..] == queue[moved + 1..];
        SentInPlace(old(StandingOf(queue[moved])), StandingOf(queue[moved]), down, InTurn(line, moved), known,
                    old(Down()), old(Next()), Down(), Choked());
        assert Flown(queue[moved], sent[moved], down, InTurn(line, moved));
      }
    }

    // ----- The life of a request -----

    /**
     * request_new: while there is room in flight the request gets an id and a server at once. Building its
     * packet is not part of this.
     */
    method RequestNew() returns (req: Request)
      requires Valid()
      modifies this`servers
      ensures Valid() && fresh(req) && req.txCount == 0 && req.reissueCount == 0
      ensures requestsInflight >= maxRequestsInflight ==> req.ns == null && req.transId == NO_ID
      ensures requestsInflight < maxRequestsInflight ==>
                && req.transId != NO_ID
                && (forall r :: r in inflight ==> r.transId != req.transId)
                && req.ns == old(Next()) && Line() == Rotate(old(Line()))
                && if req.ns == null then servers == [] else req.ns in known && (req.ns.up <==> goodNameservers > 0)
      ensures requestsInflight >= maxRequestsInflight ==> servers == old(servers)
    {
      hide Base.ServersFit, Base.Assigned, Base.Line, Base.Next, Rotate;
      var id, ns := NO_ID, null;
      if requestsInflight < maxRequestsInflight {
        id := PickId();
        ns := PickKnown();
      }
      req := new Request(id, ns);
    }

    /** That many new requests one after another, while there is room: they get the servers in turn. */
    method NewInTurn(n: nat) returns (reqs: seq<Request>)
      requires Valid() && requestsInflight < maxRequestsInflight && servers != []
      modifies this`servers
      ensures Valid() && |reqs| == n
      ensures forall k :: 0 <= k < n ==> reqs[k].ns == InTurn(old(Line()), k)
    {
      hide Base.Valid, Base.Line, InTurn, Rotate, Turned;
      ghost var line := Line();
      LineIsThere();
      TurnedNever(line);
      reqs := [];
      for i := 0 to n
        invariant Valid() && |reqs| == i && line != []
        invariant Line() == Turned(line, i)
        invariant forall k :: 0 <= k < i ==> reqs[k].ns == InTurn(line, k)
      {
        FirstInTurn(line, i);
        NextInLine();
        var req := RequestNew();
        TurnedMore(line, i);
        reqs := reqs + [req];
      }
    }

    /** A request that is in no list joins the queue of those that wait. */
    method Enqueue(req: Request)
      requires Valid() && req !in inflight && req !in waiting && req.ns == null && req in requests
      modifies this`waiting, this`requestsWaiting
      ensures Valid() && waiting == old(waiting) + [req]
    {
      hide Base.ServersFit, Base.Counts, Base.Hashed;
      waiting := waiting + [req];
      requestsWaiting := requestsWaiting + 1;
    }

    /** The part of request_submit that puts the request into a list. */
    method Enlist(req: Request)
      requires Valid() && req !in requests
      requires req.ns != null ==> req.ns in known && req.transId != NO_ID
      modifies this`heads, this`inflight, this`waiting, this`requests
      modifies this`requestsInflight, this`requestsWaiting, known`requestsInflight
      ensures Valid() && requests == old(requests) + {req}
      ensures heads == if req.ns != null then Entered(old(heads), req) else old(heads)
      ensures inflight == old(inflight) + if req.ns != null then {req} else {}
      ensures waiting == old(waiting) + if req.ns != null then [] else [req]
    {
      hide Base.Valid, Base.Down;
      Own(req);
      if req.ns != null {
        Launch(req);
      } else {
        Enqueue(req);
      }
    }

    /** request_submit: a request with a server goes straight into flight and is sent, another one waits. */
    method Submit(req: Request)
      requires Valid() && req !in requests
      requires req.ns != null ==> req.ns in known && req.transId != NO_ID
      modifies this`servers, this`goodNameservers, this`heads, this`inflight, this`waiting, this`requests
      modifies this`requestsInflight, this`requestsWaiting
      modifies inflight`ns, req`ns, req`transmitMe, req`txCount
      modifies known`up, known`failedTimes, known`choked, known`requestsInflight
      ensures Valid() && old(Down()) <= Down() && requests == old(requests) + {req}
      ensures inflight == old(inflight) + if old(req.ns) != null then {req} else {}
      ensures waiting == old(waiting) + if old(req.ns) != null then [] else [req]
      ensures old(req.ns) != null ==> SentTo(req, old(req.ns)) && StaysOrMoves(req)
      ensures old(req.ns) == null ==> unchanged(req)
      ensures heads == if old(req.ns) != null then Entered(old(heads), req) else old(heads)
      ensures old(Held(req)) || (old(req.ns) != null && req.transmitMe) ==>
                && req.txCount == old(req.txCount) && req.ns == old(req.ns) && req.transmitMe
                && Down() == old(Down()) && goodNameservers == old(goodNameservers)
      ensures forall r :: r in old(inflight) ==> StaysOrMoves(r)
      ensures Down() == old(Down()) ==> servers == old(servers)
    {
      hide Base.Valid, Base.Down, Base.Choked;
      Enlist(req);
      if req.ns != null {
        label Listed:
        var answer: SendAnswer := *;
        var _ := Transmit(req, answer);
        assert StaysOrMoves@Listed(req);
        forall r | r in old(inflight) ensures StaysOrMoves(r) {
          assert StaysOrMoves@Listed(r);
        }
      }
    }

    ghost method Own(req: Request)
      requires Valid() && req !in requests
      modifies this`requests
      ensures Valid() && requests == old(requests) + {req}
      ensures req !in inflight && req !in waiting
    {
      hide Base.ServersFit, Base.Counts, Base.Hashed;
      requests := requests + {req};
    }

    /** A waiting request leaves the queue, wherever in it. */
    method Dequeue(req: Request)
      requires Valid() && req in waiting
      modifies this`waiting, this`requestsWaiting
      ensures Valid() && waiting == Without(old(waiting), req)
      ensures req !in waiting && req !in inflight && |waiting| < |old(waiting)|
    {
      hide Base.ServersFit, Base.Counts, Base.Hashed;
      WithoutIsShorter(waiting, req);
      waiting := Without(waiting, req);
      requestsWaiting := requestsWaiting - 1;
    }

    /** A request leaves the list it is in. */
    method Unlist(req: Request, wasInflight: bool)
      requires Valid()
      requires if wasInflight then req in inflight else req in waiting
      modifies this`heads, this`inflight, this`waiting
      modifies this`requestsInflight, this`requestsWaiting, known`requestsInflight
      ensures Valid() && inflight == old(inflight) - {req}
      ensures waiting == if wasInflight then old(waiting) else Without(old(waiting), req)
      ensures req !in waiting && heads == if wasInflight then Left(old(heads), req) else old(heads)
    {
      hide Base.Valid, Base.Down;
      ListsAreApart(req);
      if wasInflight {
        Retire(req);
      } else {
        Dequeue(req);
        assert inflight == inflight - {req};
      }
    }

    /**
     * request_finished: the request leaves the list it is in, and those that wait may move up into its place.
     */
    method Finished(req: Request, wasInflight: bool) returns (ghost moved: nat)
      requires Valid()
      requires if wasInflight then req in inflight else req in waiting
      modifies this`servers, this`goodNameservers, this`heads, this`inflight, this`waiting
      modifies this`requestsInflight, this`requestsWaiting
      modifies requests`ns, requests`transId, requests`transmitMe, requests`txCount
      modifies known`up, known`failedTimes, known`choked, known`requestsInflight
      ensures Valid() && old(Down()) <= Down() && Pumped()
      ensures var queue := if wasInflight then old(waiting) else Without(old(waiting), req);
              && req !in queue && moved <= |queue| && waiting == queue[moved..]
              && inflight == old(inflight) - {req} + Elements(queue[..moved])
              && (moved == 0 ==> Down() == old(Down()))
    {
      hide Base.Valid, Base.Down, Elements, Without;
      Unlist(req, wasInflight);
      moved := Pump();
    }

    lemma ListsAreApart(req: Request)
      requires Valid()
      ensures !(req in inflight && req in waiting)
    {
    }

    /** evdns_cancel_request. A request in no list is left alone; one with a server is in flight, others wait. */
    method Cancel(req: Request)
      requires Valid()
      modifies this`servers, this`goodNameservers, this`heads, this`inflight, this`waiting
      modifies this`requestsInflight, this`requestsWaiting
      modifies requests`ns, requests`transId, requests`transmitMe, requests`txCount
      modifies known`up, known`failedTimes, known`choked, known`requestsInflight
      ensures Valid() && old(Down()) <= Down()
      ensures req !in inflight && req !in waiting
      ensures old(req in inflight || req in waiting) ==> Pumped()
      ensures old(inflight) - {req} <= inflight
      ensures forall r :: r in old(waiting) && r != req ==> r in waiting || r in inflight
      ensures old(waiting) == [] ==> waiting == [] && Down() == old(Down())
    {
      hide Base.Valid, Base.Down, Without;
      var flying := IsFlying(req);
      if !flying && req !in waiting { return; }
      ghost var all, queue := waiting, if flying then waiting else Without(waiting, req);
      forall r | r in all && r != req ensures r in queue {
        if !flying { WaitingWithout(req, r); }
      }
      ghost var moved := Finished(req, flying);
      MovedElements(queue, moved, req);
    }

    lemma WaitingWithout(req: Request, r: Request)
      requires Valid() && req in waiting
      ensures r in Without(waiting, req) <==> r in waiting && r != req
    {
      InWithout(waiting, req, r);
    }

    /** A request is in its bucket exactly when it is in flight. */
    method IsFlying(req: Request) returns (flying: bool)
      requires Valid()
      ensures flying <==> req in inflight
    {
      flying := req in heads[req.transId % |heads|];
    }

    /** nameserver_up: a server is good again; the probe that was sent to it is not needed any more. */
    method NameserverUp(ns: Nameserver)
      requires Valid() && ns in known
      modifies this`servers, this`goodNameservers, this`heads, this`inflight, this`waiting
      modifies this`requestsInflight, this`requestsWaiting
      modifies requests`ns, requests`transId, requests`transmitMe, requests`txCount
      modifies known`up, known`failedTimes, known`choked, known`requestsInflight, ns`probe, ns`timedout
      ensures Valid() && ns.up && old(Down()) - {ns} <= Down()
      ensures old(inflight) - old(ProbeOf(ns)) <= inflight <= requests
      ensures old(ns.up) ==> inflight == old(inflight) && waiting == old(waiting) && unchanged(ns)
      ensures !old(ns.up) ==> Gone(old(ProbeOf(ns))) && ns.probe == null && ns.failedTimes == 0 && ns.timedout == 0
      ensures forall r :: r in old(waiting) && r !in old(ProbeOf(ns)) ==> r in waiting || r in inflight
      ensures old(waiting) == [] ==> waiting == [] && Down() == old(Down()) - {ns}
    {
      hide Base.Valid, Base.Down;
      NotDown(ns);
      if !ns.up {
        IsDown(ns);
        DropProbe(ns);
        Revive(ns);
      }
      InflightIsOwned();
    }

    /** None of these is in a list. */
    ghost predicate Gone(reqs: set<Request>)
      reads this`inflight, this`waiting
    {
      reqs !! inflight && forall r :: r in waiting ==> r !in reqs
    }

    method DropProbe(ns: Nameserver)
      requires Valid()
      modifies this`servers, this`goodNameservers, this`heads, this`inflight, this`waiting
      modifies this`requestsInflight, this`requestsWaiting
      modifies requests`ns, requests`transId, requests`transmitMe, requests`txCount
      modifies known`up, known`failedTimes, known`choked, known`requestsInflight, ns`probe
      ensures Valid() && old(Down()) <= Down()
      ensures old(inflight) - old(ProbeOf(ns)) <= inflight
      ensures ns.probe == null && Gone(old(ProbeOf(ns)))
      ensures forall r :: r in old(waiting) && r !in old(ProbeOf(ns)) ==> r in waiting || r in inflight
      ensures old(waiting) == [] ==> waiting == [] && Down() == old(Down())
    {
      hide Base.Valid, Base.Down;
      if ns.probe != null {
        Cancel(ns.probe);
        ns.probe := null;
      }
    }

    lemma IsDown(ns: Nameserver)
      requires ns in known && !ns.up
      ensures ns in Down()
    {
    }

    lemma IsGood(ns: Nameserver)
      requires ns in known && ns !in Down()
      ensures ns.up
    {
    }

    lemma NotDown(ns: Nameserver)
      ensures ns.up ==> Down() == Down() - {ns}
    {
    }

    method Revive(ns: Nameserver)
      requires Valid() && ns in Down()
      modifies this`goodNameservers, ns`up, ns`failedTimes, ns`timedout
      ensures Valid() && ns.up && ns.failedTimes == 0 && ns.timedout == 0 && Down() == old(Down()) - {ns}
    {
      hide Base.Hashed, Base.Assigned, Base.Counts;
      SetState(ns, true);
      ns.failedTimes, ns.timedout := 0, 0;
    }

    /** request_reissue: 1 when there is no other server to try. */
    method Reissue(req: Request) returns (r: int)
      requires Valid() && req in inflight
      modifies this`servers, req`ns, req`reissueCount, req`txCount, req`transmitMe, known`requestsInflight
      ensures Valid()
      ensures r == if req.ns == old(req.ns) then 1 else 0
      ensures r == 0 ==> req.txCount == 0 && req.transmitMe && req.reissueCount == old(req.reissueCount) + 1
      ensures r == 1 ==> unchanged(req)
      ensures goodNameservers > 0 ==> req.ns != null && req.ns.up
      ensures req.ns == old(Next())
    {
      hide Base.ServersFit, Base.Hashed, Base.Assigned, Base.Counts, Base.Next;
      var last := req.ns;
      MoveRequest(req);
      if req.ns == last { return 1; }
      req.reissueCount := req.reissueCount + 1;
      req.txCount := 0;
      req.transmitMe := true;
      return 0;
    }

    // ----- Configuration -----

    /** evdns_base_new: no servers, no requests. */
    constructor (maxInflight: int)
      requires maxInflight < NO_ID
      ensures Valid() && servers == [] && waiting == [] && inflight == {} && requests == {} && known == {}
      ensures maxRequestsInflight == AtLeast1(maxInflight) && goodNameservers == 0
      ensures maxRetransmits == 3 && maxReissues == 1 && maxNameserverTimeout == 3
    {
      heads := seq(HeadsFor(maxInflight), _ => []);
      waiting, servers := [], [];
      goodNameservers, requestsInflight, requestsWaiting := 0, 0, 0;
      maxRequestsInflight := AtLeast1(maxInflight);
      maxRetransmits, maxReissues, maxNameserverTimeout := 3, 1, 3;
      inflight, known, requests := {}, {}, {};
    }

    /** evdns_nameserver_add_impl_: a new server stands behind the one whose turn it is. */
    method AddNameserver() returns (ns: Nameserver)
      requires Valid()
      modifies this`servers, this`goodNameservers, this`known
      ensures Valid() && fresh(ns) && ns.up && known == old(known) + {ns}
      ensures servers == Inserted(old(servers), ns) && goodNameservers == old(goodNameservers) + 1
    {
      hide Base.Hashed, Load, Ups;
      ns := new Nameserver();
      Unassigned(ns);
      UpsInserted(servers, ns);
      servers := Inserted(servers, ns);
      known := known + {ns};
      goodNameservers := goodNameservers + 1;
    }

    lemma Unassigned(ns: Nameserver)
      requires Assigned() && ns !in known
      ensures Load(inflight, ns) == 0
    {
      assert Assignment(inflight, ns) == {};
    }

    /**
     * evdns_base_set_max_requests_inflight: a new table of buckets, into which all requests in flight move,
     * bucket by bucket and each bucket from its head on.
     */
    method SetMaxRequestsInflight(max: int)
      requires Valid() && max < NO_ID
      modifies this`heads, this`maxRequestsInflight
      ensures Valid() && |heads| == HeadsFor(max) && maxRequestsInflight == AtLeast1(max)
      ensures Total(heads) == old(Total(heads))
      ensures heads == AllEntered(seq(HeadsFor(max), _ => []), Flatten(old(heads)))
    {
      hide Base.ServersFit, Base.Assigned, Base.Counts, HashedBy, Total, AllEntered, Flatten;
      BucketsHoldAll(heads, inflight);
      var newHeads := Rehash(heads, HeadsFor(max), inflight);
      BucketsHoldAll(newHeads, inflight);
      heads := newHeads;
      maxRequestsInflight := AtLeast1(max);
    }

    /** The counters of the base are the sizes of its lists. */
    lemma CountersAreSizes()
      requires Valid()
      ensures requestsInflight == Total(heads) && requestsWaiting == |waiting|
    {
      BucketsHoldAll(heads, inflight);
    }

    // ----- Events -----

    /**
     * evdns_request_timeout_callback: after too many attempts the request is given up and its server is taken
     * for dead; otherwise it is sent again to the next server, which may be found dead too. A request that was
     * sent before stays there.
     */
    method TimedOut(req: Request)
      requires Valid() && req in inflight
      modifies this`servers, this`goodNameservers, this`heads, this`inflight, this`waiting
      modifies this`requestsInflight, this`requestsWaiting, requests, known
      ensures Valid() && old(inflight) - {req} <= inflight
      ensures forall r :: r in old(waiting) ==> r in waiting || r in inflight
      ensures old(req.txCount) >= maxRetransmits ==>
                req !in inflight && req !in waiting && Pumped() && old({req.ns}) <= Down()
      ensures old(req.txCount) < maxRetransmits ==>
                && inflight == old(inflight) && waiting == old(waiting)
                && req.txCount == old(req.txCount) + (if req.transmitMe then 0 else 1)
                && (old(req.txCount) > 0 ==> req.ns == old(Next()))
                && var s := if req.transmitMe then old(Next()) else req.ns;
                   s != null && s in known && Charged(s) && forall other :: other in known && other != s ==> Spared(other)
    {
      hide Base.Valid, Base.Down, Base.Next;
      InflightIsOwned();
      if req.txCount >= maxRetransmits {
        GiveUp(req);
      } else {
        Resend(req);
      }
    }

    /** One more request has timed out at the server; after too many it is taken for dead and counts anew. */
    twostate predicate Charged(s: Nameserver)
      reads this`maxNameserverTimeout, this`known, known`up, s`timedout
    {
      && s.timedout == (if old(s.timedout) >= maxNameserverTimeout then 0 else old(s.timedout) + 1)
      && (old(s.timedout) >= maxNameserverTimeout ==> {s} <= Down())
    }

    twostate predicate Spared(s: Nameserver)
      reads s`timedout
    {
      s.timedout == old(s.timedout)
    }

    method GiveUp(req: Request)
      requires Valid() && req in inflight
      modifies this`servers, this`goodNameservers, this`heads, this`inflight, this`waiting
      modifies this`requestsInflight, this`requestsWaiting, requests, known
      ensures Valid() && Pumped() && req !in inflight && req !in waiting && old({req.ns}) <= Down()
      ensures old(inflight) - {req} <= inflight
      ensures forall r :: r in old(waiting) ==> r in waiting || r in inflight
    {
      hide Base.Valid, Base.Down;
      ServerIsKnown(req);
      var ns := req.ns;
      EndRequest(req);
      NextIs();
      NameserverFailed(ns);
      IsDown(ns);
    }

    /** A request in flight is over: request_finished. */
    method EndRequest(req: Request)
      requires Valid() && req in inflight
      modifies this`servers, this`goodNameservers, this`heads, this`inflight, this`waiting
      modifies this`requestsInflight, this`requestsWaiting
      modifies requests`ns, requests`transId, requests`transmitMe, requests`txCount
      modifies known`up, known`failedTimes, known`choked, known`requestsInflight
      ensures Valid() && Pumped() && req !in inflight && req !in waiting && inflight <= requests && old(Down()) <= Down()
      ensures old(inflight) - {req} <= inflight
      ensures forall r :: r in inflight || r in waiting ==> r in old(inflight) || r in old(waiting)
      ensures forall r :: r in old(waiting) ==> r in waiting || r in inflight
      ensures old(waiting) == [] ==> Down() == old(Down())
    {
      hide Base.Valid, Base.Down;
      ListsAreApart(req);
      ghost var queue := waiting;
      ghost var moved := Finished(req, true);
      MovedElements(queue, moved, req);
      InflightIsOwned();
    }

    lemma ServerIsKnown(req: Request)
      requires Valid() && req in inflight
      ensures req.ns != null && req.ns in known && inflight <= requests && req.transId != NO_ID
    {
    }

    method Resend(req: Request)
      requires Valid() && req in inflight
      modifies this`servers, this`goodNameservers, inflight`ns, req`transmitMe, req`txCount
      modifies known`up, known`failedTimes, known`choked, known`requestsInflight, known`timedout
      ensures Valid() && req.txCount == old(req.txCount) + (if req.transmitMe then 0 else 1)
      ensures old(req.txCount) > 0 ==> req.ns == old(Next())
      ensures var s := if req.transmitMe then old(Next()) else req.ns;
              s != null && s in known && Charged(s) && forall other :: other in known && other != s ==> Spared(other)
    {
      hide Base.Valid, Base.Down, Base.Choked, Base.Next;
      Redirect(req);
      label Redirected:
      var answer: SendAnswer := *;
      var _ := Transmit(req, answer);
      assert StaysOrMoves@Redirected(req);
      CountTimeout(req);
    }

    /** A server that leaves too many requests unanswered in a row is taken for dead. */
    method CountTimeout(req: Request)
      requires Valid() && req in inflight
      modifies this`servers, this`goodNameservers, inflight`ns
      modifies known`up, known`failedTimes, known`requestsInflight, known`timedout
      ensures Valid() && old(Down()) <= Down()
      ensures old(req.ns) != null && old(req.ns) in known && Charged(old(req.ns))
      ensures forall other :: other in known && other != old(req.ns) ==> Spared(other)
      ensures req.txCount > 0 ==> req.ns == old(req.ns)
    {
      hide Base.Valid;
      ServerIsKnown(req);
      var ns := req.ns;
      ns.timedout := ns.timedout + 1;
      if ns.timedout > maxNameserverTimeout {
        ns.timedout := 0;
        label Failing:
        NameserverFailed(ns);
        assert StaysOrLeaves@Failing(req, ns);
      }
    }

    method Redirect(req: Request)
      requires Valid() && req in inflight
      modifies this`servers, req`ns, known`requestsInflight
      ensures Valid()
      ensures req.ns == old(Next())
    {
      hide Base.ServersFit, Base.Hashed, Base.Assigned, Base.Counts, Base.Next;
      MoveRequest(req);
    }

    /** nameserver_send_probe: the probe goes into flight to that very server, whatever the limit says. */
    method SendProbe(ns: Nameserver) returns (req: Request)
      requires Valid() && ns in known && requestsInflight < NO_ID
      modifies this`servers, this`goodNameservers, this`heads, this`inflight, this`waiting, this`requests
      modifies this`requestsInflight, this`requestsWaiting, inflight, known
      ensures Valid() && fresh(req) && ns.probe == req
      ensures inflight == old(inflight) + {req} && waiting == old(waiting)
      ensures req.txCount == (if req.transmitMe then 0 else 1)
      ensures req.ns == ns || ({ns} !! old(Down()) && {ns} <= Down())
      ensures req.transmitMe ==> req.ns == ns && {ns} <= Choked()
    {
      hide Base.Valid, Base.Down;
      req := NewProbe(ns);
      Submit(req);
    }

    /** The part of nameserver_send_probe before the submission. */
    method NewProbe(ns: Nameserver) returns (req: Request)
      requires Valid() && requestsInflight < NO_ID
      modifies this`servers, ns`probe
      ensures Valid() && fresh(req) && req !in requests && req.ns == ns && ns.probe == req
      ensures req.transId != NO_ID && req.txCount == 0
    {
      hide Base.Valid, Base.Down;
      InflightIsOwned();
      req := RequestNew();
      ns.probe := req;
      Assign(req, ns);
    }

    /**
     * reply_handle, when the answer is good: its server is up, and the request is finished. The requests that
     * move up at the end are sent, and may find the server dead again.
     */
    method GoodReply(req: Request)
      requires Valid() && req in inflight
      modifies this`servers, this`goodNameservers, this`heads, this`inflight, this`waiting
      modifies this`requestsInflight, this`requestsWaiting, requests, known
      ensures Valid() && Pumped() && req !in inflight && req !in waiting
      ensures var ns: Nameserver := old(req.ns);
              if old(req.ns.up) then ns.probe == (if old(req.ns.probe) == req then null else old(req.ns.probe))
              else ns.probe == null && ns.timedout == 0 && Gone(old(ProbesOf(req)) - {req})
      ensures old(inflight) - {req} - old(ProbesOf(req)) <= inflight
      ensures forall r :: r in old(waiting) && r !in old(ProbesOf(req)) ==> r in waiting || r in inflight
      ensures old(waiting) == [] ==> Down() == old(Down() - {req.ns})
    {
      hide Base.Valid, Base.Down;
      ServerIsKnown(req);
      ListsAreApart(req);
      var ns := req.ns;
      ForgetProbe(ns, req);
      NameserverUp(ns);
      EndRequest(req);
    }

    /** The probe that is under way to the server of this request. */
    ghost function ProbesOf(req: Request): set<Request>
      reads req`ns, req.ns
    {
      if req.ns == null then {} else ProbeOf(req.ns)
    }

    /** A probe that has been answered is not cancelled. */
    method ForgetProbe(ns: Nameserver, req: Request)
      modifies ns`probe
      ensures ns.probe == if old(ns.probe) == req then null else old(ns.probe)
    {
      if req == ns.probe { ns.probe := null; }
    }

    /**
     * Whether a bad answer sends a request to another server. When no other one is good, it does if another
     * one stands next in the list. When one is, it does for a request that was sent and for one whose server
     * was known to be down. A request that was not sent leaves a good server at once, when that is marked as
     * failed, and after it do all unsent requests behind it, in turn; it is given to the server whose turn it
     * is then, which is the one it has already if whole rounds have gone by.
     */
    ghost predicate Relocates(req: Request)
      requires req.ns != null
      reads this`heads, this`inflight, this`servers, this`goodNameservers, servers`up
      reads inflight`ns, inflight`txCount, req`ns, req`txCount, req.ns`up
    {
      if GoodBeside(req.ns) <= 0 then servers != [] && Rotate(servers)[0] != req.ns
      else req.txCount > 0 || !req.ns.up || Since(Leavers(req.ns), req) % GoodBeside(req.ns) != 0
    }

    /**
     * reply_handle, when the answer marks a bad server: the server is taken for dead, and the request goes to
     * another one as long as it may and there is another one to give it to; otherwise it is finished.
     */
    method BadReply(req: Request)
      requires Valid() && req in inflight
      modifies this`servers, this`goodNameservers, this`heads, this`inflight, this`waiting
      modifies this`requestsInflight, this`requestsWaiting, requests, known
      ensures Valid() && old(inflight) - {req} <= inflight
      ensures forall r :: r in old(waiting) ==> r in waiting || r in inflight
      ensures req in inflight <==> old(req.reissueCount < maxReissues && Relocates(req))
      ensures req !in waiting && (req !in inflight ==> Pumped())
      ensures old(req.reissueCount) < maxReissues ==> old({req.ns}) <= Down()
      ensures req in inflight ==>
                && waiting == old(waiting) && inflight == old(inflight)
                && req.ns != old(req.ns) && (old(GoodBeside(req.ns)) > 0 ==> {req.ns} !! Down())
                && req.transmitMe && req.txCount == 0 && req.reissueCount == old(req.reissueCount) + 1
      ensures req !in inflight && old(waiting) == [] && old(req.reissueCount) < maxReissues ==>
                Down() == old(Down() + {req.ns})
    {
      hide Base.Valid, Base.Down, Base.Relocates;
      InflightIsOwned();
      ListsAreApart(req);
      var moved := false;
      if req.reissueCount < maxReissues {
        moved := TryOther(req);
      }
      if !moved {
        EndRequest(req);
      }
    }

    /** The part of it that looks for another server. */
    method TryOther(req: Request) returns (moved: bool)
      requires Valid() && req in inflight
      modifies this`servers, this`goodNameservers, known`up, known`failedTimes, inflight`ns, known`requestsInflight
      modifies req`reissueCount, req`txCount, req`transmitMe
      ensures Valid() && Down() == old(Down() + {req.ns})
      ensures moved <==> old(Relocates(req))
      ensures moved ==> req.transmitMe && req.txCount == 0 && req.reissueCount == old(req.reissueCount) + 1
      ensures moved ==> req.ns != old(req.ns) && (old(GoodBeside(req.ns)) > 0 ==> {req.ns} !! Down())
    {
      hide Base.Valid, Base.Spread, Base.Next, Base.Leavers, Ups, Without, Rotate;
      ServerIsKnown(req);
      var ns: Nameserver := req.ns;
      LeaversHave(req);
      GoodList(ns);
      ghost var leavers, good := Leavers(ns), Without(Ups(servers), ns);
      NameserverFailed(ns);
      assert Down() == old(Down() + {req.ns});
      if old(ns.up) && goodNameservers > 0 && req in leavers {
        Fate(req, leavers, good);
      }
      assert ns in known;
      NextIs();
      var r := Reissue(req);
      GoodIsNotDown(req);
      moved := r == 0;
    }

    lemma LeaversHave(req: Request)
      requires Valid() && req in inflight
      ensures req in Leavers(req.ns) <==> req.txCount == 0
    {
      OnlyHas(Flatten(heads), Unsent(req.ns), req);
      InFlat(req, req.transId % |heads|, |heads|);
      assert heads[..|heads|] == heads;
    }

    lemma {:induction false} InFlat(r: Request, b: nat, n: nat)
      requires b < n <= |heads| && r in heads[b]
      ensures r in Flatten(heads[..n])
      decreases n
    {
      FlattenMore(heads, n - 1);
      if b < n - 1 {
        InFlat(r, b, n - 1);
      }
    }

    lemma GoodList(ns: Nameserver)
      requires Valid() && ns in known
      ensures ns.up ==> |Without(Ups(servers), ns)| == GoodBeside(ns) && NoRepeat(Without(Ups(servers), ns))
    {
      UpsMembers(servers);
      if ns.up {
        WithoutIsShorter(Ups(servers), ns);
      }
    }

    /** Where a request has gone, and whose turn it is. */
    lemma Fate(req: Request, leavers: seq<Request>, good: seq<Nameserver>)
      requires Spread(leavers, good) && NoRepeat(good) && req in leavers
      ensures req.ns == Next() <==> Since(leavers, req) % |good| == 0
    {
      hide Ups, InTurn, Turned;
      var p := SinceIs(leavers, req);
      SpreadMeans(leavers, good);
      FirstInTurn(good, |leavers|);
      SameInTurn(good, p, |leavers|);
      NextIsFirst();
    }

    lemma NextIsFirst()
      ensures Ups(servers) != [] ==> Next() == Ups(servers)[0]
    {
    }

    lemma NextIs()
      requires Valid()
      ensures goodNameservers >= 0
      ensures goodNameservers > 0 ==> Next() != null && Next().up
      ensures goodNameservers == 0 && servers != [] ==> Next() == Rotate(servers)[0]
      ensures known != {} ==> servers != []
    {
      if goodNameservers > 0 { FirstUp(servers); }
    }

    lemma GoodIsNotDown(req: Request)
      ensures req.ns != null && req.ns.up ==> {req.ns} !! Down()
    {
    }
  }

  /** Two good servers and a new request at one of them, whose socket takes nothing at the moment. */
  method TwoServers() returns (base: Base, first: Nameserver, second: Nameserver, req: Request)
    ensures first != second && base.known == {first, second}
    ensures base.Valid() && base.inflight == {} && base.waiting == [] && base.requests == {}
    ensures base.goodNameservers == 2 && base.Down() == {} && base.maxReissues == 1
    ensures req.ns != null && req.ns in base.known && req.ns.choked && req.ns.up && req.transId != NO_ID
    ensures req.txCount == 0 && req.reissueCount == 0
    ensures fresh(base) && fresh(req) && fresh(base.known)
  {
    hide Base.Valid, Ups, Rotate, Only;
    base := new Base(64);
    base.InflightIsOwned();
    first := base.AddNameserver();
    second := base.AddNameserver();
    base.InflightIsOwned();
    req := base.RequestNew();
    base.NextIs();
    assert first in base.known;
    req.ns.choked := true;
  }

  /**
   * Two good servers, and a request that could not be sent yet. When a bad answer comes for it, the request is
   * finished, although the other server is good.
   */
  method FinishedBesideAGoodServer() returns (base: Base, other: Nameserver, req: Request, sent: nat)
    ensures base.Valid() && sent == 0 && req !in base.inflight && req !in base.waiting
    ensures other in base.known && other !in base.Down()
  {
    hide Base.Valid, Base.Down, Ups, Rotate, Only;
    var first, second;
    base, first, second, req := TwoServers();
    base.Submit(req);
    other, sent := if req.ns == first then second else first, req.txCount;
    base.IsGood(req.ns);
    assert base.GoodBeside(req.ns) == 1;
    base.BadReply(req);
  }

  function AtLeast1(max: int): (m: int)
    ensures m >= 1 && m >= max && (m == 1 || m == max)
  {
    if max < 1 then 1 else max
  }

  /** The fewest buckets with at most five requests each on average. */
  function HeadsFor(max: int): (n: nat)
    ensures n >= 1 && 5 * (n - 1) < AtLeast1(max) <= 5 * n
  {
    (AtLeast1(max) + 4) / 5
  }

  function Inserted<T>(list: seq<T>, x: T): seq<T> {
    if list == [] then [x] else [list[0], x] + list[1..]
  }

  lemma UpsInserted(servers: seq<Nameserver>, ns: Nameserver)
    requires ns.up
    ensures |Ups(Inserted(servers, ns))| == |Ups(servers)| + 1
  {
    if servers == [] {
      assert Ups([]) == [];
    } else {
      assert Inserted(servers, ns)[1..][1..] == servers[1..];
    }
  }

  lemma EnterFirst(heads: seq<seq<Request>>, req: Request, rest: seq<Request>)
    requires heads != []
    ensures AllEntered(heads, [req] + rest) == AllEntered(Entered(heads, req), rest)
  {
    assert ([req] + rest)[1..] == rest;
  }

  lemma EnterNone(heads: seq<seq<Request>>)
    requires heads != []
    ensures AllEntered(heads, []) == heads
  {
  }

  /** The move of all requests into new buckets. */
  method Rehash(oldHeads: seq<seq<Request>>, n: nat, ghost flying: set<Request>) returns (newHeads: seq<seq<Request>>)
    requires HashedBy(oldHeads, flying) && n > 0
    ensures |newHeads| == n && HashedBy(newHeads, flying)
    ensures newHeads == AllEntered(seq(n, _ => []), Flatten(oldHeads))
  {
    hide HashedBy, Flatten, AllEntered;
    ghost var all := AllEntered(seq(n, _ => []), Flatten(oldHeads));
    var from := oldHeads;
    newHeads := seq(n, _ => []);
    assert AllEntered(newHeads, Flatten(from)) == all;
    ghost var moved: set<Request> := {};
    NothingHashed(newHeads);
    assert flying - moved == flying;
    for i := 0 to |oldHeads|
      invariant |from| == |oldHeads| && |newHeads| == n && moved <= flying
      invariant HashedBy(from, flying - moved) && HashedBy(newHeads, moved)
      invariant forall b :: 0 <= b < i ==> from[b] == []
      invariant AllEntered(newHeads, Flatten(from)) == all
    {
      while from[i] != []
        invariant |from| == |oldHeads| && |newHeads| == n && moved <= flying
        invariant HashedBy(from, flying - moved) && HashedBy(newHeads, moved)
        invariant forall b :: 0 <= b < i ==> from[b] == []
        invariant AllEntered(newHeads, Flatten(from)) == all
        decreases |from[i]|
      {
        var req := from[i][0];
        InBucket(from, flying - moved, i, req);
        LeaveHashed(from, flying - moved, req);
        FlattenFirst(from, i);
        EnterFirst(newHeads, req, Flatten(from[i := from[i][1..]]));
        from := from[i := from[i][1..]];
        EnterHashed(newHeads, moved, req);
        newHeads := newHeads[req.transId % n := newHeads[req.transId % n] + [req]];
        assert flying - moved - {req} == flying - (moved + {req});
        moved := moved + {req};
      }
    }
    NothingLeft(from, flying - moved);
    FlattenNothing(from);
    EnterNone(newHeads);
    assert moved == flying;
  }

  lemma InBucket(heads: seq<seq<Request>>, flying: set<Request>, b: nat, req: Request)
    requires HashedBy(heads, flying) && b < |heads| && req in heads[b]
    ensures req in flying && req.transId % |heads| == b
  {
  }

  lemma NothingLeft(heads: seq<seq<Request>>, flying: set<Request>)
    requires HashedBy(heads, flying)
    requires forall b :: 0 <= b < |heads| ==> heads[b] == []
    ensures flying == {}
  {
    assert forall r :: r in flying ==> r in heads[r.transId % |heads|];
  }

  lemma MovedElements(queue: seq<Request>, moved: nat, req: Request)
    requires moved <= |queue| && req !in queue
    ensures req !in Elements(queue[..moved]) && req !in queue[moved..]
    ensures forall r :: r in queue <==> r in Elements(queue[..moved]) || r in queue[moved..]
  {
    assert queue == queue[..moved] + queue[moved..];
  }

  lemma NoElements(list: seq<Request>)
    ensures Elements(list[..0]) == {}
  {
  }

  lemma OneElementMore(list: seq<Request>, n: nat)
    requires n < |list|
    ensures Elements(list[..n + 1]) == Elements(list[..n]) + {list[n]}
  {
    assert list[..n + 1] == list[..n] + [list[n]];
  }

  ghost function Elements(list: seq<Request>): set<Request> {
    set r | r in list
  }

  ghost function Ids(taken: set<Request>): set<int>
    reads taken`transId
  {
    set r | r in taken :: r.transId as int
  }

  lemma {:induction false} IdsAreFew(taken: set<Request>)
    ensures |Ids(taken)| <= |taken|
    decreases |taken|
  {
    if taken != {} {
      var r :| r in taken;
      IdsAreFew(taken - {r});
      assert Ids(taken) == Ids(taken - {r}) + {r.transId as int};
    }
  }

  lemma {:induction false} LeastMissing(ids: set<int>, n: nat) returns (id: nat)
    requires |ids| < n
    ensures id < n && id !in ids
    decreases n
  {
    if n - 1 !in ids {
      id := n - 1;
    } else {
      id := LeastMissing(ids - {n - 1}, n - 1);
    }
  }

  lemma {:induction false} AtMostAllIds(ids: set<u16>, n: nat)
    requires forall id :: id in ids ==> id < n
    ensures |ids| <= n
    decreases n
  {
    if ids != {} {
      var id :| id in ids;
      if n - 1 in ids { id := n - 1; }
      AtMostAllIds(ids - {id}, n - 1);
    }
  }

  /** What sendto can answer: the packet has gone, try again later, or the server cannot be reached. */
  datatype SendAnswer = Gone | Later | Broken

  lemma SplitMembers(list: seq<Nameserver>, i: nat)
    requires i <= |list|
    ensures var r := list[i..] + list[..i];
            && |r| == |list|
            && (forall s :: s in r ==> s in list)
            && (forall s :: s in list ==> s in r)
            && (NoRepeat(list) ==> NoRepeat(r))
  {
    assert list == list[..i] + list[i..];
  }

  lemma SomeUp(servers: seq<Nameserver>)
    requires |Ups(servers)| > 0
    ensures servers != [] && exists s :: s in servers && s.up
  {
    UpsMembers(servers);
    assert Ups(servers)[0] in Ups(servers);
  }
}
