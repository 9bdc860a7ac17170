/** How much a connection without a group can use over time, when no use takes more than it was just allowed. */
module RateBound {
  import opened TokenBuckets
  import opened RateLimits
  import opened Words

  /** One look at the allowance at some tick, counted without wrapping around, and the bytes used after it. */
  datatype Use = Use(time: nat, bytes: nat)

  function Tick(time: nat): u32 { time % TWO_32 }

  /** One direction of a bucket. */
  datatype Side = Side(limit: i64, last: u32)

  /** The side of a bucket after an update, as RlimMax leaves it. */
  function Looked(s: Side, a: Allowed, time: nat): (seen: Side)
    requires s.limit <= a.maximum
    ensures s.limit <= seen.limit <= a.maximum
    ensures seen.limit <= s.limit + Elapsed(s.last, Tick(time)) * a.rate
  {
    var n := Elapsed(s.last, Tick(time));
    RefillIsNaive(s.limit, a, n);
    assert n * a.rate >= 0;
    Side(Later(s.limit, a, n), if n == 0 then s.last else Tick(time))
  }

  lemma LookedIsUpdated(b: Bucket, cfg: BucketCfg, time: nat, d: Direction)
    requires b.Of(d) <= cfg.Of(d).maximum
    ensures var u := Updated(b, cfg.read, cfg.write, Tick(time));
            Looked(Side(b.Of(d), b.lastUpdated), cfg.Of(d), time) == Side(u.Of(d), u.lastUpdated)
  {
    UpdateOf(b, cfg, Tick(time), d);
  }

  /** Each use takes at most what the limit then allows, and time goes on. */
  predicate Fair(s: Side, a: Allowed, uses: seq<Use>)
    requires s.limit <= a.maximum
    decreases |uses|
  {
    uses == [] ||
    (var seen := Looked(s, a, uses[0].time);
     && uses[0].bytes <= AtLeast0(seen.limit)
     && (|uses| > 1 ==> uses[0].time <= uses[1].time)
     && Fair(Side(seen.limit - uses[0].bytes, seen.last), a, uses[1..]))
  }

  /** The side after all the uses. */
  function After(s: Side, a: Allowed, uses: seq<Use>): (r: Side)
    requires s.limit <= a.maximum && Fair(s, a, uses)
    ensures r.limit <= a.maximum
    decreases |uses|
  {
    if uses == [] then s
    else
      var seen := Looked(s, a, uses[0].time);
      After(Side(seen.limit - uses[0].bytes, seen.last), a, uses[1..])
  }

  function Used(uses: seq<Use>): nat {
    if uses == [] then 0 else uses[0].bytes + Used(uses[1..])
  }

  /** From now on an update counts no more ticks than have really gone by since `now`. */
  ghost predicate Settled(last: u32, now: nat) {
    forall time: nat :: now <= time ==> Elapsed(last, Tick(time)) <= time - now
  }

  lemma WholeTurns(a: int, b: int, turns: int)
    requires a == b + turns * TWO_32
    ensures a % TWO_32 == b % TWO_32
  {
  }

  lemma LaterTick(last: u32, now: nat, time: nat)
    requires now <= time
    ensures (Tick(time) - last) % TWO_32 == ((Tick(now) - last) % TWO_32 + (time - now)) % TWO_32
  {
    var behind := Tick(now) - last;
    assert now == TWO_32 * (now / TWO_32) + Tick(now) && time == TWO_32 * (time / TWO_32) + Tick(time);
    assert behind == TWO_32 * (behind / TWO_32) + behind % TWO_32;
    WholeTurns(behind % TWO_32 + (time - now), Tick(time) - last, time / TWO_32 - now / TWO_32 - behind / TWO_32);
  }

  lemma StandingClock(last: u32, now: nat, time: nat)
    requires now <= time
    requires Elapsed(last, Tick(now)) == 0
    ensures Elapsed(last, Tick(time)) <= time - now
  {
    hide Tick;
    LaterTick(last, now, time);
    AtMostPast((Tick(now) - last) % TWO_32, time - now);
  }

  /** A clock that is not ahead, or far ahead, and then goes on. */
  lemma AtMostPast(behind: nat, more: nat)
    requires behind == 0 || INT_MAX < behind < TWO_32
    ensures var n := (behind + more) % TWO_32; n > INT_MAX || n <= more
  {
    if behind + more >= TWO_32 {
      WholeTurns(behind + more, behind + more - TWO_32, 1);
    }
  }

  /** Whether an update was accepted or refused, no tick before it can count again. */
  lemma LookSettles(s: Side, a: Allowed, now: nat)
    requires s.limit <= a.maximum
    ensures Settled(Looked(s, a, now).last, now)
  {
    var last := Looked(s, a, now).last;
    assert Elapsed(last, Tick(now)) == 0;
    forall time: nat | now <= time ensures Elapsed(last, Tick(time)) <= time - now {
      StandingClock(last, now, time);
    }
  }

  lemma RateOverTime(n: nat, m: nat, rate: nat)
    requires n <= m
    ensures n * rate <= m * rate
  {
  }

  /** From a settled moment on: what is there, and what the ticks bring. */
  lemma {:induction false} SettledBound(s: Side, a: Allowed, uses: seq<Use>, now: nat)
    requires s.limit <= a.maximum && Fair(s, a, uses) && uses != []
    requires Settled(s.last, now) && now <= uses[0].time
    ensures uses[0].time <= uses[|uses| - 1].time
    ensures Used(uses) <= AtLeast0(s.limit) + (uses[|uses| - 1].time - now) * a.rate
    ensures s.limit >= 0 ==> After(s, a, uses).limit >= 0
    decreases |uses|
  {
    hide Settled, Elapsed;
    var time := uses[0].time;
    var seen := Looked(s, a, time);
    assert Elapsed(s.last, Tick(time)) <= time - now by { SettledMeans(s.last, now, time); }
    RateOverTime(Elapsed(s.last, Tick(time)), time - now, a.rate);
    LookSettles(s, a, time);
    var rest := Side(seen.limit - uses[0].bytes, seen.last);
    if |uses| > 1 {
      SettledBound(rest, a, uses[1..], time);
      var end := uses[|uses| - 1].time;
      assert (end - now) * a.rate == (end - time) * a.rate + (time - now) * a.rate;
    } else {
      assert Used(uses[1..]) == 0;
    }
  }

  lemma SettledMeans(last: u32, now: nat, time: nat)
    requires Settled(last, now) && now <= time
    ensures Elapsed(last, Tick(time)) <= time - now
  {
  }

  /**
   * In any window, whatever happened before it: the bytes used are at most the maximum and the rate times the
   * ticks from the first use to the last. A limit that is not negative never becomes negative.
   */
  lemma WindowBound(s: Side, a: Allowed, uses: seq<Use>)
    requires s.limit <= a.maximum && Fair(s, a, uses) && uses != []
    ensures uses[0].time <= uses[|uses| - 1].time
    ensures Used(uses) <= a.maximum + (uses[|uses| - 1].time - uses[0].time) * a.rate
    ensures s.limit >= 0 ==> After(s, a, uses).limit >= 0
  {
    hide Settled, Elapsed, Looked, AtLeast0;
    var time := uses[0].time;
    var seen := Looked(s, a, time);
    LookSettles(s, a, time);
    AtMost(seen.limit, uses[0].bytes, a.maximum);
    var rest := Side(seen.limit - uses[0].bytes, seen.last);
    if |uses| > 1 {
      SettledBound(rest, a, uses[1..], time);
      assert uses[1..][|uses| - 2] == uses[|uses| - 1];
    } else {
      assert Used(uses[1..]) == 0;
    }
  }

  lemma AtMost(limit: int, bytes: nat, maximum: nat)
    requires limit <= maximum && bytes <= AtLeast0(limit)
    ensures bytes + AtLeast0(limit - bytes) <= maximum
    ensures if limit >= 0 then limit - bytes >= 0 else bytes == 0
  {
  }

  // ----- A whole run of one connection -----

  /**
   * What happens to a connection without a group and with a fixed configuration: it asks how much it may use in
   * one direction and uses what it wants of it, or the time has come for its timer.
   */
  datatype Event = Ask(time: nat, d: Direction, wanted: nat) | Timer(time: nat)

  predicate InOrder(events: seq<Event>) {
    forall i, j :: 0 <= i < j < |events| ==> events[i].time <= events[j].time
  }

  function SideOf(b: Bucket, d: Direction): Side { Side(b.Of(d), b.lastUpdated) }

  /** What an event uses in a direction that has `limit` tokens by then. */
  function Taken(e: Event, d: Direction, limit: int): nat {
    if e.Ask? && e.d == d then if e.wanted < AtLeast0(limit) then e.wanted else AtLeast0(limit) else 0
  }

  ghost predicate Running(bev: Bufferevent)
    reads bev, bev.limit
  {
    && bev.Valid() && bev.group == null && bev.Grouped()
    && bev.cfg != null && WithinMaximum(bev.cfg, bev.limit.Value())
  }

  /** One direction of the bucket after an event that looked at it. */
  ghost predicate Moved(e: Event, d: Direction, a: Allowed, was: Bucket, now: Bucket) {
    && was.Of(d) <= a.maximum
    && var seen := Looked(SideOf(was, d), a, e.time);
       SideOf(now, d) == Side(seen.limit - Taken(e, d, seen.limit), seen.last)
  }

  /** An update of the bucket and a charge after it are what the event does to each direction. */
  lemma UpdateMoves(e: Event, cfg: BucketCfg, was: Bucket, now: Bucket, d: Direction)
    requires was.Of(d) <= cfg.Of(d).maximum
    requires var u := Updated(was, cfg.read, cfg.write, Tick(e.time));
             SideOf(now, d) == Side(u.Of(d) - Taken(e, d, u.Of(d)), u.lastUpdated)
    ensures Moved(e, d, cfg.Of(d), was, now)
  {
    hide Updated, Looked;
    LookedIsUpdated(was, cfg, e.time, d);
  }

  method AskAndUse(bev: Bufferevent, e: Event) returns (used: nat)
    requires Running(bev) && e.Ask?
    modifies bev`readSuspended, bev`writeSuspended, bev`timerPending, bev.limit
    ensures Running(bev)
    ensures forall d: Direction :: Moved(e, d, bev.cfg.Of(d), old(bev.limit.Value()), bev.limit.Value())
    ensures old(bev.limit.Value()).Of(e.d) <= bev.cfg.Of(e.d).maximum
    ensures used == UseOf(e, e.d, bev.cfg.Of(e.d), old(bev.limit.Value())).bytes
  {
    hide Updated, Looked, Elapsed, NoneWraps, Moved, TimerFits, BucketFits, WithinMaximum;
    ghost var was, cfg := bev.limit.Value(), bev.cfg;
    WithinMaximumNeverWraps(cfg, was, Tick(e.time), bev.readSuspended, bev.writeSuspended);
    var allowed := bev.RlimMax(e.d, Tick(e.time));
    ghost var u := bev.limit.Value();
    used := if e.wanted < allowed then e.wanted else allowed;
    bev.Decrement(e.d, used);
    KeepsOther(bev.readSuspended);
    KeepsOther(bev.writeSuspended);
    forall d: Direction ensures Moved(e, d, cfg.Of(d), was, bev.limit.Value()) {
      Within(cfg, was, d);
      UpdateMoves(e, cfg, was, bev.limit.Value(), d);
    }
    Within(cfg, was, e.d);
    LookedIsUpdated(was, cfg, e.time, e.d);
  }

  lemma Within(cfg: BucketCfg?, b: Bucket, d: Direction)
    requires cfg != null && WithinMaximum(cfg, b)
    ensures b.Of(d) <= cfg.Of(d).maximum
  {
  }

  lemma KeepsOther(r: set<Reason>)
    ensures GroupBandwidth in r <==> GroupBandwidth in r - {Bandwidth}
  {
  }

  method TimerDue(bev: Bufferevent, e: Event)
    requires Running(bev) && e.Timer? && bev.timerPending
    modifies bev`readSuspended, bev`writeSuspended, bev`timerPending, bev.limit
    ensures Running(bev)
    ensures forall d: Direction :: Moved(e, d, bev.cfg.Of(d), old(bev.limit.Value()), bev.limit.Value())
  {
    hide Updated, Looked, Elapsed, NoneWraps, Moved, TimerFits, BucketFits, WithinMaximum;
    ghost var was, cfg := bev.limit.Value(), bev.cfg;
    WithinMaximumNeverWraps(cfg, was, Tick(e.time), bev.readSuspended, bev.writeSuspended);
    bev.Refill(Tick(e.time));
    assert GroupBandwidth !in bev.OtherReasons(Read) && GroupBandwidth !in bev.OtherReasons(Write);
    forall d: Direction ensures Moved(e, d, cfg.Of(d), was, bev.limit.Value()) {
      Within(cfg, was, d);
      UpdateMoves(e, cfg, was, bev.limit.Value(), d);
    }
  }

  /** The uses of one direction, and that they lead from one value of the bucket to another. */
  ghost predicate Explains(uses: seq<Use>, d: Direction, a: Allowed, was: Bucket, now: Bucket) {
    && was.Of(d) <= a.maximum
    && Fair(SideOf(was, d), a, uses)
    && After(SideOf(was, d), a, uses) == SideOf(now, d)
  }

  predicate Between(uses: seq<Use>, events: seq<Event>) {
    forall u :: u in uses ==> events != [] && events[0].time <= u.time <= events[|events| - 1].time
  }

  function WantedOf(e: Event, d: Direction): nat {
    if e.Ask? && e.d == d then e.wanted else 0
  }

  /** Every question is met by a use of no more than it wants; a timer that is not set is passed over. */
  predicate Follows(uses: seq<Use>, events: seq<Event>, d: Direction)
    decreases |events|
  {
    if events == [] then uses == []
    else
      || (&& uses != [] && uses[0].time == events[0].time && uses[0].bytes <= WantedOf(events[0], d)
          && Follows(uses[1..], events[1..], d))
      || (events[0].Timer? && Follows(uses, events[1..], d))
  }

  lemma FollowsMore(e: Event, u: Use, uses: seq<Use>, rest: seq<Event>, d: Direction)
    requires Follows(uses, rest, d)
    ensures u.time == e.time && u.bytes <= WantedOf(e, d) ==> Follows([u] + uses, [e] + rest, d)
    ensures e.Timer? ==> Follows(uses, [e] + rest, d)
  {
    assert ([u] + uses)[1..] == uses && ([e] + rest)[1..] == rest;
  }

  lemma NothingFollows()
    ensures forall d: Direction :: Follows([], [], d)
  {
  }

  lemma UseIsWanted(e: Event, d: Direction, a: Allowed, was: Bucket)
    requires was.Of(d) <= a.maximum
    ensures UseOf(e, d, a, was).time == e.time && UseOf(e, d, a, was).bytes <= WantedOf(e, d)
  {
  }

  function UseOf(e: Event, d: Direction, a: Allowed, was: Bucket): Use
    requires was.Of(d) <= a.maximum
  {
    Use(e.time, Taken(e, d, Looked(SideOf(was, d), a, e.time).limit))
  }

  lemma ExplainsMore(e: Event, uses: seq<Use>, rest: seq<Event>, d: Direction, a: Allowed,
                     was: Bucket, between: Bucket, now: Bucket)
    requires Moved(e, d, a, was, between) && Explains(uses, d, a, between, now)
    requires Between(uses, rest) && InOrder([e] + rest)
    ensures Explains([UseOf(e, d, a, was)] + uses, d, a, was, now)
    ensures Between([UseOf(e, d, a, was)] + uses, [e] + rest)
  {
    hide Looked;
    var u := UseOf(e, d, a, was);
    var all := [u] + uses;
    assert all[0] == u && all[1..] == uses;
    if uses != [] {
      assert uses[0] in uses && ([e] + rest)[1] == rest[0];
      assert ([e] + rest)[0].time <= ([e] + rest)[1].time;
      assert all[1] == uses[0];
    }
    BetweenMore(e, u, uses, rest);
  }

  lemma BetweenMore(e: Event, u: Use, uses: seq<Use>, rest: seq<Event>)
    requires u.time == e.time && Between(uses, rest) && InOrder([e] + rest)
    ensures Between([u] + uses, [e] + rest)
  {
    var all := [e] + rest;
    assert all[0] == e && all[0].time <= all[|all| - 1].time by { if rest != [] { } }
    forall v | v in [u] + uses ensures e.time <= v.time <= all[|all| - 1].time {
      if v != u {
        assert v in uses && all[1] == rest[0] && all[|all| - 1] == rest[|rest| - 1];
        assert all[0].time <= all[1].time;
      }
    }
  }

  lemma BetweenLater(e: Event, uses: seq<Use>, rest: seq<Event>)
    requires Between(uses, rest) && InOrder([e] + rest)
    ensures Between(uses, [e] + rest)
  {
    var all := [e] + rest;
    forall v | v in uses ensures e.time <= v.time <= all[|all| - 1].time {
      assert all[1] == rest[0] && all[|all| - 1] == rest[|rest| - 1];
      assert all[0].time <= all[1].time;
    }
  }

  lemma NothingHappens(b: Bucket, d: Direction, a: Allowed, events: seq<Event>)
    requires b.Of(d) <= a.maximum
    ensures Explains([], d, a, b, b) && Between([], events)
  {
  }

  lemma FirstEvent(events: seq<Event>)
    requires events != [] && InOrder(events)
    ensures InOrder(events[1..]) && InOrder([events[0]] + events[1..])
    ensures [events[0]] + events[1..] == events
  {
    assert [events[0]] + events[1..] == events;
  }

  /** The bound on one direction over the time of all the events. */
  lemma RunBound(uses: seq<Use>, events: seq<Event>, d: Direction, a: Allowed, was: Bucket, now: Bucket)
    requires Explains(uses, d, a, was, now) && Between(uses, events) && InOrder(events) && events != []
    ensures events[0].time <= events[|events| - 1].time
    ensures Used(uses) <= a.maximum + (events[|events| - 1].time - events[0].time) * a.rate
    ensures was.Of(d) >= 0 ==> now.Of(d) >= 0
  {
    hide Fair, After;
    var from, to := events[0].time, events[|events| - 1].time;
    assert from <= to;
    RateOverTime(0, to - from, a.rate);
    if uses == [] {
      NothingUsed(d, a, was, now);
      assert a.maximum >= 0;
    } else {
      WindowBound(SideOf(was, d), a, uses);
      var first, last := uses[0], uses[|uses| - 1];
      assert first in uses && last in uses;
      RateOverTime(last.time - first.time, to - from, a.rate);
    }
  }

  lemma NothingUsed(d: Direction, a: Allowed, was: Bucket, now: Bucket)
    requires Explains([], d, a, was, now)
    ensures Used([]) == 0 && was.Of(d) == now.Of(d)
  {
  }

  lemma UsedMore(u: Use, uses: seq<Use>)
    ensures Used([u] + uses) == u.bytes + Used(uses)
  {
    assert ([u] + uses)[1..] == uses;
  }

  /** One event that looks at the bucket. */
  method Step(bev: Bufferevent, e: Event) returns (used: nat)
    requires Running(bev) && (e.Ask? || bev.timerPending)
    modifies bev`readSuspended, bev`writeSuspended, bev`timerPending, bev.limit
    ensures Running(bev)
    ensures Moved(e, Read, bev.cfg.read, old(bev.limit.Value()), bev.limit.Value())
    ensures Moved(e, Write, bev.cfg.write, old(bev.limit.Value()), bev.limit.Value())
    ensures used == if e.Ask? then UseOf(e, e.d, bev.cfg.Of(e.d), old(bev.limit.Value())).bytes else 0
  {
    hide Moved, Looked, WithinMaximum, TimerFits, BucketFits;
    ghost var cfg := bev.cfg;
    assert cfg.Of(Read) == cfg.read && cfg.Of(Write) == cfg.write;
    used := 0;
    if e.Ask? {
      used := AskAndUse(bev, e);
    } else {
      TimerDue(bev, e);
    }
  }

  /**
   * A run of the connection, its bytes counted in each direction: no more than the maximum and the rate times the
   * ticks from the first event to the last, and a limit that is not negative never becomes negative.
   */
  method Run(bev: Bufferevent, events: seq<Event>)
    returns (read: nat, written: nat, ghost readUses: seq<Use>, ghost writeUses: seq<Use>)
    requires Running(bev) && InOrder(events)
    modifies bev`readSuspended, bev`writeSuspended, bev`timerPending, bev.limit
    ensures Running(bev) && read == Used(readUses) && written == Used(writeUses)
    ensures Explains(readUses, Read, bev.cfg.read, old(bev.limit.Value()), bev.limit.Value())
    ensures Explains(writeUses, Write, bev.cfg.write, old(bev.limit.Value()), bev.limit.Value())
    ensures Between(readUses, events) && Between(writeUses, events)
    ensures Follows(readUses, events, Read) && Follows(writeUses, events, Write)
    ensures events != [] ==>
              && events[0].time <= events[|events| - 1].time
              && read <= bev.cfg.read.maximum + (events[|events| - 1].time - events[0].time) * bev.cfg.read.rate
              && written <= bev.cfg.write.maximum + (events[|events| - 1].time - events[0].time) * bev.cfg.write.rate
    ensures forall d: Direction :: old(bev.limit.Value().Of(d)) >= 0 ==> bev.limit.Value().Of(d) >= 0
    decreases |events|
  {
    hide Moved, Explains, Between, Follows, InOrder, Fair, After, Looked, Used, WithinMaximum, TimerFits, BucketFits;
    hide UseOf;
    ghost var was, cfg := bev.limit.Value(), bev.cfg;
    Within(cfg, was, Read);
    Within(cfg, was, Write);
    NothingHappens(was, Read, cfg.read, events);
    NothingHappens(was, Write, cfg.write, events);
    read, written, readUses, writeUses := 0, 0, [], [];
    if events == [] {
      NothingUsed(Read, cfg.read, was, was);
      NothingFollows();
      return;
    }
    FirstEvent(events);
    var e, rest := events[0], events[1..];
    if e.Timer? && !bev.timerPending {
      read, written, readUses, writeUses := Run(bev, rest);
      FollowsMore(e, Use(0, 0), readUses, rest, Read);
      FollowsMore(e, Use(0, 0), writeUses, rest, Write);
      BetweenLater(e, readUses, rest);
      BetweenLater(e, writeUses, rest);
    } else {
      var used := Step(bev, e);
      ghost var between := bev.limit.Value();
      read, written, readUses, writeUses := Run(bev, rest);
      ExplainsMore(e, readUses, rest, Read, cfg.read, was, between, bev.limit.Value());
      ExplainsMore(e, writeUses, rest, Write, cfg.write, was, between, bev.limit.Value());
      UseIsWanted(e, Read, cfg.read, was);
      UseIsWanted(e, Write, cfg.write, was);
      FollowsMore(e, UseOf(e, Read, cfg.read, was), readUses, rest, Read);
      FollowsMore(e, UseOf(e, Write, cfg.write, was), writeUses, rest, Write);
      UsedMore(UseOf(e, Read, cfg.read, was), readUses);
      UsedMore(UseOf(e, Write, cfg.write, was), writeUses);
      readUses, writeUses := [UseOf(e, Read, cfg.read, was)] + readUses, [UseOf(e, Write, cfg.write, was)] + writeUses;
      if e.Ask? && e.d.Read? { read := used + read; }
      if e.Ask? && e.d.Write? { written := used + written; }
    }
    RunBound(readUses, events, Read, cfg.read, was, bev.limit.Value());
    RunBound(writeUses, events, Write, cfg.write, was, bev.limit.Value());
  }
}
