/**
 * Rate limiting of one connection: its bucket, the reasons why its reading and writing are suspended, and the
 * timer that refills the bucket. The source's two functions for reading and writing are one here, with the
 * direction as a parameter. A connection without a struct bufferevent_rate_limit is one without a
 * configuration and without a group.
 */
module RateLimits {
  import opened Lists
  import opened TokenBuckets
  import opened Words

  /** BEV_SUSPEND_WM, _BW, _BW_GROUP, _LOOKUP and _FILT_READ. */
  datatype Reason = Watermark | Bandwidth | GroupBandwidth | Lookup | Filter

  /** The timer is set exactly while bandwidth suspends something, and only with a configuration. */
  predicate TimerFits(cfg: BucketCfg?, timerPending: bool, read: set<Reason>, write: set<Reason>) {
    && (timerPending <==> Bandwidth in read || Bandwidth in write)
    && (cfg == null ==> !timerPending)
  }

  predicate BucketFits(cfg: BucketCfg?, b: Bucket, read: set<Reason>, write: set<Reason>) {
    cfg != null ==>
      && (b.readLimit <= 0 ==> Bandwidth in read)
      && (b.writeLimit <= 0 ==> Bandwidth in write)
  }

  /** No direction that goes on is about to lose its tokens to a refill that wraps around. */
  predicate NoneWraps(cfg: BucketCfg?, b: Bucket, tick: u32, read: set<Reason>, write: set<Reason>) {
    cfg != null ==>
      && (Bandwidth in read || !Wraps(b.readLimit, cfg.read, Elapsed(b.lastUpdated, tick)))
      && (Bandwidth in write || !Wraps(b.writeLimit, cfg.write, Elapsed(b.lastUpdated, tick)))
  }

  predicate WithinMaximum(cfg: BucketCfg?, b: Bucket) {
    cfg != null ==> forall d: Direction :: b.Of(d) <= cfg.Of(d).maximum
  }

  function Min(x: int, y: int): int { if x < y then x else y }

  lemma UpdateOf(b: Bucket, cfg: BucketCfg, tick: u32, d: Direction)
    ensures Updated(b, cfg.read, cfg.write, tick).Of(d)
            == Later(b.Of(d), cfg.Of(d), Elapsed(b.lastUpdated, tick))
  {
  }

  lemma UpdateOfPositive(b: Bucket, cfg: BucketCfg, tick: u32, d: Direction)
    requires b.Of(d) > 0
    ensures Updated(b, cfg.read, cfg.write, tick).Of(d) > 0
            <==> !Wraps(b.Of(d), cfg.Of(d), Elapsed(b.lastUpdated, tick))
  {
    hide Updated, Refilled;
    UpdateOf(b, cfg, tick, d);
    var n := Elapsed(b.lastUpdated, tick);
    if n > 0 {
      PositiveIff(b.Of(d), cfg.Of(d), n);
    }
  }

  /**
   * After an update a direction without tokens is still suspended, unless one that goes on has been wrapped
   * around: exactly then it is forgotten.
   */
  lemma UpdateFitsIff(b: Bucket, cfg: BucketCfg, tick: u32, read: set<Reason>, write: set<Reason>)
    requires BucketFits(cfg, b, read, write)
    ensures BucketFits(cfg, Updated(b, cfg.read, cfg.write, tick), read, write)
            <==> NoneWraps(cfg, b, tick, read, write)
  {
    hide Updated, Wraps, Elapsed;
    if b.readLimit > 0 { UpdateOfPositive(b, cfg, tick, Read); }
    if b.writeLimit > 0 { UpdateOfPositive(b, cfg, tick, Write); }
  }

  /** As long as only what is there is charged, no limit gets above its maximum, and then no refill wraps. */
  lemma WithinMaximumNeverWraps(cfg: BucketCfg?, b: Bucket, tick: u32, read: set<Reason>, write: set<Reason>)
    requires WithinMaximum(cfg, b)
    ensures NoneWraps(cfg, b, tick, read, write)
    ensures cfg != null ==> WithinMaximum(cfg, Updated(b, cfg.read, cfg.write, tick))
  {
    hide Updated, Elapsed;
    if cfg != null {
      var n := Elapsed(b.lastUpdated, tick);
      assert b.Of(Read) <= cfg.Of(Read).maximum && b.Of(Write) <= cfg.Of(Write).maximum;
      forall d: Direction ensures Updated(b, cfg.read, cfg.write, tick).Of(d) <= cfg.Of(d).maximum {
        UpdateOf(b, cfg, tick, d);
        RefillIsNaive(b.Of(d), cfg.Of(d), n);
      }
    }
  }

  class Bufferevent {
    var readSuspended: set<Reason>
    var writeSuspended: set<Reason>
    var maxSingleRead: int
    var maxSingleWrite: int
    var cfg: BucketCfg?
    const limit: TokenBucket
    var timerPending: bool
    var group: Group?

    constructor (maxSingleRead: nat, maxSingleWrite: nat)
      ensures Valid() && fresh(limit) && cfg == null && !timerPending
      ensures readSuspended == {} && writeSuspended == {} && group == null
      ensures this.maxSingleRead == maxSingleRead && this.maxSingleWrite == maxSingleWrite
    {
      readSuspended, writeSuspended := {}, {};
      this.maxSingleRead, this.maxSingleWrite := maxSingleRead, maxSingleWrite;
      cfg, timerPending, group := null, false, null;
      limit := new TokenBucket();
    }

    function Suspended(d: Direction): set<Reason>
      reads this
    {
      if d.Read? then readSuspended else writeSuspended
    }

    /** No direction without tokens goes on, and none that waits for tokens is without a timer. */
    ghost predicate Valid()
      reads this, limit
    {
      && TimerFits(cfg, timerPending, readSuspended, writeSuspended)
      && BucketFits(cfg, limit.Value(), readSuspended, writeSuspended)
    }

    /** bufferevent_suspend_read_ and bufferevent_suspend_write_. */
    method Suspend(d: Direction, why: Reason)
      modifies this`readSuspended, this`writeSuspended
      ensures readSuspended == old(readSuspended) + if d.Read? then {why} else {}
      ensures writeSuspended == old(writeSuspended) + if d.Write? then {why} else {}
    {
      if d.Read? {
        readSuspended := readSuspended + {why};
      } else {
        writeSuspended := writeSuspended + {why};
      }
    }

    /** bufferevent_unsuspend_read_ and bufferevent_unsuspend_write_. */
    method Unsuspend(d: Direction, why: Reason)
      modifies this`readSuspended, this`writeSuspended
      ensures readSuspended == old(readSuspended) - if d.Read? then {why} else {}
      ensures writeSuspended == old(writeSuspended) - if d.Write? then {why} else {}
    {
      if d.Read? {
        readSuspended := readSuspended - {why};
      } else {
        writeSuspended := writeSuspended - {why};
      }
    }

    /** The reasons other than bandwidth, which the bucket has no say in. */
    function OtherReasons(d: Direction): set<Reason>
      reads this
    {
      Suspended(d) - {Bandwidth}
    }

    /**
     * The connection's own part of bufferevent_decrement_read_buckets_ and its twin. A negative number of
     * bytes gives tokens back. Afterwards bandwidth suspends the direction exactly when it has no tokens.
     */
    method Decrement(d: Direction, bytes: int)
      requires Valid()
      requires -SSIZE_MAX - 1 <= limit.Value().Of(d) - bytes <= SSIZE_MAX
      modifies this`readSuspended, this`writeSuspended, this`timerPending, limit
      ensures Valid()
      ensures cfg == null ==> limit.Value() == old(limit.Value()) && Suspended(d) == old(Suspended(d))
      ensures cfg != null ==>
                && limit.Value().Of(d) == old(limit.Value().Of(d)) - bytes
                && (Bandwidth in Suspended(d) <==> limit.Value().Of(d) <= 0)
      ensures readSuspended - {Bandwidth} == old(readSuspended) - {Bandwidth}
      ensures writeSuspended - {Bandwidth} == old(writeSuspended) - {Bandwidth}
      ensures forall e: Direction :: e != d ==>
                limit.Value().Of(e) == old(limit.Value().Of(e)) && Suspended(e) == old(Suspended(e))
      ensures limit.lastUpdated == old(limit.lastUpdated)
      ensures bytes >= 0 && old(WithinMaximum(cfg, limit.Value())) ==> WithinMaximum(cfg, limit.Value())
    {
      if cfg == null { return; }
      if d.Read? {
        limit.readLimit := limit.readLimit - bytes;
        if limit.readLimit <= 0 {
          Suspend(Read, Bandwidth);
          timerPending := true;
        } else if Bandwidth in readSuspended {
          if Bandwidth !in writeSuspended { timerPending := false; }
          Unsuspend(Read, Bandwidth);
        }
      } else {
        limit.writeLimit := limit.writeLimit - bytes;
        if limit.writeLimit <= 0 {
          Suspend(Write, Bandwidth);
          timerPending := true;
        } else if Bandwidth in writeSuspended {
          if Bandwidth !in readSuspended { timerPending := false; }
          Unsuspend(Write, Bandwidth);
        }
      }
    }

    /** bufferevent_update_buckets, as far as a configuration is there. */
    method UpdateBuckets(tick: u32)
      requires Valid()
      modifies limit
      ensures Valid() <==> old(NoneWraps(cfg, limit.Value(), tick, readSuspended, writeSuspended))
      ensures limit.Value() == if cfg == null then old(limit.Value())
                               else Updated(old(limit.Value()), cfg.read, cfg.write, tick)
      ensures old(WithinMaximum(cfg, limit.Value())) ==> WithinMaximum(cfg, limit.Value())
    {
      hide Updated, WithinMaximum;
      if cfg != null {
        UpdateFitsIff(limit.Value(), cfg, tick, readSuspended, writeSuspended);
        if WithinMaximum(cfg, limit.Value()) {
          WithinMaximumNeverWraps(cfg, limit.Value(), tick, readSuspended, writeSuspended);
        }
        var _ := limit.Update(cfg, tick);
      }
    }

    /**
     * bev_refill_callback_, when the timer has run out. Afterwards each direction that was suspended for
     * bandwidth still is exactly when it has no tokens, and then the timer is set again. The other direction is
     * not looked at: the state stays valid exactly if its refill did not wrap around.
     */
    method Refill(tick: u32)
      requires Valid() && timerPending
      modifies this`readSuspended, this`writeSuspended, this`timerPending, limit
      ensures Valid() <==> old(NoneWraps(cfg, limit.Value(), tick, readSuspended, writeSuspended))
      ensures TimerFits(cfg, timerPending, readSuspended, writeSuspended)
      ensures cfg != null && limit.Value() == Updated(old(limit.Value()), cfg.read, cfg.write, tick)
      ensures forall d: Direction ::
                Bandwidth in Suspended(d) <==> Bandwidth in old(Suspended(d)) && limit.Value().Of(d) <= 0
      ensures forall d: Direction :: OtherReasons(d) == old(OtherReasons(d))
      ensures old(WithinMaximum(cfg, limit.Value())) ==> WithinMaximum(cfg, limit.Value())
    {
      hide Updated, WithinMaximum, NoneWraps;
      UpdateBuckets(tick);
      timerPending := false;
      var again := false;
      if Bandwidth in readSuspended {
        if limit.readLimit > 0 { Unsuspend(Read, Bandwidth); } else { again := true; }
      }
      if Bandwidth in writeSuspended {
        if limit.writeLimit > 0 { Unsuspend(Write, Bandwidth); } else { again := true; }
      }
      if again { timerPending := true; }
    }

    /** bufferevent_set_rate_limit: a new configuration, the same one again, or none. */
    method SetRateLimit(newCfg: BucketCfg?, tick: u32)
      requires Valid()
      modifies this`readSuspended, this`writeSuspended, this`timerPending, this`cfg, limit
      ensures Valid() && cfg == newCfg
      ensures newCfg == old(cfg) ==>
                && limit.Value() == old(limit.Value()) && timerPending == old(timerPending)
                && readSuspended == old(readSuspended) && writeSuspended == old(writeSuspended)
      ensures newCfg != null && newCfg != old(cfg) ==>
                && WithinMaximum(cfg, limit.Value())
                && forall d: Direction :: Bandwidth in Suspended(d) <==> limit.Value().Of(d) <= 0
      ensures newCfg != null && old(cfg) == null ==>
                limit.Value() == Bucket(newCfg.read.rate, newCfg.write.rate, tick)
      ensures newCfg != null && old(cfg) != null && newCfg != old(cfg) ==>
                limit.lastUpdated == old(limit.lastUpdated)
                && forall d: Direction ::
                     limit.Value().Of(d) == Min(old(limit.Value().Of(d)), newCfg.Of(d).maximum)
      ensures forall d: Direction :: OtherReasons(d) == old(OtherReasons(d))
    {
      if newCfg == null {
        cfg := null;
        Unsuspend(Read, Bandwidth);
        Unsuspend(Write, Bandwidth);
        timerPending := false;
        return;
      }
      if cfg == newCfg { return; }
      var reinit := cfg != null;
      cfg := newCfg;
      limit.Init(newCfg, tick, reinit);
      if reinit { timerPending := false; }
      var suspended := false;
      if limit.readLimit > 0 {
        Unsuspend(Read, Bandwidth);
      } else {
        Suspend(Read, Bandwidth);
        suspended := true;
      }
      if limit.writeLimit > 0 {
        Unsuspend(Write, Bandwidth);
      } else {
        Suspend(Write, Bandwidth);
        suspended := true;
      }
      if suspended { timerPending := true; }
    }

    // ----- In a group -----

    /** Outside a group nothing is held back for one; inside, the group is in order and has this connection. */
    ghost predicate Grouped()
      reads this, group, if group == null then [] else group.members
    {
      if group == null then GroupBandwidth !in readSuspended && GroupBandwidth !in writeSuspended
      else group.Valid() && this in group.members && group.bucket != limit
    }

    function OwnGroup(): set<Group>
      reads this
    {
      if group == null then {} else {group}
    }

    /** bufferevent_remove_from_rate_limit_group_internal_. */
    method RemoveFromGroup(unsuspend: bool)
      requires Grouped()
      modifies this`group, this`readSuspended, this`writeSuspended
      modifies OwnGroup()`members, OwnGroup()`nMembers
      ensures group == null && (unsuspend ==> Grouped())
      ensures old(group) != null ==> old(group).Valid() && old(group).members == Without(old(group.members), this)
      ensures forall d: Direction ::
                Suspended(d) == old(Suspended(d)) - if unsuspend then {GroupBandwidth} else {}
    {
      if group != null {
        var g := group;
        WithoutIsShorter(g.members, this);
        group := null;
        g.nMembers := g.nMembers - 1;
        g.members := Without(g.members, this);
      }
      if unsuspend {
        Unsuspend(Read, GroupBandwidth);
        Unsuspend(Write, GroupBandwidth);
      }
    }

    /** The part of bufferevent_add_to_rate_limit_group that puts the connection at the head of the list. */
    method Join(g: Group)
      requires group == null && Grouped() && g.Valid() && g.bucket != limit
      modifies this`group, this`readSuspended, this`writeSuspended, g`members, g`nMembers
      ensures Grouped() && group == g && g.members == [this] + old(g.members)
      ensures forall d: Direction ::
                Suspended(d) == old(Suspended(d)) + if g.IsSuspended(d) then {GroupBandwidth} else {}
    {
      assert this !in g.members;
      group := g;
      g.nMembers := g.nMembers + 1;
      g.members := [this] + g.members;
      if g.readSuspended { Suspend(Read, GroupBandwidth); }
      if g.writeSuspended { Suspend(Write, GroupBandwidth); }
    }

    /** bufferevent_add_to_rate_limit_group. */
    method AddToGroup(g: Group)
      requires Grouped() && g.Valid() && g.bucket != limit
      modifies this`group, this`readSuspended, this`writeSuspended
      modifies OwnGroup()`members, OwnGroup()`nMembers, g`members, g`nMembers
      ensures Grouped() && group == g
      ensures old(group) == g ==> g.members == old(g.members)
      ensures old(group) != g ==> g.members == [this] + old(g.members)
      ensures old(group) != null && old(group) != g ==>
                old(group).Valid() && old(group).members == Without(old(group.members), this)
      ensures old(group) != g ==>
                forall d: Direction ::
                  Suspended(d) == old(Suspended(d)) - {GroupBandwidth}
                                  + if g.IsSuspended(d) then {GroupBandwidth} else {}
    {
      if group == g { return; }
      if group != null {
        assert this !in g.members;
        RemoveFromGroup(true);
      }
      Join(g);
    }

    function MaxSingle(d: Direction): int
      reads this
    {
      if d.Read? then maxSingleRead else maxSingleWrite
    }

    /**
     * The group's part of bufferevent_get_rlim_max_. A member that was missed when the group was suspended
     * learns of it here.
     */
    method GroupShare(d: Direction) returns (share: int)
      requires Grouped() && group != null
      modifies this`readSuspended, this`writeSuspended
      ensures Grouped() && Valid() == old(Valid())
      ensures share == Share(group.IsSuspended(d), group.bucket.Value().Of(d), group.nMembers, group.minShare)
      ensures Suspended(d) == old(Suspended(d)) + if group.IsSuspended(d) then {GroupBandwidth} else {}
      ensures Suspended(Other(d)) == old(Suspended(Other(d)))
    {
      if group.IsSuspended(d) {
        Suspend(d, GroupBandwidth);
        share := 0;
      } else {
        share := TruncatedQuotient(group.bucket.Value().Of(d), group.nMembers);
        if share < group.minShare { share := group.minShare; }
      }
    }

    /**
     * bufferevent_get_rlim_max_: how much may be read or written now. A configuration replaces the
     * connection's fixed maximum, a group can only lower it.
     */
    method RlimMax(d: Direction, tick: u32) returns (max: int)
      requires Valid() && Grouped()
      modifies limit, this`readSuspended, this`writeSuspended
      ensures Valid() <==> old(NoneWraps(cfg, limit.Value(), tick, readSuspended, writeSuspended))
      ensures Grouped()
      ensures limit.Value() == if cfg == null then old(limit.Value())
                               else Updated(old(limit.Value()), cfg.read, cfg.write, tick)
      ensures var own := if cfg != null then limit.Value().Of(d) else if d.Read? then maxSingleRead else maxSingleWrite;
              max == if group == null then AtLeast0(own)
                     else AtLeast0(Min(own, Share(group.IsSuspended(d), group.bucket.Value().Of(d),
                                                  group.nMembers, group.minShare)))
      ensures Suspended(d) == old(Suspended(d))
                              + if group != null && group.IsSuspended(d) then {GroupBandwidth} else {}
      ensures Suspended(Other(d)) == old(Suspended(Other(d)))
      ensures old(WithinMaximum(cfg, limit.Value())) ==> WithinMaximum(cfg, limit.Value())
    {
      hide Updated, WithinMaximum, Share, TruncatedQuotient, Group.Valid;
      var maxSoFar := MaxSingle(d);
      if cfg != null {
        UpdateBuckets(tick);
        maxSoFar := limit.Value().Of(d);
      }
      if group != null {
        var share := GroupShare(d);
        if maxSoFar > share { maxSoFar := share; }
      }
      if maxSoFar < 0 { maxSoFar := 0; }
      return maxSoFar;
    }

    function GroupMembers(): seq<Bufferevent>
      reads this, group
    {
      if group == null then [] else group.members
    }

    function GroupBucket(): set<TokenBucket>
      reads this, group
    {
      if group == null then {} else {group.bucket}
    }

    /**
     * bufferevent_decrement_read_buckets_ and its twin: the connection pays, and so does its group. Every
     * connection of the group stays in order.
     */
    method Charge(d: Direction, bytes: int, busy: set<Bufferevent>, which: nat)
      requires Valid() && Grouped()
      requires -SSIZE_MAX - 1 <= limit.Value().Of(d) - bytes <= SSIZE_MAX
      requires group != null ==>
                 which < |group.members| && -SSIZE_MAX - 1 <= group.bucket.Value().Of(d) - bytes <= SSIZE_MAX
      modifies this`timerPending, this`readSuspended, this`writeSuspended, limit, GroupBucket()
      modifies OwnGroup()`readSuspended, OwnGroup()`writeSuspended
      modifies OwnGroup()`pendingUnsuspendRead, OwnGroup()`pendingUnsuspendWrite
      modifies GroupMembers()`readSuspended, GroupMembers()`writeSuspended
      ensures Valid() && Grouped()
      ensures cfg != null ==>
                && limit.Value().Of(d) == old(limit.Value().Of(d)) - bytes
                && (Bandwidth in Suspended(d) <==> limit.Value().Of(d) <= 0)
      ensures cfg == null ==> limit.Value() == old(limit.Value())
      ensures limit.Value().Of(Other(d)) == old(limit.Value().Of(Other(d))) && Suspended(Other(d)) == old(Suspended(Other(d)))
      ensures group != null ==>
                && group.bucket.Value().Of(d) == old(group.bucket.Value().Of(d)) - bytes
                && group.bucket.Value().Of(Other(d)) == old(group.bucket.Value().Of(Other(d)))
                && (group.IsSuspended(d) <==> group.bucket.Value().Of(d) <= 0)
                && forall m :: m in group.members && m !in busy && group.IsSuspended(d) ==> GroupBandwidth in m.Suspended(d)
      ensures forall m :: m in GroupMembers() && m != this && m.limit != limit && m.limit !in GroupBucket() ==>
                (old(m.Valid()) ==> m.Valid())
    {
      hide NoRepeat;
      Decrement(d, bytes);
      assert forall r: set<Reason> :: GroupBandwidth in r <==> GroupBandwidth in r - {Bandwidth};
      if group != null {
        assert forall r: set<Reason> :: Bandwidth in r <==> Bandwidth in r - {GroupBandwidth};
        group.Decrement(d, bytes, busy, which);
      }
    }
  }

  /** A bucket in order that one tick puts out of order: nothing is suspended, and no token is left. */
  lemma WrapForgets(cfg: BucketCfg)
    requires cfg.read == cfg.write == Allowance(1, 1)
    ensures var b := Bucket(SSIZE_MAX, 1, 0);
            && BucketFits(cfg, b, {}, {})
            && Updated(b, cfg.read, cfg.write, 1).readLimit == -SSIZE_MAX - 1
            && !BucketFits(cfg, Updated(b, cfg.read, cfg.write, 1), {}, {})
  {
    hide Refilled;
    WrapsToTheBottom();
  }

  /**
   * A connection gets there by one configuration and one charge of negative size. Asked at the next tick it may
   * not read, but it is not suspended and no timer will wake it.
   */
  method ReachesForgotten() returns (bev: Bufferevent)
    ensures fresh(bev) && bev.cfg != null && bev.limit.readLimit == -SSIZE_MAX - 1
    ensures Bandwidth !in bev.readSuspended && !bev.timerPending && !bev.Valid()
  {
    hide Refilled;
    bev := new Bufferevent(0, 0);
    var cfg := new BucketCfg(Allowance(1, 1), Allowance(1, 1));
    bev.SetRateLimit(cfg, 0);
    assert GroupBandwidth !in bev.OtherReasons(Read) && GroupBandwidth !in bev.OtherReasons(Write);
    bev.Decrement(Read, 1 - SSIZE_MAX);
    assert GroupBandwidth !in bev.readSuspended - {Bandwidth} && GroupBandwidth !in bev.writeSuspended - {Bandwidth};
    assert bev.limit.Value().Of(Write) == 1 && bev.limit.Value().lastUpdated == 0;
    WrapForgets(cfg);
    var allowed := bev.RlimMax(Read, 1);
    assert allowed == 0;
  }

  function AtLeast0(x: int): nat { if x < 0 then 0 else x }

  /** Division as in C: the quotient is cut towards zero. */
  function TruncatedQuotient(x: int, n: int): int
    requires n > 0
  {
    if x >= 0 then x / n else -(-x / n)
  }

  /** What one member of a group may use. */
  function Share(suspended: bool, limit: int, nMembers: int, minShare: int): int
    requires nMembers > 0
  {
    if suspended then 0
    else if TruncatedQuotient(limit, nMembers) < minShare then minShare
    else TruncatedQuotient(limit, nMembers)
  }

  /**
   * The share is the largest one with which all members together get no more than the group has, unless the
   * smallest share forces more on it. A suspended group has none to give.
   */
  lemma SharesFit(limit: int, nMembers: int, minShare: nat)
    requires nMembers > 0
    ensures var share := Share(false, limit, nMembers, minShare);
            && share >= minShare && (share > minShare ==> nMembers * share <= limit)
            && limit < nMembers * (share + 1)
    ensures Share(true, limit, nMembers, minShare) == 0
  {
    var share, q := Share(false, limit, nMembers, minShare), TruncatedQuotient(limit, nMembers);
    assert nMembers * (share + 1) == nMembers * (q + 1) + nMembers * (share - q);
    if limit >= 0 {
      assert limit == nMembers * (limit / nMembers) + limit % nMembers;
    } else {
      assert -limit / nMembers >= 0;
    }
  }

  /** The reasons of a connection after one of them is added or taken away in one direction. */
  twostate predicate OnlyGroupReason(m: Bufferevent, d: Direction, set_: bool)
    reads m
  {
    && m.Suspended(d) == (if set_ then old(m.Suspended(d)) + {GroupBandwidth}
                          else old(m.Suspended(d)) - {GroupBandwidth})
    && SameReasons(m, Other(d))
  }

  twostate predicate SameReasons(m: Bufferevent, d: Direction)
    reads m
  {
    m.Suspended(d) == old(m.Suspended(d))
  }

  function Other(d: Direction): Direction {
    if d.Read? then Write else Read
  }

  /** A list from one of its elements to the end, and then from the start to that element. */
  function FromOn<T>(list: seq<T>, from: nat): seq<T>
    requires from <= |list|
  {
    list[from..|list|] + list[0..from]
  }

  lemma FromOnIsAll<T>(list: seq<T>, from: nat)
    requires from <= |list|
    ensures multiset(FromOn(list, from)) == multiset(list)
  {
    assert list == list[0..from] + list[from..|list|];
  }

  /** Whatever the start, that is each element of a list without repetition once. */
  lemma EachOnce<T>(list: seq<T>, from: nat, x: T)
    requires from <= |list|
    requires NoRepeat(list)
    ensures multiset(FromOn(list, from))[x] == if x in list then 1 else 0
  {
    FromOnIsAll(list, from);
    OnceInList(list, x);
  }

  const MIN_SHARE_DEFAULT := 64

  /** struct bufferevent_rate_limit_group. A connection in `busy` is one whose lock cannot be had at once. */
  class Group {
    var members: seq<Bufferevent>
    var nMembers: int
    var readSuspended: bool
    var writeSuspended: bool
    var pendingUnsuspendRead: bool
    var pendingUnsuspendWrite: bool
    var cfg: BucketCfg
    const bucket: TokenBucket
    var minShare: int
    var configuredMinShare: int

    function IsSuspended(d: Direction): bool
      reads this
    {
      if d.Read? then readSuspended else writeSuspended
    }

    function IsPending(d: Direction): bool
      reads this
    {
      if d.Read? then pendingUnsuspendRead else pendingUnsuspendWrite
    }

    /** The list: counted, without repetition, and each of its connections belongs here. */
    ghost predicate Listed()
      reads this, members
    {
      && nMembers == |members|
      && NoRepeat(members)
      && forall m :: m in members ==> m.group == this
    }

    /** Whoever is still held back by the group will be let go: the group is suspended or has it on its list. */
    ghost predicate NoneForgotten()
      reads this, members
    {
      forall m, d: Direction :: m in members && GroupBandwidth in m.Suspended(d) ==> IsSuspended(d) || IsPending(d)
    }

    ghost predicate Valid()
      reads this, members
    {
      Listed() && NoneForgotten()
    }

    /** bufferevent_rate_limit_group_new: the bucket starts with one tick's worth. */
    constructor (cfg: BucketCfg, tick: u32)
      ensures Valid() && fresh(bucket) && members == [] && this.cfg == cfg
      ensures bucket.Value() == Bucket(cfg.read.rate, cfg.write.rate, tick)
      ensures !readSuspended && !writeSuspended && !pendingUnsuspendRead && !pendingUnsuspendWrite
      ensures ShareFits() && configuredMinShare == MIN_SHARE_DEFAULT
    {
      members, nMembers := [], 0;
      readSuspended, writeSuspended := false, false;
      pendingUnsuspendRead, pendingUnsuspendWrite := false, false;
      this.cfg := cfg;
      var b := new TokenBucket();
      bucket := b;
      minShare, configuredMinShare := 0, 0;
      new;
      bucket.Init(cfg, tick, false);
      var _ := SetMinShare(MIN_SHARE_DEFAULT);
    }

    /** The smallest share is what was asked for, but never more than one tick brings in either direction. */
    predicate ShareFits()
      reads this
    {
      minShare == Min(configuredMinShare, Min(cfg.read.rate, cfg.write.rate))
    }

    /** bufferevent_rate_limit_group_set_min_share. */
    method SetMinShare(share: nat) returns (r: int)
      modifies this`minShare, this`configuredMinShare
      ensures r == if share > SSIZE_MAX then -1 else 0
      ensures share > SSIZE_MAX ==>
                minShare == old(minShare) && configuredMinShare == old(configuredMinShare)
      ensures share <= SSIZE_MAX ==> ShareFits() && configuredMinShare == share
    {
      if share > SSIZE_MAX { return -1; }
      configuredMinShare := share;
      var clipped: int := share;
      if clipped > cfg.read.rate { clipped := cfg.read.rate; }
      if clipped > cfg.write.rate { clipped := cfg.write.rate; }
      minShare := clipped;
      return 0;
    }

    method MarkSuspended(d: Direction, suspended: bool)
      modifies this`readSuspended, this`writeSuspended
      ensures IsSuspended(d) == suspended && IsSuspended(Other(d)) == old(IsSuspended(Other(d)))
    {
      if d.Read? { readSuspended := suspended; } else { writeSuspended := suspended; }
    }

    method MarkPending(d: Direction, pending: bool)
      modifies this`pendingUnsuspendRead, this`pendingUnsuspendWrite
      ensures IsPending(d) == pending && IsPending(Other(d)) == old(IsPending(Other(d)))
    {
      if d.Read? { pendingUnsuspendRead := pending; } else { pendingUnsuspendWrite := pending; }
    }

    /** bev_group_suspend_reading_ and its twin. */
    method SuspendAll(d: Direction, busy: set<Bufferevent>)
      requires Valid()
      modifies this`readSuspended, this`writeSuspended, this`pendingUnsuspendRead, this`pendingUnsuspendWrite
      modifies members`readSuspended, members`writeSuspended
      ensures Valid()
      ensures IsSuspended(d) && !IsPending(d)
      ensures IsSuspended(Other(d)) == old(IsSuspended(Other(d))) && IsPending(Other(d)) == old(IsPending(Other(d)))
      ensures forall m :: m in members ==>
                if m in busy then SameReasons(m, Read) && SameReasons(m, Write) else OnlyGroupReason(m, d, true)
    {
      MarkSuspended(d, true);
      MarkPending(d, false);
      for i := 0 to |members|
        invariant IsSuspended(d) && !IsPending(d)
        invariant IsSuspended(Other(d)) == old(IsSuspended(Other(d)))
        invariant IsPending(Other(d)) == old(IsPending(Other(d)))
        invariant forall k :: 0 <= k < i ==>
                    if members[k] in busy then SameReasons(members[k], Read) && SameReasons(members[k], Write)
                    else OnlyGroupReason(members[k], d, true)
        invariant forall k :: i <= k < |members| ==> SameReasons(members[k], Read) && SameReasons(members[k], Write)
      {
        if members[i] !in busy {
          members[i].Suspend(d, GroupBandwidth);
        }
      }
    }

    /** The loop body over a part of the list; tells whether some connection could not be locked. */
    method UnsuspendPart(d: Direction, busy: set<Bufferevent>, from: nat, to: nat)
      returns (again: bool, ghost met: seq<Bufferevent>)
      requires Listed() && from <= to <= |members|
      modifies members`readSuspended, members`writeSuspended
      ensures Listed()
      ensures again <==> exists k :: from <= k < to && members[k] in busy
      ensures met == members[from..to]
      ensures forall k :: 0 <= k < |members| ==>
                if from <= k < to && members[k] !in busy then OnlyGroupReason(members[k], d, false)
                else SameReasons(members[k], Read) && SameReasons(members[k], Write)
    {
      again, met := false, [];
      for i := from to to
        invariant met == members[from..i]
        invariant again <==> exists k :: from <= k < i && members[k] in busy
        invariant forall k :: from <= k < i ==>
                    if members[k] in busy then SameReasons(members[k], Read) && SameReasons(members[k], Write)
                    else OnlyGroupReason(members[k], d, false)
        invariant forall k :: 0 <= k < |members| && !(from <= k < i) ==>
                    SameReasons(members[k], Read) && SameReasons(members[k], Write)
      {
        if members[i] !in busy {
          members[i].Unsuspend(d, GroupBandwidth);
        } else {
          again := true;
        }
        met := met + [members[i]];
      }
    }

    /**
     * bev_group_unsuspend_reading_ and its twin, from a random member on: the list from `which` to its end,
     * then its beginning up to `which`. Each member is met once.
     */
    method UnsuspendAll(d: Direction, busy: set<Bufferevent>, which: nat)
      returns (ghost met: seq<Bufferevent>)
      requires Valid()
      requires members == [] || which < |members|
      modifies this`readSuspended, this`writeSuspended, this`pendingUnsuspendRead, this`pendingUnsuspendWrite
      modifies members`readSuspended, members`writeSuspended
      ensures Valid()
      ensures met == FromOn(members, if members == [] then 0 else which)
      ensures !IsSuspended(d) && (IsPending(d) <==> exists m :: m in members && m in busy)
      ensures IsSuspended(Other(d)) == old(IsSuspended(Other(d))) && IsPending(Other(d)) == old(IsPending(Other(d)))
      ensures forall m :: m in members ==>
                if m in busy then SameReasons(m, Read) && SameReasons(m, Write) else OnlyGroupReason(m, d, false)
    {
      MarkSuspended(d, false);
      var first := if members == [] then 0 else which;
      ghost var late, early;
      var again, more;
      again, late := UnsuspendPart(d, busy, first, |members|);
      more, early := UnsuspendPart(d, busy, 0, first);
      MarkPending(d, again || more);
      met := late + early;
    }

    /** The group's part of bufferevent_decrement_read_buckets_ and its twin. */
    method Decrement(d: Direction, bytes: int, busy: set<Bufferevent>, which: nat)
      requires Valid()
      requires members == [] || which < |members|
      requires -SSIZE_MAX - 1 <= bucket.Value().Of(d) - bytes <= SSIZE_MAX
      modifies bucket
      modifies this`readSuspended, this`writeSuspended, this`pendingUnsuspendRead, this`pendingUnsuspendWrite
      modifies members`readSuspended, members`writeSuspended
      ensures Valid()
      ensures bucket.Value().Of(d) == old(bucket.Value().Of(d)) - bytes
      ensures bucket.Value().Of(Other(d)) == old(bucket.Value().Of(Other(d)))
      ensures bucket.lastUpdated == old(bucket.lastUpdated)
      ensures IsSuspended(d) <==> bucket.Value().Of(d) <= 0
      ensures IsPending(d) <==>
              if bucket.Value().Of(d) <= 0 then false
              else if old(IsSuspended(d)) then exists m :: m in members && m in busy else old(IsPending(d))
      ensures forall m :: m in members ==> SameReasons(m, Other(d))
      ensures forall m :: m in members ==>
                if m in busy || (bucket.Value().Of(d) > 0 && !old(IsSuspended(d))) then SameReasons(m, d)
                else OnlyGroupReason(m, d, bucket.Value().Of(d) <= 0)
      ensures IsSuspended(Other(d)) == old(IsSuspended(Other(d))) && IsPending(Other(d)) == old(IsPending(Other(d)))
    {
      if d.Read? {
        bucket.readLimit := bucket.readLimit - bytes;
      } else {
        bucket.writeLimit := bucket.writeLimit - bytes;
      }
      if bucket.Value().Of(d) <= 0 {
        SuspendAll(d, busy);
      } else if IsSuspended(d) {
        ghost var _ := UnsuspendAll(d, busy, which);
      }
    }

    /**
     * After a refill a direction goes on if it was to be let go already, or was suspended and the bucket now has the
     * smallest share. Then every connection whose lock can be had goes on, and the others are remembered;
     * otherwise nothing changes.
     */
    twostate predicate LetsGo(d: Direction, busy: set<Bufferevent>)
      reads this, members, bucket
    {
      var go := old(IsPending(d)) || (old(IsSuspended(d)) && bucket.Value().Of(d) >= minShare);
      && IsSuspended(d) == (old(IsSuspended(d)) && !go)
      && (IsPending(d) <==> go && exists m :: m in members && m in busy)
      && members == old(members)
      && forall m :: m in members ==> AllowedTo(m, d, go && m !in busy)
    }

    twostate predicate AllowedTo(m: Bufferevent, d: Direction, go: bool)
      reads m
    {
      m.Suspended(d) == old(m.Suspended(d)) - if go then {GroupBandwidth} else {}
    }

    /** One direction of the group's refill, after the bucket has been updated. */
    method RefillOne(d: Direction, busy: set<Bufferevent>, which: nat)
      requires Valid()
      requires members == [] || which < |members|
      modifies this`readSuspended, this`writeSuspended, this`pendingUnsuspendRead, this`pendingUnsuspendWrite
      modifies members`readSuspended, members`writeSuspended
      ensures Valid()
      ensures LetsGo(d, busy) && forall m :: m in members ==> SameReasons(m, Other(d))
      ensures IsSuspended(Other(d)) == old(IsSuspended(Other(d))) && IsPending(Other(d)) == old(IsPending(Other(d)))
    {
      if IsPending(d) || (IsSuspended(d) && bucket.Value().Of(d) >= minShare) {
        ghost var _ := UnsuspendAll(d, busy, which);
      }
    }

    /**
     * bev_group_refill_callback_, which runs with every tick. The locks that cannot be had, and the member to
     * start from, are independent for the two directions.
     */
    method Refill(tick: u32, busyReading: set<Bufferevent>, firstReading: nat,
                  busyWriting: set<Bufferevent>, firstWriting: nat)
      requires Valid()
      requires members == [] || (firstReading < |members| && firstWriting < |members|)
      modifies bucket
      modifies this`readSuspended, this`writeSuspended, this`pendingUnsuspendRead, this`pendingUnsuspendWrite
      modifies members`readSuspended, members`writeSuspended
      ensures Valid()
      ensures bucket.Value() == Updated(old(bucket.Value()), cfg.read, cfg.write, tick)
      ensures LetsGo(Read, busyReading) && LetsGo(Write, busyWriting)
    {
      hide Updated;
      var _ := bucket.Update(cfg, tick);
      label Updated:
      RefillOne(Read, busyReading, firstReading);
      assert LetsGo@Updated(Read, busyReading);
      RefillOne(Write, busyWriting, firstWriting);
    }

    /** bufferevent_rate_limit_group_set_cfg: the limits are only clipped. */
    method SetCfg(newCfg: BucketCfg)
      requires Valid() && 0 <= configuredMinShare <= SSIZE_MAX
      modifies bucket, this`cfg, this`minShare, this`configuredMinShare
      ensures Valid() && cfg == newCfg && ShareFits() && configuredMinShare == old(configuredMinShare)
      ensures forall d: Direction ::
                bucket.Value().Of(d) == Min(old(bucket.Value().Of(d)), newCfg.Of(d).maximum)
      ensures bucket.lastUpdated == old(bucket.lastUpdated)
    {
      cfg := newCfg;
      if bucket.readLimit > cfg.read.maximum { bucket.readLimit := cfg.read.maximum; }
      if bucket.writeLimit > cfg.write.maximum { bucket.writeLimit := cfg.write.maximum; }
      var _ := SetMinShare(configuredMinShare);
    }
  }
}
