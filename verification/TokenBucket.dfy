/**
 * Token buckets: how many bytes may be read and written now, refilled by a rate with every clock tick up to a
 * maximum. Limits are signed 64-bit numbers, ticks are unsigned 32-bit numbers that wrap around, and the
 * refill is computed in unsigned 64-bit arithmetic.
 */
module TokenBuckets {
  import opened Words

  const TWO_32 := 0x1_0000_0000
  const TWO_64 := 0x1_0000_0000_0000_0000
  const INT_MAX := 0x7FFF_FFFF
  const SSIZE_MAX := 0x7FFF_FFFF_FFFF_FFFF

  type i64 = x: int | -SSIZE_MAX - 1 <= x <= SSIZE_MAX

  function U64(x: int): (u: nat)
    ensures u < TWO_64
  {
    x % TWO_64
  }

  /** An unsigned 64-bit number read as a signed one. */
  function S64(u: nat): i64
    requires u < TWO_64
  {
    if u <= SSIZE_MAX then u else u - TWO_64
  }

  datatype Direction = Read | Write

  /** What one direction gets with each tick, and the most it can save up. */
  datatype Allowance = Allowance(rate: int, maximum: int) {
    predicate Sensible() { 1 <= rate <= maximum <= SSIZE_MAX }
  }

  type Allowed = a: Allowance | a.Sensible() witness Allowance(1, 1)

  /** struct ev_token_bucket_cfg; configurations are told apart by their address. */
  class BucketCfg {
    const read: Allowed
    const write: Allowed

    constructor (read: Allowed, write: Allowed)
      ensures this.read == read && this.write == write
    {
      this.read, this.write := read, write;
    }

    function Of(direction: Direction): Allowed {
      if direction.Read? then read else write
    }
  }

  /** ev_token_bucket_cfg_new: a rate of at least one and at most the burst, and nothing beyond ssize_t. */
  method CfgNew(readRate: nat, readBurst: nat, writeRate: nat, writeBurst: nat) returns (cfg: BucketCfg?)
    ensures cfg != null <==>
              && Allowance(readRate, readBurst).Sensible()
              && Allowance(writeRate, writeBurst).Sensible()
    ensures cfg != null ==>
              fresh(cfg) && cfg.read == Allowance(readRate, readBurst) && cfg.write == Allowance(writeRate, writeBurst)
  {
    if readRate > readBurst || writeRate > writeBurst || readRate < 1 || writeRate < 1 {
      return null;
    }
    if readRate > SSIZE_MAX || writeRate > SSIZE_MAX || readBurst > SSIZE_MAX || writeBurst > SSIZE_MAX {
      return null;
    }
    cfg := new BucketCfg(Allowance(readRate, readBurst), Allowance(writeRate, writeBurst));
  }

  // ----- Refilling -----

  /** Ticks since the last update in unsigned arithmetic; none when the clock stands or seems to run back. */
  function Elapsed(last: u32, tick: u32): (n: nat)
    ensures n <= INT_MAX
  {
    var n := (tick - last) % TWO_32;
    if n > INT_MAX then 0 else n
  }

  /** The refill of one limit as it is computed: the test for overflow comes first, in unsigned arithmetic. */
  function Refilled(limit: i64, a: Allowed, ticks: nat): i64
    requires 1 <= ticks <= INT_MAX
  {
    if U64(a.maximum - limit) / ticks < a.rate then a.maximum
    else S64(U64(limit + U64(ticks * a.rate)))
  }

  /** The refill that is meant. */
  function Naive(limit: int, a: Allowance, ticks: nat): int {
    if limit + ticks * a.rate > a.maximum then a.maximum else limit + ticks * a.rate
  }

  lemma MulOrder(n: nat, a: int, b: int)
    requires a <= b
    ensures n * a <= n * b
  {
  }

  lemma QuotientBelow(d: nat, n: nat, rate: nat)
    requires n >= 1
    ensures d / n < rate <==> d < n * rate
  {
    var q := d / n;
    assert d == n * q + d % n;
    if q < rate {
      MulOrder(n, q + 1, rate);
      assert n * (q + 1) == n * q + n;
    } else {
      MulOrder(n, rate, q);
    }
  }

  /** What is missing up to the maximum, in unsigned arithmetic: it wraps for a limit above the maximum. */
  function Gap(limit: i64, a: Allowed): (gap: nat)
    ensures gap < TWO_64
  {
    if limit <= a.maximum then a.maximum - limit else TWO_64 - (limit - a.maximum)
  }

  lemma UnsignedGap(limit: i64, a: Allowed)
    ensures U64(a.maximum - limit) == Gap(limit, a)
  {
  }

  /** Adding what does not overflow the gap, in unsigned arithmetic. */
  lemma UnsignedSum(limit: i64, more: nat)
    requires more < TWO_64
    ensures S64(U64(limit + U64(more)))
            == if limit + more <= SSIZE_MAX then limit + more else limit + more - TWO_64
  {
    assert -SSIZE_MAX - 1 <= limit + more < SSIZE_MAX + 1 + TWO_64;
  }

  lemma RefillCases(limit: i64, a: Allowed, ticks: nat)
    requires 1 <= ticks <= INT_MAX
    ensures var more := ticks * a.rate;
            && more >= 1
            && Refilled(limit, a, ticks)
               == if more > Gap(limit, a) then a.maximum
                  else if limit + more <= SSIZE_MAX then limit + more else limit + more - TWO_64
  {
    hide U64, S64;
    var more := ticks * a.rate;
    AtLeastRate(ticks, a.rate);
    UnsignedGap(limit, a);
    QuotientBelow(U64(a.maximum - limit), ticks, a.rate);
    if more <= U64(a.maximum - limit) {
      UnsignedSum(limit, more);
    }
  }

  lemma AtLeastRate(ticks: nat, rate: nat)
    requires ticks >= 1
    ensures ticks * rate >= rate
  {
  }

  /**
   * The computed refill is the meant one exactly when the limit was not above its maximum, or so much came in
   * that even the wrapped gap is filled. Above the maximum it otherwise goes on growing.
   */
  lemma RefillIsNaiveIff(limit: i64, a: Allowed, ticks: nat)
    requires 1 <= ticks <= INT_MAX
    ensures Refilled(limit, a, ticks) == Naive(limit, a, ticks)
            <==> limit <= a.maximum || TWO_64 - (limit - a.maximum) <= ticks * a.rate
  {
    hide Refilled;
    RefillCases(limit, a, ticks);
  }

  /** Ten million bytes above the maximum, one tick of rate one: the limit grows by one instead of shrinking. */
  lemma AboveTheMaximumItGrows()
    ensures Refilled(10_000_001, Allowance(1, 1), 1) == 10_000_002
  {
    UnsignedGap(10_000_001, Allowance(1, 1));
    UnsignedSum(10_000_001, 1);
  }

  /** The refills that make a limit negative although it was positive, or leave nothing of it. */
  predicate Wraps(limit: i64, a: Allowed, ticks: nat) {
    limit > a.maximum && SSIZE_MAX < limit + ticks * a.rate <= TWO_64
  }

  lemma PositiveIff(limit: i64, a: Allowed, ticks: nat)
    requires 1 <= ticks <= INT_MAX && limit > 0
    ensures Refilled(limit, a, ticks) > 0 <==> !Wraps(limit, a, ticks)
  {
    hide Refilled;
    RefillCases(limit, a, ticks);
  }

  /** The largest limit there is and one tick: the most negative limit. */
  lemma WrapsToTheBottom()
    ensures Wraps(SSIZE_MAX, Allowance(1, 1), 1)
    ensures Refilled(SSIZE_MAX, Allowance(1, 1), 1) == -SSIZE_MAX - 1
  {
    hide Refilled;
    RefillCases(SSIZE_MAX, Allowance(1, 1), 1);
  }

  /** The value of a bucket. */
  datatype Bucket = Bucket(readLimit: i64, writeLimit: i64, lastUpdated: u32) {
    function Of(direction: Direction): i64 {
      if direction.Read? then readLimit else writeLimit
    }
  }

  function Later(limit: i64, a: Allowed, ticks: nat): i64
    requires ticks <= INT_MAX
  {
    if ticks == 0 then limit else Refilled(limit, a, ticks)
  }

  function Updated(b: Bucket, read: Allowed, write: Allowed, tick: u32): Bucket {
    var n := Elapsed(b.lastUpdated, tick);
    if n == 0 then b else Bucket(Refilled(b.readLimit, read, n), Refilled(b.writeLimit, write, n), tick)
  }

  lemma RefillIsNaive(limit: i64, a: Allowed, n: nat)
    requires limit <= a.maximum && n <= INT_MAX
    ensures Later(limit, a, n) == Naive(limit, a, n) <= a.maximum
  {
    hide Refilled;
    if n > 0 {
      RefillIsNaiveIff(limit, a, n);
    }
  }

  /** A refill makes the gap smaller by what comes in, down to nothing, whether or not the limit wraps. */
  lemma GapShrinks(limit: i64, a: Allowed, n: nat)
    requires n <= INT_MAX
    ensures Gap(Later(limit, a, n), a) == if n * a.rate > Gap(limit, a) then 0 else Gap(limit, a) - n * a.rate
  {
    hide Refilled;
    if n > 0 {
      RefillCases(limit, a, n);
    }
  }

  lemma SameGap(x: i64, y: i64, a: Allowed)
    requires Gap(x, a) == Gap(y, a)
    ensures x == y
  {
  }

  lemma TogetherIn(n: nat, m: nat, rate: nat)
    ensures (n + m) * rate == n * rate + m * rate
    ensures n * rate >= 0 && m * rate >= 0
  {
  }

  /** Two refills are one, for every limit. */
  lemma TwoRefills(limit: i64, a: Allowed, n: nat, m: nat)
    requires n + m <= INT_MAX
    ensures Later(Later(limit, a, n), a, m) == Later(limit, a, n + m)
  {
    hide Later, Gap, Refilled;
    var middle := Later(limit, a, n);
    GapShrinks(limit, a, n);
    GapShrinks(middle, a, m);
    GapShrinks(limit, a, n + m);
    TogetherIn(n, m, a.rate);
    SameGap(Later(middle, a, m), Later(limit, a, n + m), a);
  }

  lemma ElapsedAdds(last: u32, between: u32, tick: u32)
    requires (between - last) % TWO_32 + (tick - between) % TWO_32 <= INT_MAX
    ensures Elapsed(last, tick) == Elapsed(last, between) + Elapsed(between, tick)
    ensures Elapsed(last, between) == 0 ==> last == between
    ensures Elapsed(between, tick) == 0 ==> between == tick
  {
  }

  /** Looking at a bucket in between does not change what it holds later, whatever it holds. */
  lemma UpdateThrough(b: Bucket, read: Allowed, write: Allowed, between: u32, tick: u32)
    requires (between - b.lastUpdated) % TWO_32 + (tick - between) % TWO_32 <= INT_MAX
    ensures Updated(Updated(b, read, write, between), read, write, tick) == Updated(b, read, write, tick)
  {
    hide Refilled, Elapsed;
    var n, m := Elapsed(b.lastUpdated, between), Elapsed(between, tick);
    ElapsedAdds(b.lastUpdated, between, tick);
    TwoRefills(b.readLimit, read, n, m);
    TwoRefills(b.writeLimit, write, n, m);
  }

  /** struct ev_token_bucket. */
  class TokenBucket {
    var readLimit: i64
    var writeLimit: i64
    var lastUpdated: u32

    function Value(): Bucket
      reads this
    {
      Bucket(readLimit, writeLimit, lastUpdated)
    }

    constructor ()
      ensures Value() == Bucket(0, 0, 0)
    {
      readLimit, writeLimit, lastUpdated := 0, 0, 0;
    }

    /** ev_token_bucket_init_: a first set-up grants one tick's worth; a new configuration only clips. */
    method Init(cfg: BucketCfg, tick: u32, reinitialize: bool)
      modifies this
      ensures reinitialize ==>
                && readLimit == (if old(readLimit) > cfg.read.maximum then cfg.read.maximum else old(readLimit))
                && writeLimit == (if old(writeLimit) > cfg.write.maximum then cfg.write.maximum else old(writeLimit))
                && lastUpdated == old(lastUpdated)
      ensures !reinitialize ==> Value() == Bucket(cfg.read.rate, cfg.write.rate, tick)
    {
      if reinitialize {
        if readLimit > cfg.read.maximum { readLimit := cfg.read.maximum; }
        if writeLimit > cfg.write.maximum { writeLimit := cfg.write.maximum; }
      } else {
        readLimit, writeLimit, lastUpdated := cfg.read.rate, cfg.write.rate, tick;
      }
    }

    /** ev_token_bucket_update_. */
    method Update(cfg: BucketCfg, tick: u32) returns (changed: bool)
      modifies this
      ensures Value() == Updated(old(Value()), cfg.read, cfg.write, tick)
      ensures changed <==> Elapsed(old(lastUpdated), tick) > 0
    {
      var ticks := (tick - lastUpdated) % TWO_32;
      if ticks == 0 || ticks > INT_MAX { return false; }
      if U64(cfg.read.maximum - readLimit) / ticks < cfg.read.rate {
        readLimit := cfg.read.maximum;
      } else {
        readLimit := S64(U64(readLimit + U64(ticks * cfg.read.rate)));
      }
      if U64(cfg.write.maximum - writeLimit) / ticks < cfg.write.rate {
        writeLimit := cfg.write.maximum;
      } else {
        writeLimit := S64(U64(writeLimit + U64(ticks * cfg.write.rate)));
      }
      lastUpdated := tick;
      return true;
    }
  }
}
