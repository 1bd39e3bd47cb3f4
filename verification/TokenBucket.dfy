/** Token buckets: the overflow-safe refill, and the bandwidth that a bucket lets through over a whole run. */
module TokenBuckets {

  const UINT32: nat := 0x1_0000_0000
  const INT_MAX: int := 0x7fff_ffff
  const SIZE_T: nat := 0x1_0000_0000_0000_0000
  /** EV_RATE_LIMIT_MAX, which is EV_SSIZE_MAX */
  const RATE_MAX: int := 0x7fff_ffff_ffff_ffff

  /** Conversion to size_t and, of a size_t, to ev_ssize_t. */
  function AsSize(x: int): nat {
    x % SIZE_T
  }

  function AsSsize(x: int): int {
    var u := x % SIZE_T;
    if u <= RATE_MAX then u else u - SIZE_T
  }

  predicate IsSsize(x: int) {
    -RATE_MAX - 1 <= x <= RATE_MAX
  }

  /** The limits that ev_token_bucket_cfg_new lets through, for one direction. */
  predicate RatesOk(rate: int, maximum: int) {
    1 <= rate <= maximum <= RATE_MAX
  }

  /** The number of ticks since last_updated, as the unsigned 32-bit subtraction gives it. */
  function Ticks(current: nat, last: nat): nat {
    (current - last) % UINT32
  }

  predicate Accepted(n: nat) {
    0 < n <= INT_MAX
  }

  /** One direction of ev_token_bucket_update, in the C types. */
  function Refill(limit: int, rate: nat, maximum: nat, n: nat): int
    requires n > 0
  {
    if AsSize(maximum - limit) / n < rate then maximum
    else AsSsize(limit + AsSize(n * rate))
  }

  /** The tokens of n ticks. */
  function Tokens(n: nat, rate: nat): nat {
    n * rate
  }

  function Min(a: int, b: int): int {
    if a <= b then a else b
  }

  lemma {:induction false} DivBelow(d: nat, n: nat, rate: nat)
    requires n > 0
    ensures d / n < rate <==> d < n * rate
  {
    var k := d / n;
    assert d == n * k + d % n && 0 <= d % n < n;
    if k < rate {
      assert n * (k + 1) <= n * rate;
    } else {
      assert n * rate <= n * k;
    }
  }

  /** The refill is the naive sum, cut off at the maximum, exactly when the bucket is not over its maximum or the new
      tokens reach round to it. */
  lemma {:induction false} RefillExact(limit: int, rate: nat, maximum: nat, n: nat)
    requires RatesOk(rate, maximum) && IsSsize(limit) && Accepted(n)
    ensures Refill(limit, rate, maximum, n) == Min(maximum, limit + n * rate) <==>
            limit <= maximum || n * rate >= SIZE_T - (limit - maximum)
    ensures limit <= maximum ==>
              var r := Refill(limit, rate, maximum, n);
              limit < r <= maximum || limit == maximum == r
  {
    RefillTest(limit, rate, maximum, n);
    hide Refill;
    RefillBy(limit, n * rate, maximum);
  }

  /** The division tests whether the product is more than the room. */
  lemma {:induction false} RefillTest(limit: int, rate: nat, maximum: nat, n: nat)
    requires n > 0 && rate >= 1
    ensures n * rate >= 1
    ensures Refill(limit, rate, maximum, n)
         == if AsSize(maximum - limit) < n * rate then maximum else AsSsize(limit + AsSize(n * rate))
  {
    hide AsSize, AsSsize;
    DivBelow(AsSize(maximum - limit), n, rate);
    assert n * rate >= n * 1;
  }

  /** The same, of p new tokens. */
  lemma {:induction false} RefillBy(limit: int, p: nat, maximum: nat)
    requires IsSsize(limit) && 1 <= maximum <= RATE_MAX && p >= 1
    ensures var r := if AsSize(maximum - limit) < p then maximum else AsSsize(limit + AsSize(p));
            && (r == Min(maximum, limit + p) <==> limit <= maximum || p >= SIZE_T - (limit - maximum))
            && (limit <= maximum ==> limit < r <= maximum || limit == maximum == r)
  {
    var d := AsSize(maximum - limit);
    if p <= d {
      assert AsSize(p) == p;
      if limit <= maximum {
        assert d == maximum - limit;
        assert AsSsize(limit + p) == limit + p;
      } else {
        assert d == maximum - limit + SIZE_T;
        WrappedSum(limit, p, maximum);
      }
    }
  }

  lemma {:induction false} WrappedSum(limit: int, p: nat, maximum: nat)
    requires limit <= RATE_MAX && 0 <= maximum < limit && p <= SIZE_T - (limit - maximum)
    ensures AsSsize(limit + p) == maximum <==> p == SIZE_T - (limit - maximum)
  {
    var s := limit + p;
    assert s <= SIZE_T + maximum;
    assert s % SIZE_T == if s < SIZE_T then s else s - SIZE_T;
  }

  datatype Cfg = Cfg(readRate: nat, readMax: nat, writeRate: nat, writeMax: nat)

  predicate CfgOk(cfg: Cfg) {
    RatesOk(cfg.readRate, cfg.readMax) && RatesOk(cfg.writeRate, cfg.writeMax)
  }

  /** ev_token_bucket_cfg_new: what it refuses. */
  function CfgNew(readRate: nat, readBurst: nat, writeRate: nat, writeBurst: nat): (r: (bool, Cfg))
    ensures r.0 <==> CfgOk(Cfg(readRate, readBurst, writeRate, writeBurst))
    ensures r.0 ==> CfgOk(r.1)
  {
    if readRate > readBurst || writeRate > writeBurst || readRate < 1 || writeRate < 1 then (false, Cfg(0, 0, 0, 0))
    else if readRate > RATE_MAX || writeRate > RATE_MAX || readBurst > RATE_MAX || writeBurst > RATE_MAX then
      (false, Cfg(0, 0, 0, 0))
    else (true, Cfg(readRate, readBurst, writeRate, writeBurst))
  }

  class TokenBucket {
    var readLimit: int
    var writeLimit: int
    var lastUpdated: nat

    predicate Fits(cfg: Cfg)
      reads this
    {
      && IsSsize(readLimit) && IsSsize(writeLimit) && lastUpdated < UINT32
      && readLimit <= cfg.readMax && writeLimit <= cfg.writeMax
    }

    /** ev_token_bucket_init, the first time */
    constructor (cfg: Cfg, tick: nat)
      requires CfgOk(cfg) && tick < UINT32
      ensures Fits(cfg) && readLimit == cfg.readRate && writeLimit == cfg.writeRate && lastUpdated == tick
    {
      readLimit, writeLimit, lastUpdated := cfg.readRate, cfg.writeRate, tick;
    }

    /** ev_token_bucket_init for a new configuration: the limits are only clipped. */
    method Reinit(was: Cfg, cfg: Cfg)
      requires CfgOk(was) && CfgOk(cfg) && Fits(was)
      modifies this`readLimit, this`writeLimit
      ensures Fits(cfg)
      ensures readLimit == Min(old(readLimit), cfg.readMax) && writeLimit == Min(old(writeLimit), cfg.writeMax)
    {
      if readLimit > cfg.readMax { readLimit := cfg.readMax; }
      if writeLimit > cfg.writeMax { writeLimit := cfg.writeMax; }
    }

    /** ev_token_bucket_update: nothing if no tick passed or time went back, else both limits as if no integer could
        overflow. */
    method Update(cfg: Cfg, tick: nat) returns (updated: bool)
      requires CfgOk(cfg) && Fits(cfg) && tick < UINT32
      modifies this
      ensures Fits(cfg) && updated == Accepted(Ticks(tick, old(lastUpdated)))
      ensures !updated ==>
              readLimit == old(readLimit) && writeLimit == old(writeLimit) && lastUpdated == old(lastUpdated)
      ensures updated ==>
              && lastUpdated == tick
              && readLimit == Min(cfg.readMax, old(readLimit) + Tokens(Ticks(tick, old(lastUpdated)), cfg.readRate))
              && writeLimit == Min(cfg.writeMax, old(writeLimit) + Tokens(Ticks(tick, old(lastUpdated)), cfg.writeRate))
    {
      var n := Ticks(tick, lastUpdated);
      if n == 0 || n > INT_MAX {
        return false;
      }
      RefillExact(readLimit, cfg.readRate, cfg.readMax, n);
      RefillExact(writeLimit, cfg.writeRate, cfg.writeMax, n);
      hide Refill;
      readLimit := Refill(readLimit, cfg.readRate, cfg.readMax, n);
      writeLimit := Refill(writeLimit, cfg.writeRate, cfg.writeMax, n);
      lastUpdated := tick;
      updated := true;
    }

    /** The part of _bufferevent_get_rlim_max that is about the connection's own bucket, reading. */
    method ReadMax(cfg: Cfg, tick: nat) returns (max: nat)
      requires CfgOk(cfg) && Fits(cfg) && tick < UINT32
      modifies this
      ensures Fits(cfg)
      ensures max == if readLimit < 0 then 0 else readLimit
      ensures var n := Ticks(tick, old(lastUpdated));
              if Accepted(n) then
                lastUpdated == tick && readLimit == Min(cfg.readMax, old(readLimit) + Tokens(n, cfg.readRate))
              else readLimit == old(readLimit) && lastUpdated == old(lastUpdated)
    {
      if tick != lastUpdated {
        var _ := Update(cfg, tick);
      }
      max := if readLimit < 0 then 0 else readLimit;
    }

    /** ev_token_bucket_decrement_read */
    method ChargeRead(cfg: Cfg, bytes: nat)
      requires CfgOk(cfg) && Fits(cfg) && IsSsize(readLimit - bytes)
      modifies this`readLimit
      ensures Fits(cfg) && readLimit == old(readLimit) - bytes
    {
      readLimit := readLimit - bytes;
    }

    /** One read: the clock is looked at, and of the bytes wanted as many as are granted are used. */
    method ReadOnce(cfg: Cfg, tick: nat, want: nat) returns (bytes: nat)
      requires CfgOk(cfg) && Fits(cfg) && readLimit >= 0 && tick < UINT32
      modifies this
      ensures Fits(cfg) && readLimit >= 0 && bytes <= want
      ensures var n := Ticks(tick, old(lastUpdated));
              && lastUpdated == (if Accepted(n) then tick else old(lastUpdated))
              && bytes + readLimit <= old(readLimit) + (if Accepted(n) then Tokens(n, cfg.readRate) else 0)
    {
      hide Ticks, Tokens;
      var max := ReadMax(cfg, tick);
      bytes := if want < max then want else max;
      ChargeRead(cfg, bytes);
    }

    /** A whole run of reads at ticks[k] (any 32-bit values) that want wants[k] bytes. Whatever the clock does, the
        bytes used are at most the maximum plus the rate for each accepted tick. */
    method Run(cfg: Cfg, ticks: seq<nat>, wants: seq<nat>) returns (used: nat, accepted: nat)
      requires CfgOk(cfg) && Fits(cfg) && readLimit >= 0 && |ticks| == |wants|
      requires forall k :: 0 <= k < |ticks| ==> ticks[k] < UINT32
      modifies this
      ensures Fits(cfg) && readLimit >= 0
      ensures accepted == AcceptedTicks(old(lastUpdated), ticks)
      ensures used + readLimit <= old(readLimit) + cfg.readRate * accepted
      ensures used <= cfg.readMax + cfg.readRate * accepted
    {
      hide AcceptedTicks, Ticks, Tokens, CfgOk;
      used, accepted := 0, 0;
      ghost var earned := 0;
      NothingAccepted();
      assert ticks[0..] == ticks && ticks[|ticks|..] == [];
      for k := 0 to |ticks|
        invariant Fits(cfg) && readLimit >= 0
        invariant earned == cfg.readRate * accepted && used + readLimit <= old(readLimit) + earned
        invariant accepted + AcceptedTicks(lastUpdated, ticks[k..]) == AcceptedTicks(old(lastUpdated), ticks)
      {
        var n := Ticks(ticks[k], lastUpdated);
        AcceptedStep(lastUpdated, ticks, k);
        MoreTicks(cfg.readRate, accepted, n);
        var bytes := ReadOnce(cfg, ticks[k], wants[k]);
        if Accepted(n) {
          accepted, earned := accepted + n, earned + Tokens(n, cfg.readRate);
        }
        used := used + bytes;
      }
    }
  }

  /** The ticks that a bucket accepts when it looks at the clock at these values in turn. */
  function AcceptedTicks(last: nat, ticks: seq<nat>): nat
    decreases |ticks|
  {
    if ticks == [] then 0
    else
      var n := Ticks(ticks[0], last);
      if Accepted(n) then n + AcceptedTicks(ticks[0], ticks[1..]) else AcceptedTicks(last, ticks[1..])
  }

  lemma {:induction false} AcceptedStep(last: nat, ticks: seq<nat>, k: nat)
    requires k < |ticks|
    ensures var n, now, later := Ticks(ticks[k], last), ticks[k], ticks[k + 1..];
            AcceptedTicks(last, ticks[k..])
            == if Accepted(n) then n + AcceptedTicks(now, later) else AcceptedTicks(last, later)
  {
    assert ticks[k..][1..] == ticks[k + 1..] && ticks[k..][0] == ticks[k];
  }

  lemma {:induction false} NothingAccepted()
    ensures forall last: nat :: AcceptedTicks(last, []) == 0
  {
  }

  lemma {:induction false} MoreTicks(rate: nat, a: nat, n: nat)
    ensures rate * (a + n) == rate * a + Tokens(n, rate)
  {
  }

  // ----- a clock that does not wrap -----

  function MaxTick(last: int, times: seq<int>): int
    decreases |times|
  {
    if times == [] then last else MaxTick(if times[0] > last then times[0] else last, times[1..])
  }

  function Low32(times: seq<int>): (r: seq<nat>)
    ensures |r| == |times| && forall k :: 0 <= k < |r| ==> r[k] == times[k] % UINT32
  {
    seq(|times|, k requires 0 <= k < |times| => times[k] % UINT32)
  }

  /** Every reading is within 2^31 ticks of the furthest one before it. */
  ghost predicate NearClock(last: int, times: seq<int>)
    decreases |times|
  {
    times != [] ==>
    && -INT_MAX <= times[0] - last <= INT_MAX
    && NearClock(if times[0] > last then times[0] else last, times[1..])
  }

  /** Seen through its low 32 bits, a clock that may go back and forth makes a bucket accept just the ticks by which it
      ever got ahead: no tick is counted twice after a rollback, and none is lost when the low bits wrap around. */
  lemma {:induction false} AcceptedIsProgress(last: int, times: seq<int>)
    requires NearClock(last, times)
    ensures AcceptedTicks(last % UINT32, Low32(times)) == MaxTick(last, times) - last
    decreases |times|
  {
    if times != [] {
      var t := times[0];
      var low := Low32(times);
      assert low[1..] == Low32(times[1..]);
      TicksOfLow(t, last);
      AcceptedIsProgress(if t > last then t else last, times[1..]);
    }
  }

  lemma {:induction false} TicksOfLow(t: int, last: int)
    requires -INT_MAX <= t - last <= INT_MAX
    ensures Ticks(t % UINT32, last % UINT32) == (t - last) % UINT32
    ensures Accepted(Ticks(t % UINT32, last % UINT32)) <==> t > last
    ensures t > last ==> Ticks(t % UINT32, last % UINT32) == t - last
  {
    var a, b := t % UINT32, last % UINT32;
    var qa, qb := t / UINT32, last / UINT32;
    assert t == qa * UINT32 + a && last == qb * UINT32 + b;
    ModShift(a - b, qa - qb);
    assert (a - b) + (qa - qb) * UINT32 == t - last;
  }

  lemma {:induction false} ModShift(x: int, k: int)
    ensures (x + k * UINT32) % UINT32 == x % UINT32
  {
    var q := x / UINT32;
    var r := x % UINT32;
    assert x == q * UINT32 + r;
    assert x + k * UINT32 == (q + k) * UINT32 + r;
    Unique(x + k * UINT32, q + k, r);
  }

  lemma {:induction false} Unique(y: int, q: int, r: int)
    requires y == q * UINT32 + r && 0 <= r < UINT32
    ensures y % UINT32 == r
  {
    var q' := y / UINT32;
    assert y == q' * UINT32 + y % UINT32;
    assert (q - q') * UINT32 == y % UINT32 - r;
  }
}
