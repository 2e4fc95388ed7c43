/** The per-source token bucket: integer tokens, lazy refill by whole elapsed
    seconds, saturating arithmetic, and eviction of idle full buckets. */
module RateLimits {
  const NANOS: nat := 1_000_000_000
  const U32_MAX: nat := 0xFFFF_FFFF
  const U64_MAX: nat := 0xFFFF_FFFF_FFFF_FFFF
  const GC_THRESHOLD: nat := 8192
  const IDLE_TTL: nat := 300 * NANOS

  type U32 = n: nat | n <= 0xFFFF_FFFF
  type Instant = nat
  type Ip = nat

  datatype Config = Config(capacity: U32, refillPerSec: U32)

  datatype Bucket = Bucket(tokens: U32, lastRefill: Instant)

  function Min(a: nat, b: nat): nat { if a <= b then a else b }

  function SaturatingMul64(a: nat, b: nat): nat { Min(a * b, U64_MAX) }

  function SaturatingAdd32(a: nat, b: nat): nat { Min(a + b, U32_MAX) }

  function SaturatingSince(now: Instant, earlier: Instant): nat { if now >= earlier then now - earlier else 0 }

  function WholeSecs(now: Instant, earlier: Instant): nat { SaturatingSince(now, earlier) / NANOS }

  /** The refilled token count, exactly as the fixed-width code computes it. */
  function RefilledTokens(cfg: Config, b: Bucket, secs: nat): U32
  {
    var add := SaturatingMul64(secs, cfg.refillPerSec);
    Min(SaturatingAdd32(b.tokens, Min(add, U32_MAX)), cfg.capacity)
  }

  /** The saturating refill never differs from the exact one. */
  lemma {:induction false} RefillIsExact(cfg: Config, b: Bucket, secs: nat)
    ensures RefilledTokens(cfg, b, secs) == Min(cfg.capacity, b.tokens + secs * cfg.refillPerSec)
  {
    var exact := secs * cfg.refillPerSec;
    assert SaturatingMul64(secs, cfg.refillPerSec) == Min(exact, U64_MAX);
  }

  function Refill(cfg: Config, b: Bucket, now: Instant): Bucket
  {
    var secs := WholeSecs(now, b.lastRefill);
    if secs == 0 then b
    else Bucket(RefilledTokens(cfg, b, secs), b.lastRefill + secs * NANOS)
  }

  function Spend(b: Bucket): (Bucket, bool)
  {
    if b.tokens > 0 then (b.(tokens := b.tokens - 1), true) else (b, false)
  }

  function Take(cfg: Config, b: Bucket, now: Instant): (Bucket, bool) { Spend(Refill(cfg, b, now)) }

  function Fresh(cfg: Config, now: Instant): Bucket { Bucket(cfg.capacity, now) }

  /** The sweep's test: would this bucket be full now, and has it idled? */
  predicate Evictable(cfg: Config, b: Bucket, now: Instant)
  {
    var secs := WholeSecs(now, b.lastRefill);
    var projected := if secs > 0 then RefilledTokens(cfg, b, secs) else b.tokens;
    projected == cfg.capacity && SaturatingSince(now, b.lastRefill) > IDLE_TTL
  }

  function Swept(cfg: Config, m: map<Ip, Bucket>, now: Instant): map<Ip, Bucket>
  {
    map p | p in m && !Evictable(cfg, m[p], now) :: m[p]
  }

  function BucketFor(cfg: Config, m: map<Ip, Bucket>, peer: Ip, now: Instant): Bucket
  {
    if peer in m then m[peer] else Fresh(cfg, now)
  }

  function TakeFrom(cfg: Config, m: map<Ip, Bucket>, peer: Ip, now: Instant): (map<Ip, Bucket>, bool)
  {
    var (b, ok) := Take(cfg, BucketFor(cfg, m, peer, now), now);
    (m[peer := b], ok)
  }

  /** One request: sweep when the map is large, then take. */
  function Request(cfg: Config, m: map<Ip, Bucket>, peer: Ip, now: Instant): (map<Ip, Bucket>, bool)
  {
    TakeFrom(cfg, if |m| > GC_THRESHOLD then Swept(cfg, m, now) else m, peer, now)
  }

  /** The sweep drops exactly the buckets that have not been refilled for more
      than 300 seconds and would now be full. */
  lemma {:induction false} SweepDropsIff(cfg: Config, m: map<Ip, Bucket>, peer: Ip, now: Instant)
    requires peer in m
    ensures peer !in Swept(cfg, m, now) <==>
            now > m[peer].lastRefill + 300_000_000_000 && Refill(cfg, m[peer], now).tokens == cfg.capacity
    ensures peer in Swept(cfg, m, now) ==> Swept(cfg, m, now)[peer] == m[peer]
  {
    hide RefilledTokens;
    var b := m[peer];
    assert now > b.lastRefill + 300_000_000_000 ==> WholeSecs(now, b.lastRefill) > 0;
  }

  /** Only a limiter that holds more than 8192 sources sweeps. */
  lemma {:induction false} SweepsOnlyWhenCrowded(cfg: Config, m: map<Ip, Bucket>, peer: Ip, now: Instant)
    ensures |m| <= 8192 ==> Request(cfg, m, peer, now) == TakeFrom(cfg, m, peer, now)
    ensures |m| > 8192 ==> Request(cfg, m, peer, now) == TakeFrom(cfg, Swept(cfg, m, now), peer, now)
  {
    hide Swept, TakeFrom;
  }

  // ----- the limiter --------------------------------------------------------

  class RateLimiter {
    const cfg: Config
    var buckets: map<Ip, Bucket>

    constructor (c: Config)
      ensures cfg == c && buckets == map[]
    {
      cfg, buckets := c, map[];
    }

    method TryTake(peer: Ip, now: Instant) returns (ok: bool)
      modifies this
      ensures (buckets, ok) == Request(cfg, old(buckets), peer, now)
    {
      hide Swept, SaturatingMul64, SaturatingAdd32;
      if |buckets| > GC_THRESHOLD {
        MaybeGc(now);
      }
      ghost var swept := buckets;
      if peer !in buckets {
        buckets := buckets[peer := Bucket(cfg.capacity, now)];
      }
      var elapsed := SaturatingSince(now, buckets[peer].lastRefill);
      if elapsed >= NANOS {
        var secs := elapsed / NANOS;
        var add := SaturatingMul64(secs, cfg.refillPerSec);
        var tokens := Min(SaturatingAdd32(buckets[peer].tokens, Min(add, U32_MAX)), cfg.capacity);
        buckets := buckets[peer := Bucket(tokens, buckets[peer].lastRefill + secs * NANOS)];
      }
      if buckets[peer].tokens > 0 {
        buckets := buckets[peer := buckets[peer].(tokens := buckets[peer].tokens - 1)];
        ok := true;
      } else {
        ok := false;
      }
      assert buckets == swept[peer := buckets[peer]];
    }

    /** Keep every bucket that is not both full and idle. */
    method MaybeGc(now: Instant)
      modifies this
      ensures buckets == Swept(cfg, old(buckets), now)
    {
      var todo := buckets.Keys;
      while todo != {}
        invariant todo <= buckets.Keys <= old(buckets).Keys
        invariant forall p | p in buckets :: buckets[p] == old(buckets)[p]
        invariant forall p | p in old(buckets) && p !in todo ::
                    p in buckets <==> !Evictable(cfg, old(buckets)[p], now)
        decreases |todo|
      {
        var p :| p in todo;
        todo := todo - {p};
        var b := buckets[p];
        var elapsed := SaturatingSince(now, b.lastRefill);
        var secs := elapsed / NANOS;
        var projected := if secs > 0 then RefilledTokens(cfg, b, secs) else b.tokens;
        if projected == cfg.capacity && elapsed > IDLE_TTL {
          buckets := buckets - {p};
        }
      }
    }
  }

  // ----- runs ---------------------------------------------------------------

  datatype Req = Req(peer: Ip, now: Instant)

  ghost predicate Nondecreasing(reqs: seq<Req>)
  {
    forall i, j | 0 <= i < j < |reqs| :: reqs[i].now <= reqs[j].now
  }

  /** The buckets after a run. */
  function After(cfg: Config, m: map<Ip, Bucket>, reqs: seq<Req>): map<Ip, Bucket>
    decreases |reqs|
  {
    if reqs == [] then m else After(cfg, Request(cfg, m, reqs[0].peer, reqs[0].now).0, reqs[1..])
  }

  /** The decisions of a run. */
  function Decisions(cfg: Config, m: map<Ip, Bucket>, reqs: seq<Req>): (d: seq<bool>)
    ensures |d| == |reqs|
    decreases |reqs|
  {
    if reqs == [] then []
    else
      var (m', ok) := Request(cfg, m, reqs[0].peer, reqs[0].now);
      [ok] + Decisions(cfg, m', reqs[1..])
  }

  /** How many requests of `peer` a run admits. */
  function Admitted(cfg: Config, m: map<Ip, Bucket>, reqs: seq<Req>, peer: Ip): nat
    decreases |reqs|
  {
    if reqs == [] then 0
    else
      var (m', ok) := Request(cfg, m, reqs[0].peer, reqs[0].now);
      (if ok && reqs[0].peer == peer then 1 else 0) + Admitted(cfg, m', reqs[1..], peer)
  }

  // ----- the window bound ---------------------------------------------------

  /** Seconds from `start` to `t`, rounded up; 0 before `start`. */
  function Ticks(t: Instant, start: Instant): nat
  {
    if t <= start then 0 else (t - start + NANOS - 1) / NANOS
  }

  lemma {:induction false} TicksRoundUp(t: Instant, start: Instant)
    requires start < t
    ensures (Ticks(t, start) - 1) * 1_000_000_000 < t - start <= Ticks(t, start) * 1_000_000_000
    ensures Ticks(start, start) == 0
  {
  }

  lemma {:induction false} TicksMonotone(t: Instant, u: Instant, start: Instant)
    requires t <= u
    ensures Ticks(t, start) <= Ticks(u, start)
  {
  }

  /** Moving k whole seconds on adds k ticks, once within a second of start. */
  lemma {:induction false} TicksAdvance(t: Instant, k: nat, start: Instant)
    requires t + NANOS > start
    ensures Ticks(t + k * NANOS, start) == Ticks(t, start) + k
  {
  }

  lemma {:induction false} Distribute(rate: nat, a: nat, b: nat)
    ensures rate * (a + b) == rate * a + rate * b
  {
  }

  lemma {:induction false} ScaleMonotone(rate: nat, a: nat, b: nat)
    requires a <= b
    ensures rate * a <= rate * b
  {
  }

  /** The state of one source within a window that began at `start`, with
      `count` admissions so far: its tokens and its admissions together are
      paid for by the capacity and the ticks since the start. */
  ghost predicate Paid(cfg: Config, m: map<Ip, Bucket>, peer: Ip, count: nat, start: Instant, now: Instant)
  {
    if peer in m then
      var b := m[peer];
      && b.tokens <= cfg.capacity && b.lastRefill <= now
      && (count > 0 ==> b.lastRefill + NANOS > start)
      && count + b.tokens <= cfg.capacity + cfg.refillPerSec * Ticks(b.lastRefill, start)
    else
      count <= cfg.refillPerSec * Ticks(now, start)
  }

  /** Refilling pays for the tokens it adds. */
  lemma {:induction false} RefillPaid(cfg: Config, b: Bucket, count: nat, start: Instant, now: Instant)
    requires b.tokens <= cfg.capacity && b.lastRefill <= now && start <= now
    requires count > 0 ==> b.lastRefill + NANOS > start
    requires count + b.tokens <= cfg.capacity + cfg.refillPerSec * Ticks(b.lastRefill, start)
    ensures var c := Refill(cfg, b, now);
            && c.tokens <= cfg.capacity && c.lastRefill <= now && c.lastRefill + NANOS > start
            && count + c.tokens <= cfg.capacity + cfg.refillPerSec * Ticks(c.lastRefill, start)
  {
    hide RefilledTokens, Ticks;
    var k := WholeSecs(now, b.lastRefill);
    assert k * NANOS <= now - b.lastRefill < k * NANOS + NANOS;
    RefillIsExact(cfg, b, k);
    if count > 0 {
      TicksAdvance(b.lastRefill, k, start);
      Distribute(cfg.refillPerSec, Ticks(b.lastRefill, start), k);
    }
  }

  /** Evicting a full bucket leaves its source paid for. */
  lemma {:induction false} EvictionPaid(cfg: Config, b: Bucket, count: nat, start: Instant, now: Instant)
    requires b.tokens <= cfg.capacity && b.lastRefill <= now && start <= now
    requires count > 0 ==> b.lastRefill + NANOS > start
    requires count + b.tokens <= cfg.capacity + cfg.refillPerSec * Ticks(b.lastRefill, start)
    requires Evictable(cfg, b, now)
    ensures count <= cfg.refillPerSec * Ticks(now, start)
  {
    RefillPaid(cfg, b, count, start, now);
    var c := Refill(cfg, b, now);
    TicksMonotone(c.lastRefill, now, start);
    ScaleMonotone(cfg.refillPerSec, Ticks(c.lastRefill, start), Ticks(now, start));
  }

  lemma {:induction false} SweepPaid(cfg: Config, m: map<Ip, Bucket>, peer: Ip, count: nat, start: Instant, then_: Instant, now: Instant)
    requires Paid(cfg, m, peer, count, start, then_) && then_ <= now && start <= now
    ensures Paid(cfg, m, peer, count, start, now)
    ensures Paid(cfg, Swept(cfg, m, now), peer, count, start, now)
  {
    hide Evictable, Ticks;
    if peer in m {
      if Evictable(cfg, m[peer], now) {
        EvictionPaid(cfg, m[peer], count, start, now);
      }
    } else {
      TicksMonotone(then_, now, start);
      ScaleMonotone(cfg.refillPerSec, Ticks(then_, start), Ticks(now, start));
    }
  }

  lemma {:induction false} RequestPaid(cfg: Config, m: map<Ip, Bucket>, peer: Ip, count: nat, start: Instant, then_: Instant, r: Req)
    requires Paid(cfg, m, peer, count, start, then_) && then_ <= r.now && start <= r.now
    ensures var (m', ok) := Request(cfg, m, r.peer, r.now);
            Paid(cfg, m', peer, count + if ok && r.peer == peer then 1 else 0, start, r.now)
  {
    hide Ticks, Swept, Refill;
    SweepPaid(cfg, m, peer, count, start, then_, r.now);
    var n := if |m| > GC_THRESHOLD then Swept(cfg, m, r.now) else m;
    if r.peer == peer {
      var b := BucketFor(cfg, n, peer, r.now);
      RefillPaid(cfg, b, count, start, r.now);
    }
  }

  lemma {:induction false} AdmittedPaid(cfg: Config, m: map<Ip, Bucket>, peer: Ip, count: nat, start: Instant, then_: Instant, reqs: seq<Req>)
    requires Paid(cfg, m, peer, count, start, then_) && start <= then_
    requires Nondecreasing(reqs) && (reqs != [] ==> then_ <= reqs[0].now)
    ensures var end := if reqs == [] then then_ else reqs[|reqs| - 1].now;
            count + Admitted(cfg, m, reqs, peer) <= cfg.capacity + cfg.refillPerSec * Ticks(end, start)
    decreases |reqs|
  {
    hide Request, Ticks;
    if reqs == [] {
      if peer in m {
        TicksMonotone(m[peer].lastRefill, then_, start);
        ScaleMonotone(cfg.refillPerSec, Ticks(m[peer].lastRefill, start), Ticks(then_, start));
      }
    } else {
      var r := reqs[0];
      var (m', ok) := Request(cfg, m, r.peer, r.now);
      RequestPaid(cfg, m, peer, count, start, then_, r);
      AdmittedPaid(cfg, m', peer, count + if ok && r.peer == peer then 1 else 0, start, r.now, reqs[1..]);
    }
  }

  /** What every reachable bucket map satisfies at time `now`. */
  ghost predicate ValidBuckets(cfg: Config, m: map<Ip, Bucket>, now: Instant)
  {
    forall p | p in m :: m[p].tokens <= cfg.capacity && m[p].lastRefill <= now
  }

  lemma {:induction false} RequestKeepsValid(cfg: Config, m: map<Ip, Bucket>, r: Req, then_: Instant)
    requires ValidBuckets(cfg, m, then_) && then_ <= r.now
    ensures ValidBuckets(cfg, Request(cfg, m, r.peer, r.now).0, r.now)
  {
    var n := if |m| > GC_THRESHOLD then Swept(cfg, m, r.now) else m;
    var b := BucketFor(cfg, n, r.peer, r.now);
    var k := WholeSecs(r.now, b.lastRefill);
    assert k * NANOS <= r.now - b.lastRefill;
  }

  lemma {:induction false} RunKeepsValid(cfg: Config, m: map<Ip, Bucket>, reqs: seq<Req>, then_: Instant)
    requires ValidBuckets(cfg, m, then_) && Nondecreasing(reqs) && (reqs != [] ==> then_ <= reqs[0].now)
    ensures ValidBuckets(cfg, After(cfg, m, reqs), if reqs == [] then then_ else reqs[|reqs| - 1].now)
    decreases |reqs|
  {
    hide Request, ValidBuckets;
    if reqs != [] {
      RequestKeepsValid(cfg, m, reqs[0], then_);
      RunKeepsValid(cfg, Request(cfg, m, reqs[0].peer, reqs[0].now).0, reqs[1..], reqs[0].now);
    }
  }

  /** The rate limit.  In any run from an empty limiter with a nondecreasing
      clock, take any window of consecutive requests: whatever the other
      sources do, and even if the source's bucket is evicted and recreated
      inside the window, the requests of one source that the window admits
      number at most capacity + rate * T, with T the window's length in
      seconds rounded up. */
  lemma {:induction false} WindowBound(cfg: Config, before: seq<Req>, window: seq<Req>, peer: Ip)
    requires window != [] && Nondecreasing(before + window)
    ensures Admitted(cfg, After(cfg, map[], before), window, peer)
            <= cfg.capacity + cfg.refillPerSec * Ticks(window[|window| - 1].now, window[0].now)
  {
    hide After, Request;
    var all := before + window;
    var start := window[0].now;
    forall i, j | 0 <= i < j < |before| ensures before[i].now <= before[j].now {
      assert all[i] == before[i] && all[j] == before[j];
    }
    forall i, j | 0 <= i < j < |window| ensures window[i].now <= window[j].now {
      assert all[|before| + i] == window[i] && all[|before| + j] == window[j];
    }
    RunKeepsValid(cfg, map[], before, 0);
    if before != [] {
      assert all[|before| - 1] == before[|before| - 1] && all[|before|] == window[0];
    }
    var m := After(cfg, map[], before);
    assert ValidBuckets(cfg, m, start) by {
      hide Ticks;
    }
    AdmittedPaid(cfg, m, peer, 0, start, start, window);
  }
}
