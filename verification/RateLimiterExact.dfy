/** What one bucket decides, exactly, and when evicting it can be noticed. */
module RateLimitsExact {
  import opened RateLimits

  // ----- one bucket over a run of its source's requests ---------------------

  ghost predicate Ascending(start: Instant, times: seq<Instant>)
  {
    && (forall i | 0 <= i < |times| :: start <= times[i])
    && (forall i, j | 0 <= i < j < |times| :: times[i] <= times[j])
  }

  /** The bucket after the requests at `times`, newest last. */
  function BucketAfter(cfg: Config, b: Bucket, times: seq<Instant>): Bucket
    decreases |times|
  {
    if times == [] then b
    else Take(cfg, BucketAfter(cfg, b, times[..|times| - 1]), times[|times| - 1]).0
  }

  /** Was request i admitted? */
  predicate AdmittedAt(cfg: Config, b: Bucket, times: seq<Instant>, i: nat)
    requires i < |times|
  {
    Take(cfg, BucketAfter(cfg, b, times[..i]), times[i]).1
  }

  /** How many of the requests lo..hi were admitted. */
  function CountAdmitted(cfg: Config, b: Bucket, times: seq<Instant>, lo: nat, hi: nat): (c: nat)
    requires lo <= hi <= |times|
    decreases hi - lo
  {
    if lo == hi then 0
    else CountAdmitted(cfg, b, times, lo, hi - 1) + if AdmittedAt(cfg, b, times, hi - 1) then 1 else 0
  }

  /** Refill ticks since the bucket was created. */
  function Tick(created: Instant, t: Instant): nat { SaturatingSince(t, created) / NANOS }

  /** What a window from request j on leaves available at tick `now`. */
  ghost function Allowance(cfg: Config, created: Instant, times: seq<Instant>, j: nat, now: nat): int
    requires j < |times|
  {
    var b := Fresh(cfg, created);
    cfg.capacity + cfg.refillPerSec * (now - Tick(created, times[j])) - CountAdmitted(cfg, b, times, j, |times|)
  }

  ghost function TickOfLast(created: Instant, times: seq<Instant>): nat
  {
    if times == [] then 0 else Tick(created, times[|times| - 1])
  }

  /** The token count is the least allowance over all windows that end now. */
  ghost predicate LeastAllowance(cfg: Config, created: Instant, times: seq<Instant>, b: Bucket)
  {
    && b.tokens <= cfg.capacity
    && b.lastRefill == created + TickOfLast(created, times) * NANOS
    && (forall j | 0 <= j < |times| :: b.tokens <= Allowance(cfg, created, times, j, TickOfLast(created, times)))
    && (if times == [] then b.tokens == cfg.capacity
        else exists j | 0 <= j < |times| :: b.tokens == Allowance(cfg, created, times, j, TickOfLast(created, times)))
  }

  lemma {:induction false} CountFrame(cfg: Config, b: Bucket, times: seq<Instant>, t: Instant, lo: nat, hi: nat)
    requires lo <= hi <= |times|
    ensures CountAdmitted(cfg, b, times + [t], lo, hi) == CountAdmitted(cfg, b, times, lo, hi)
    decreases hi - lo
  {
    hide Take, BucketAfter;
    if lo < hi {
      CountFrame(cfg, b, times, t, lo, hi - 1);
      assert (times + [t])[..hi - 1] == times[..hi - 1];
    }
  }

  /** One more request: every older window gains the refilled tokens and pays
      for an admission, and a new window opens. */
  lemma {:induction false} AllowanceStep(cfg: Config, created: Instant, times: seq<Instant>, t: Instant, j: nat, now: nat)
    requires j <= |times|
    ensures var ok := Take(cfg, BucketAfter(cfg, Fresh(cfg, created), times), t).1;
            Allowance(cfg, created, times + [t], j, now) ==
            (if ok then -1 else 0) +
            if j == |times| then cfg.capacity + cfg.refillPerSec * (now - Tick(created, t))
            else Allowance(cfg, created, times, j, now)
  {
    hide Take, BucketAfter, Tick;
    var b := Fresh(cfg, created);
    CountFrame(cfg, b, times, t, j, |times|);
    assert (times + [t])[..|times|] == times;
  }

  lemma {:induction false} ScaleSplit(rate: nat, a: int, b: int, c: int)
    ensures rate * (c - a) == rate * (b - a) + rate * (c - b)
  {
  }

  lemma {:induction false} RefillStep(cfg: Config, created: Instant, b: Bucket, tick: nat, t: Instant)
    requires b.tokens <= cfg.capacity && b.lastRefill == created + tick * NANOS
    requires created <= t && tick <= Tick(created, t)
    ensures var k := Tick(created, t) - tick;
            Refill(cfg, b, t) == Bucket(Min(cfg.capacity, b.tokens + k * cfg.refillPerSec),
                                        created + Tick(created, t) * NANOS)
  {
    hide RefilledTokens;
    var k := Tick(created, t) - tick;
    assert WholeSecs(t, b.lastRefill) == k;
    RefillIsExact(cfg, b, k);
  }

  lemma {:induction false} TokensAreLeastAllowance(cfg: Config, created: Instant, times: seq<Instant>)
    requires Ascending(created, times)
    ensures LeastAllowance(cfg, created, times, BucketAfter(cfg, Fresh(cfg, created), times))
    decreases |times|
  {
    hide Allowance, Refill, Tick;
    if times != [] {
      var n := |times| - 1;
      var past, t := times[..n], times[n];
      assert times == past + [t];
      TokensAreLeastAllowance(cfg, created, past);
      var b := BucketAfter(cfg, Fresh(cfg, created), past);
      LeastAllowanceStep(cfg, created, past, t, b);
    }
  }

  lemma {:induction false} TickMonotone(created: Instant, t: Instant, u: Instant)
    requires t <= u
    ensures Tick(created, t) <= Tick(created, u)
  {
  }

  /** The tokens available to a request at t are the least, over the windows
      open at t, of what each leaves. */
  ghost predicate AvailableAt(cfg: Config, created: Instant, past: seq<Instant>, t: Instant, available: nat)
  {
    var now := Tick(created, t);
    && available <= cfg.capacity
    && (forall j | 0 <= j < |past| :: available <= Allowance(cfg, created, past, j, now))
    && (available == cfg.capacity || exists j | 0 <= j < |past| :: available == Allowance(cfg, created, past, j, now))
  }

  lemma {:induction false} RefillAvailable(cfg: Config, created: Instant, past: seq<Instant>, t: Instant, b: Bucket)
    requires LeastAllowance(cfg, created, past, b) && created <= t
    requires TickOfLast(created, past) <= Tick(created, t)
    ensures AvailableAt(cfg, created, past, t, Refill(cfg, b, t).tokens)
    ensures Refill(cfg, b, t).lastRefill == created + Tick(created, t) * NANOS
  {
    hide Tick, Refill, CountAdmitted;
    var then_, now := TickOfLast(created, past), Tick(created, t);
    RefillStep(cfg, created, b, then_, t);
    forall j | 0 <= j < |past|
      ensures Allowance(cfg, created, past, j, now) ==
              Allowance(cfg, created, past, j, then_) + (now - then_) * cfg.refillPerSec
    {
      ScaleSplit(cfg.refillPerSec, Tick(created, past[j]), then_, now);
    }
  }

  lemma {:induction false} LeastAllowanceStep(cfg: Config, created: Instant, past: seq<Instant>, t: Instant, b: Bucket)
    requires Ascending(created, past + [t])
    requires b == BucketAfter(cfg, Fresh(cfg, created), past) && LeastAllowance(cfg, created, past, b)
    ensures LeastAllowance(cfg, created, past + [t], Take(cfg, b, t).0)
  {
    hide Allowance, Refill, Tick, BucketAfter;
    var all := past + [t];
    assert all[|past|] == t && created <= t;
    if past != [] {
      assert all[|past| - 1] == past[|past| - 1];
      TickMonotone(created, past[|past| - 1], t);
    }
    RefillAvailable(cfg, created, past, t, b);
    var now := Tick(created, t);
    var ok := Take(cfg, b, t).1;
    forall j | 0 <= j < |past|
      ensures Allowance(cfg, created, all, j, now) == Allowance(cfg, created, past, j, now) + if ok then -1 else 0
    {
      AllowanceStep(cfg, created, past, t, j, now);
    }
    AllowanceStep(cfg, created, past, t, |past|, now);
    assert Allowance(cfg, created, all, |past|, now) == cfg.capacity + if ok then -1 else 0;
    assert TickOfLast(created, all) == now;
    var r := Refill(cfg, b, t);
    if r.tokens == cfg.capacity {
      assert Take(cfg, b, t).0.tokens == Allowance(cfg, created, all, |past|, now);
    } else {
      var j :| 0 <= j < |past| && r.tokens == Allowance(cfg, created, past, j, now);
      assert Take(cfg, b, t).0.tokens == Allowance(cfg, created, all, j, now);
    }
  }

  /** The bucket decides exactly the rate limit: a request at t is admitted if
      and only if, for every earlier request j (and for itself), the requests
      admitted since j leave room within capacity + rate * (ticks since j).
      It neither admits too much nor rejects too early. */
  lemma {:induction false} AdmitsExactlyWithinAllowance(cfg: Config, created: Instant, past: seq<Instant>, t: Instant)
    requires Ascending(created, past + [t])
    ensures Take(cfg, BucketAfter(cfg, Fresh(cfg, created), past), t).1 <==>
            (cfg.capacity > 0 && forall j | 0 <= j < |past| :: Allowance(cfg, created, past, j, Tick(created, t)) > 0)
  {
    hide Allowance, Refill, Tick, BucketAfter;
    var all := past + [t];
    assert all[|past|] == t;
    forall i | 0 <= i < |past| ensures created <= past[i] {
      assert all[i] == past[i];
    }
    forall i, j | 0 <= i < j < |past| ensures past[i] <= past[j] {
      assert all[i] == past[i] && all[j] == past[j];
    }
    TokensAreLeastAllowance(cfg, created, past);
    var b := BucketAfter(cfg, Fresh(cfg, created), past);
    if past != [] {
      assert all[|past| - 1] == past[|past| - 1];
      TickMonotone(created, past[|past| - 1], t);
    }
    RefillAvailable(cfg, created, past, t, b);
  }

  // ----- eviction -----------------------------------------------------------

  /** On any clock, the first request after an eviction is decided the same,
      and leaves the same token count, as if the bucket had been kept. */
  lemma {:induction false} FirstRequestAfterEviction(cfg: Config, b: Bucket, evicted: Instant, t: Instant)
    requires b.tokens <= cfg.capacity && Evictable(cfg, b, evicted) && evicted <= t
    ensures Take(cfg, b, t).1 == Take(cfg, Fresh(cfg, t), t).1
    ensures Take(cfg, b, t).0.tokens == Take(cfg, Fresh(cfg, t), t).0.tokens
    ensures Refill(cfg, b, t).tokens == cfg.capacity
  {
    hide RefilledTokens;
    var k, l := WholeSecs(evicted, b.lastRefill), WholeSecs(t, b.lastRefill);
    RefillIsExact(cfg, b, k);
    RefillIsExact(cfg, b, l);
    assert k <= l;
    ScaleMonotone(cfg.refillPerSec, k, l);
  }

  /** The decisions of one bucket on later requests, oldest first. */
  function Answers(cfg: Config, b: Bucket, times: seq<Instant>): (d: seq<bool>)
    ensures |d| == |times|
    decreases |times|
  {
    if times == [] then []
    else var (c, ok) := Take(cfg, b, times[0]); [ok] + Answers(cfg, c, times[1..])
  }

  function Repeat(t: Instant, n: nat): (r: seq<Instant>)
    ensures |r| == n && forall i | 0 <= i < n :: r[i] == t
  {
    if n == 0 then [] else [t] + Repeat(t, n - 1)
  }

  /** n requests at one instant, within a second of the last refill, and one
      more later. */
  lemma {:induction false} DrainThenAsk(cfg: Config, b: Bucket, t: Instant, n: nat, u: Instant)
    requires n <= b.tokens && WholeSecs(t, b.lastRefill) == 0
    ensures |Answers(cfg, b, Repeat(t, n) + [u])| == n + 1
    ensures Answers(cfg, b, Repeat(t, n) + [u])[n] == Take(cfg, b.(tokens := b.tokens - n), u).1
    decreases n
  {
    if n == 0 {
      assert Repeat(t, 0) + [u] == [u];
    } else {
      var c := b.(tokens := b.tokens - 1);
      assert Take(cfg, b, t) == (c, true);
      DrainThenAsk(cfg, c, t, n - 1, u);
      assert (Repeat(t, n) + [u])[1..] == Repeat(t, n - 1) + [u];
      assert c.(tokens := c.tokens - (n - 1)) == b.(tokens := b.tokens - n);
    }
  }

  /** A full bucket, asked first at t, answers every later run exactly like a
      fresh one if and only if the recreated bucket keeps the old refill phase
      (or there is nothing to refill).  The comment at the sweep says that
      dropping a full bucket loses no state; on clocks finer than a second it
      loses the phase, and this is when that can be seen. */
  lemma {:induction false} EvictionInvisibleIff(cfg: Config, b: Bucket, evicted: Instant, t: Instant)
    requires b.tokens <= cfg.capacity && Evictable(cfg, b, evicted) && evicted <= t
    ensures (forall times :: Answers(cfg, b, [t] + times) == Answers(cfg, Fresh(cfg, t), [t] + times)) <==>
            ((t - b.lastRefill) % NANOS == 0 || cfg.refillPerSec == 0 || cfg.capacity == 0)
  {
    hide Answers, Evictable;
    if (t - b.lastRefill) % NANOS == 0 {
      forall times ensures Answers(cfg, b, [t] + times) == Answers(cfg, Fresh(cfg, t), [t] + times) {
        SamePhase(cfg, b, evicted, t, times);
      }
    } else if cfg.refillPerSec == 0 || cfg.capacity == 0 {
      forall times ensures Answers(cfg, b, [t] + times) == Answers(cfg, Fresh(cfg, t), [t] + times) {
        NoRefillSame(cfg, b, Fresh(cfg, t), [t] + times, evicted);
      }
    } else {
      var times := PhaseShows(cfg, b, evicted, t);
      assert Answers(cfg, b, [t] + times) != Answers(cfg, Fresh(cfg, t), [t] + times);
    }
  }

  lemma {:induction false} SamePhase(cfg: Config, b: Bucket, evicted: Instant, t: Instant, times: seq<Instant>)
    requires b.tokens <= cfg.capacity && Evictable(cfg, b, evicted) && evicted <= t
    requires (t - b.lastRefill) % NANOS == 0
    ensures Answers(cfg, b, [t] + times) == Answers(cfg, Fresh(cfg, t), [t] + times)
  {
    hide RefilledTokens;
    FirstRequestAfterEviction(cfg, b, evicted, t);
    assert Refill(cfg, b, t) == Fresh(cfg, t);
    assert Refill(cfg, Fresh(cfg, t), t) == Fresh(cfg, t);
  }

  /** With no refill, or no capacity, the refill time does not matter. */
  lemma {:induction false} NoRefillSame(cfg: Config, b: Bucket, c: Bucket, times: seq<Instant>, evicted: Instant)
    requires cfg.refillPerSec == 0 || cfg.capacity == 0
    requires b.tokens <= cfg.capacity && c.tokens <= cfg.capacity
    requires b.tokens == c.tokens || (Evictable(cfg, b, evicted) && c.tokens == cfg.capacity)
    ensures Answers(cfg, b, times) == Answers(cfg, c, times)
    decreases |times|
  {
    hide RefilledTokens;
    RefillIsExact(cfg, b, WholeSecs(evicted, b.lastRefill));
    assert b.tokens == c.tokens;
    if times != [] {
      RefillIsExact(cfg, b, WholeSecs(times[0], b.lastRefill));
      RefillIsExact(cfg, c, WholeSecs(times[0], c.lastRefill));
      NoRefillSame(cfg, Take(cfg, b, times[0]).0, Take(cfg, c, times[0]).0, times[1..], evicted);
    }
  }

  /** Drain both buckets at t, then ask when the old phase has ticked and the
      new one has not: the kept bucket admits, the recreated one rejects. */
  lemma {:induction false} PhaseShows(cfg: Config, b: Bucket, evicted: Instant, t: Instant) returns (times: seq<Instant>)
    requires b.tokens <= cfg.capacity && Evictable(cfg, b, evicted) && evicted <= t
    requires (t - b.lastRefill) % NANOS != 0 && cfg.refillPerSec > 0 && cfg.capacity > 0
    ensures Answers(cfg, b, [t] + times) != Answers(cfg, Fresh(cfg, t), [t] + times)
    ensures Ascending(t, times)
  {
    hide RefilledTokens, Evictable, Answers;
    var r := (t - b.lastRefill) % NANOS;
    var u := t + NANOS - r;
    var n := cfg.capacity - 1;
    times := Repeat(t, n) + [u];
    FirstRequestAfterEviction(cfg, b, evicted, t);
    var kept, fresh_ := Take(cfg, b, t).0, Take(cfg, Fresh(cfg, t), t).0;
    EvictableIsOld(cfg, b, evicted);
    KeptPhase(cfg, b, t);
    assert kept.lastRefill == t - r && kept.tokens == n && fresh_ == Bucket(n, t);
    DrainThenAsk(cfg, kept, t, n, u);
    DrainThenAsk(cfg, fresh_, t, n, u);
    var empty := Bucket(0, t - r);
    assert WholeSecs(u, empty.lastRefill) == 1;
    RefillIsExact(cfg, empty, 1);
    assert WholeSecs(u, t) == 0;
    AnswersCons(cfg, b, t, times);
    AnswersCons(cfg, Fresh(cfg, t), t, times);
    assert kept.(tokens := 0) == empty && fresh_.(tokens := 0) == Bucket(0, t);
    assert Answers(cfg, b, [t] + times)[n + 1] == Take(cfg, empty, u).1;
    assert Answers(cfg, Fresh(cfg, t), [t] + times)[n + 1] == Take(cfg, Bucket(0, t), u).1;
  }

  lemma {:induction false} EvictableIsOld(cfg: Config, b: Bucket, evicted: Instant)
    requires Evictable(cfg, b, evicted)
    ensures b.lastRefill < evicted
  {
    hide RefilledTokens;
  }

  lemma {:induction false} KeptPhase(cfg: Config, b: Bucket, t: Instant)
    requires b.lastRefill <= t
    ensures Refill(cfg, b, t).lastRefill == t - (t - b.lastRefill) % NANOS
  {
    hide RefilledTokens;
  }

  lemma {:induction false} AnswersCons(cfg: Config, b: Bucket, t: Instant, times: seq<Instant>)
    ensures Answers(cfg, b, [t] + times) == [Take(cfg, b, t).1] + Answers(cfg, Take(cfg, b, t).0, times)
  {
    assert ([t] + times)[1..] == times;
  }

  // ----- the whole limiter on whole-second clocks ---------------------------

  /** The limiter with the sweep removed. */
  function DecisionsWithoutGc(cfg: Config, m: map<Ip, Bucket>, reqs: seq<Req>): (d: seq<bool>)
    ensures |d| == |reqs|
    decreases |reqs|
  {
    if reqs == [] then []
    else
      var (m', ok) := TakeFrom(cfg, m, reqs[0].peer, reqs[0].now);
      [ok] + DecisionsWithoutGc(cfg, m', reqs[1..])
  }

  /** `m` is `n` with some buckets evicted that are full by `now`; all refill
      times share the clock's phase. */
  ghost predicate Evicted(cfg: Config, m: map<Ip, Bucket>, n: map<Ip, Bucket>, phase: nat, now: Instant)
  {
    && m.Keys <= n.Keys
    && (forall p | p in m :: m[p] == n[p])
    && (forall p | p in n :: n[p].tokens <= cfg.capacity && n[p].lastRefill <= now && n[p].lastRefill % NANOS == phase)
    && (forall p | p in n && p !in m :: Refill(cfg, n[p], now).tokens == cfg.capacity)
  }

  lemma {:induction false} StaysFull(cfg: Config, b: Bucket, then_: Instant, now: Instant)
    requires b.tokens <= cfg.capacity && then_ <= now && Refill(cfg, b, then_).tokens == cfg.capacity
    ensures Refill(cfg, b, now).tokens == cfg.capacity
  {
    hide RefilledTokens;
    var k, l := WholeSecs(then_, b.lastRefill), WholeSecs(now, b.lastRefill);
    RefillIsExact(cfg, b, k);
    RefillIsExact(cfg, b, l);
    ScaleMonotone(cfg.refillPerSec, k, l);
  }

  lemma {:induction false} SweepStaysEvicted(cfg: Config, m: map<Ip, Bucket>, n: map<Ip, Bucket>, phase: nat, then_: Instant, now: Instant)
    requires Evicted(cfg, m, n, phase, then_) && then_ <= now
    ensures Evicted(cfg, m, n, phase, now) && Evicted(cfg, Swept(cfg, m, now), n, phase, now)
  {
    hide RefilledTokens, Refill;
    forall p | p in n && p !in m ensures Refill(cfg, n[p], now).tokens == cfg.capacity {
      StaysFull(cfg, n[p], then_, now);
    }
    forall p | p in m && Evictable(cfg, m[p], now) ensures Refill(cfg, n[p], now).tokens == cfg.capacity {
      FirstRequestAfterEviction(cfg, m[p], now, now);
    }
  }

  lemma {:induction false} FullOnPhaseIsFresh(cfg: Config, b: Bucket, now: Instant)
    requires b.tokens <= cfg.capacity && b.lastRefill <= now && b.lastRefill % NANOS == now % NANOS
    requires Refill(cfg, b, now).tokens == cfg.capacity
    ensures Refill(cfg, b, now) == Fresh(cfg, now)
  {
    KeptPhase(cfg, b, now);
    assert (now - b.lastRefill) % NANOS == 0;
  }

  lemma {:induction false} TakeKeepsPhase(cfg: Config, b: Bucket, now: Instant)
    requires b.tokens <= cfg.capacity && b.lastRefill <= now && b.lastRefill % NANOS == now % NANOS
    ensures Take(cfg, b, now).0.tokens <= cfg.capacity && Take(cfg, b, now).0.lastRefill == now
  {
    hide RefilledTokens;
    KeptPhase(cfg, b, now);
    assert (now - b.lastRefill) % NANOS == 0;
    RefillIsExact(cfg, b, WholeSecs(now, b.lastRefill));
  }

  lemma {:induction false} SameTake(cfg: Config, m: map<Ip, Bucket>, n: map<Ip, Bucket>, peer: Ip, now: Instant)
    requires Evicted(cfg, m, n, now % NANOS, now)
    ensures TakeFrom(cfg, m, peer, now).1 == TakeFrom(cfg, n, peer, now).1
    ensures Evicted(cfg, TakeFrom(cfg, m, peer, now).0, TakeFrom(cfg, n, peer, now).0, now % NANOS, now)
  {
    hide RefilledTokens, Refill;
    var b, c := BucketFor(cfg, m, peer, now), BucketFor(cfg, n, peer, now);
    if peer in n && peer !in m {
      FullOnPhaseIsFresh(cfg, c, now);
      FreshRefill(cfg, now);
    }
    TakeKeepsPhase(cfg, c, now);
    assert Take(cfg, b, now) == Take(cfg, c, now);
  }

  lemma {:induction false} FreshRefill(cfg: Config, now: Instant)
    ensures Refill(cfg, Fresh(cfg, now), now) == Fresh(cfg, now)
  {
  }

  /** On a clock that moves by whole seconds, the limiter with eviction gives
      the same answers as one that never evicts, on every request sequence. */
  lemma {:induction false} GcInvisibleOnWholeSeconds(cfg: Config, m: map<Ip, Bucket>, n: map<Ip, Bucket>, reqs: seq<Req>, phase: nat, then_: Instant)
    requires Nondecreasing(reqs) && (reqs != [] ==> then_ <= reqs[0].now)
    requires forall i | 0 <= i < |reqs| :: reqs[i].now % NANOS == phase
    requires Evicted(cfg, m, n, phase, then_)
    ensures Decisions(cfg, m, reqs) == DecisionsWithoutGc(cfg, n, reqs)
    decreases |reqs|
  {
    hide Evicted, TakeFrom, Swept;
    if reqs != [] {
      var r := reqs[0];
      SweepStaysEvicted(cfg, m, n, phase, then_, r.now);
      var swept := if |m| > GC_THRESHOLD then Swept(cfg, m, r.now) else m;
      SameTake(cfg, swept, n, r.peer, r.now);
      GcInvisibleOnWholeSeconds(cfg, TakeFrom(cfg, swept, r.peer, r.now).0, TakeFrom(cfg, n, r.peer, r.now).0,
                                reqs[1..], phase, r.now);
    }
  }

  /** In particular from the start. */
  lemma {:induction false} GcInvisibleFromStart(cfg: Config, reqs: seq<Req>, phase: nat)
    requires Nondecreasing(reqs) && forall i | 0 <= i < |reqs| :: reqs[i].now % NANOS == phase
    ensures Decisions(cfg, map[], reqs) == DecisionsWithoutGc(cfg, map[], reqs)
  {
    GcInvisibleOnWholeSeconds(cfg, map[], map[], reqs, phase, 0);
  }

  // ----- the whole limiter on finer clocks ----------------------------------

  /** Sources k..n, one request each at time 0. */
  function Crowd(k: nat, n: nat): (r: seq<Req>)
    requires k <= n
    ensures |r| == n - k && forall i | 0 <= i < |r| :: r[i].now == 0
    decreases n - k
  {
    if k == n then [] else [Req(k, 0)] + Crowd(k + 1, n)
  }

  /** The limiter once sources 0..k have asked. */
  function Filled(cfg: Config, k: nat): (m: map<Ip, Bucket>)
    requires cfg.capacity > 0
    ensures |m| == k && forall p: nat :: p in m <==> p < k
    ensures forall p | p in m :: m[p] == Bucket(cfg.capacity - 1, 0)
  {
    if k == 0 then map[] else Filled(cfg, k - 1)[k - 1 := Bucket(cfg.capacity - 1, 0)]
  }

  /** The requests of one source. */
  function Asks(peer: Ip, times: seq<Instant>): (r: seq<Req>)
    ensures |r| == |times| && forall i | 0 <= i < |r| :: r[i] == Req(peer, times[i])
  {
    if times == [] then [] else [Req(peer, times[0])] + Asks(peer, times[1..])
  }

  lemma {:induction false} NewSource(cfg: Config, k: nat)
    requires cfg.capacity > 0 && k <= GC_THRESHOLD
    ensures TakeFrom(cfg, Filled(cfg, k), k, 0) == (Filled(cfg, k + 1), true)
    ensures Request(cfg, Filled(cfg, k), k, 0) == (Filled(cfg, k + 1), true)
  {
    hide RefilledTokens;
    assert Take(cfg, Fresh(cfg, 0), 0) == (Bucket(cfg.capacity - 1, 0), true);
  }

  /** While the crowd arrives, both limiters go through the same states. */
  lemma {:induction false} CrowdArrives(cfg: Config, k: nat, n: nat, tail: seq<Req>)
    requires cfg.capacity > 0 && k <= n <= GC_THRESHOLD + 1
    ensures Decisions(cfg, Filled(cfg, k), Crowd(k, n) + tail)[n - k..] == Decisions(cfg, Filled(cfg, n), tail)
    ensures DecisionsWithoutGc(cfg, Filled(cfg, k), Crowd(k, n) + tail)[n - k..] ==
            DecisionsWithoutGc(cfg, Filled(cfg, n), tail)
    decreases n - k
  {
    hide Filled, TakeFrom, Request;
    var all := Crowd(k, n) + tail;
    if k == n {
      assert all == tail;
    } else {
      NewSource(cfg, k);
      CrowdArrives(cfg, k + 1, n, tail);
      assert all[0] == Req(k, 0) && all[1..] == Crowd(k + 1, n) + tail;
    }
  }

  lemma {:induction false} LoneSource(cfg: Config, m: map<Ip, Bucket>, peer: Ip, times: seq<Instant>)
    requires m.Keys == {peer}
    ensures Decisions(cfg, m, Asks(peer, times)) == Answers(cfg, m[peer], times)
    decreases |times|
  {
    hide Take;
    if times != [] {
      assert |m| == |m.Keys| == 1;
      var m' := Request(cfg, m, peer, times[0]).0;
      assert Asks(peer, times)[1..] == Asks(peer, times[1..]);
      LoneSource(cfg, m', peer, times[1..]);
    }
  }

  lemma {:induction false} KeptSource(cfg: Config, m: map<Ip, Bucket>, peer: Ip, times: seq<Instant>)
    requires peer in m
    ensures DecisionsWithoutGc(cfg, m, Asks(peer, times)) == Answers(cfg, m[peer], times)
    decreases |times|
  {
    hide Take;
    if times != [] {
      assert Asks(peer, times)[1..] == Asks(peer, times[1..]);
      KeptSource(cfg, TakeFrom(cfg, m, peer, times[0]).0, peer, times[1..]);
    }
  }

  /** The sweep finds the whole crowd full and idle. */
  lemma {:induction false} CrowdEvicted(cfg: Config, n: nat, t: Instant)
    requires cfg.capacity > 0 && cfg.refillPerSec > 0 && t > IDLE_TTL
    ensures Evictable(cfg, Bucket(cfg.capacity - 1, 0), t)
    ensures Swept(cfg, Filled(cfg, n), t) == map[]
  {
    hide RefilledTokens, Filled;
    var b := Bucket(cfg.capacity - 1, 0);
    var secs := WholeSecs(t, 0);
    RefillIsExact(cfg, b, secs);
    ScaleMonotone(cfg.refillPerSec, 1, secs);
  }

  lemma {:induction false} SweptThenLone(cfg: Config, m: map<Ip, Bucket>, peer: Ip, t: Instant, times: seq<Instant>)
    requires |m| > GC_THRESHOLD && Swept(cfg, m, t) == map[]
    ensures Decisions(cfg, m, Asks(peer, [t] + times)) == Answers(cfg, Fresh(cfg, t), [t] + times)
  {
    hide Take, Fresh, Swept, Answers;
    var (m', ok) := Request(cfg, m, peer, t);
    assert m' == map[peer := Take(cfg, Fresh(cfg, t), t).0];
    LoneSource(cfg, m', peer, times);
    AnswersCons(cfg, Fresh(cfg, t), t, times);
    assert ([t] + times)[1..] == times;
    assert Asks(peer, [t] + times)[1..] == Asks(peer, times);
  }

  /** On a clock finer than a second the sweep can be noticed: for every
      configuration that refills at all there is a run from the empty limiter,
      with one source more than the threshold, on which the limiter with the
      sweep and the one without decide differently. */
  lemma {:induction false} GcShowsOnFineClocks(cfg: Config) returns (reqs: seq<Req>)
    requires cfg.capacity > 0 && cfg.refillPerSec > 0
    ensures Nondecreasing(reqs)
    ensures Decisions(cfg, map[], reqs) != DecisionsWithoutGc(cfg, map[], reqs)
  {
    hide Decisions, DecisionsWithoutGc, Crowd, Filled, Asks, Answers, Evictable, Swept, RefilledTokens, Take;
    var n := GC_THRESHOLD + 1;
    var t := IDLE_TTL + 500_000_000;
    var b := Bucket(cfg.capacity - 1, 0);
    CrowdEvicted(cfg, n, t);
    var times := PhaseShows(cfg, b, t, t);
    var tail := Asks(0, [t] + times);
    reqs := Crowd(0, n) + tail;
    NoSourceYet(cfg);
    CrowdArrives(cfg, 0, n, tail);
    SweptThenLone(cfg, Filled(cfg, n), 0, t, times);
    KeptSource(cfg, Filled(cfg, n), 0, [t] + times);
  }

  lemma {:induction false} NoSourceYet(cfg: Config)
    requires cfg.capacity > 0
    ensures Filled(cfg, 0) == map[]
  {
  }

  /** `m` is `n` with some full buckets missing; every other bucket has the
      tokens it has in `n`. */
  ghost predicate FullOnesMissing(cfg: Config, m: map<Ip, Bucket>, n: map<Ip, Bucket>)
  {
    && m.Keys <= n.Keys
    && (forall p | p in n :: n[p].tokens <= cfg.capacity)
    && (forall p | p in m :: m[p].tokens == n[p].tokens)
    && (forall p | p in n && p !in m :: n[p].tokens == cfg.capacity)
  }

  lemma {:induction false} RefillAddsNothing(cfg: Config, b: Bucket, now: Instant)
    requires (cfg.refillPerSec == 0 || cfg.capacity == 0) && b.tokens <= cfg.capacity
    ensures Refill(cfg, b, now).tokens == b.tokens
    ensures Evictable(cfg, b, now) ==> b.tokens == cfg.capacity
  {
    hide RefilledTokens;
    RefillIsExact(cfg, b, WholeSecs(now, b.lastRefill));
  }

  lemma {:induction false} NoRefillNoGc(cfg: Config, m: map<Ip, Bucket>, n: map<Ip, Bucket>, reqs: seq<Req>)
    requires (cfg.refillPerSec == 0 || cfg.capacity == 0) && FullOnesMissing(cfg, m, n)
    ensures Decisions(cfg, m, reqs) == DecisionsWithoutGc(cfg, n, reqs)
    decreases |reqs|
  {
    hide Refill, Evictable;
    if reqs != [] {
      var r := reqs[0];
      forall p | p in m ensures Evictable(cfg, m[p], r.now) ==> m[p].tokens == cfg.capacity {
        RefillAddsNothing(cfg, m[p], r.now);
      }
      var swept := if |m| > GC_THRESHOLD then Swept(cfg, m, r.now) else m;
      RefillAddsNothing(cfg, BucketFor(cfg, swept, r.peer, r.now), r.now);
      RefillAddsNothing(cfg, BucketFor(cfg, n, r.peer, r.now), r.now);
      NoRefillNoGc(cfg, TakeFrom(cfg, swept, r.peer, r.now).0, TakeFrom(cfg, n, r.peer, r.now).0, reqs[1..]);
    }
  }

  /** The exact condition, over all clocks: the sweep is invisible in every run
      from the empty limiter if and only if the configuration never refills
      a bucket. */
  lemma {:induction false} GcInvisibleIff(cfg: Config)
    ensures (forall reqs | Nondecreasing(reqs) :: Decisions(cfg, map[], reqs) == DecisionsWithoutGc(cfg, map[], reqs)) <==>
            (cfg.refillPerSec == 0 || cfg.capacity == 0)
  {
    hide Decisions, DecisionsWithoutGc, Nondecreasing;
    if cfg.refillPerSec == 0 || cfg.capacity == 0 {
      forall reqs | Nondecreasing(reqs) ensures Decisions(cfg, map[], reqs) == DecisionsWithoutGc(cfg, map[], reqs) {
        NoRefillNoGc(cfg, map[], map[], reqs);
      }
    } else {
      var reqs := GcShowsOnFineClocks(cfg);
    }
  }

  // ----- sources do not affect each other -----------------------------------

  /** The request times of one source. */
  function TimesOf(reqs: seq<Req>, peer: Ip): seq<Instant>
    decreases |reqs|
  {
    if reqs == [] then []
    else (if reqs[0].peer == peer then [reqs[0].now] else []) + TimesOf(reqs[1..], peer)
  }

  /** The answers given to one source in a run of all of them. */
  function AnswersTo(reqs: seq<Req>, decisions: seq<bool>, peer: Ip): seq<bool>
    requires |decisions| == |reqs|
    decreases |reqs|
  {
    if reqs == [] then []
    else (if reqs[0].peer == peer then [decisions[0]] else []) + AnswersTo(reqs[1..], decisions[1..], peer)
  }

  /** The bucket a source will be served from: its own, or a fresh one made at
      its first request. */
  function ServingBucket(cfg: Config, m: map<Ip, Bucket>, reqs: seq<Req>, peer: Ip): Bucket
  {
    if peer in m then m[peer]
    else if TimesOf(reqs, peer) == [] then Fresh(cfg, 0)
    else Fresh(cfg, TimesOf(reqs, peer)[0])
  }

  lemma {:induction false} BucketAnswersSource(cfg: Config, m: map<Ip, Bucket>, reqs: seq<Req>, peer: Ip)
    ensures AnswersTo(reqs, DecisionsWithoutGc(cfg, m, reqs), peer) ==
            Answers(cfg, ServingBucket(cfg, m, reqs, peer), TimesOf(reqs, peer))
    decreases |reqs|
  {
    hide Take, Fresh;
    if reqs != [] {
      var r := reqs[0];
      var (m', ok) := TakeFrom(cfg, m, r.peer, r.now);
      BucketAnswersSource(cfg, m', reqs[1..], peer);
      assert DecisionsWithoutGc(cfg, m, reqs)[1..] == DecisionsWithoutGc(cfg, m', reqs[1..]);
      if r.peer == peer {
        assert TimesOf(reqs, peer)[1..] == TimesOf(reqs[1..], peer);
        assert ServingBucket(cfg, m, reqs, peer) == BucketFor(cfg, m, peer, r.now);
        assert ServingBucket(cfg, m', reqs[1..], peer) == m'[peer];
      } else {
        assert TimesOf(reqs, peer) == TimesOf(reqs[1..], peer);
        assert ServingBucket(cfg, m', reqs[1..], peer) == ServingBucket(cfg, m, reqs, peer);
      }
    }
  }

  /** Isolation.  On a whole-second clock, what the limiter answers a source
      is what a bucket of its own would answer to its own requests, whatever
      the other sources send and whatever the sweep evicts. */
  lemma {:induction false} SourcesIsolated(cfg: Config, reqs: seq<Req>, peer: Ip, phase: nat)
    requires Nondecreasing(reqs) && forall i | 0 <= i < |reqs| :: reqs[i].now % NANOS == phase
    requires TimesOf(reqs, peer) != []
    ensures AnswersTo(reqs, Decisions(cfg, map[], reqs), peer) ==
            Answers(cfg, Fresh(cfg, TimesOf(reqs, peer)[0]), TimesOf(reqs, peer))
  {
    hide Decisions, DecisionsWithoutGc, Answers, AnswersTo, TimesOf;
    GcInvisibleFromStart(cfg, reqs, phase);
    BucketAnswersSource(cfg, map[], reqs, peer);
  }
}
