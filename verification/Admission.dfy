/** Admission control: rate limit first, then a concurrency quota, behind a
    wrapper whose controller can be swapped while checks and sessions are in
    flight. */
module Admission {
  import opened Wrappers
  import opened RateLimits

  datatype Reason = Quota | Rate

  /** `Admitted(permit)` says whether the session holds a quota slot. */
  datatype Admit = Admitted(permit: bool) | Rejected(reason: Reason)

  /** A controller as a value: quota, free slots, limiter state. */
  datatype Controller = Controller(
    quota: Option<nat>, free: nat, rate: Option<Config>, buckets: map<Ip, Bucket>)

  function NewController(quota: Option<nat>, rate: Option<Config>): Controller
  {
    Controller(quota, if quota.Some? then quota.value else 0, rate, map[])
  }

  /** One admission check. */
  function Checked(c: Controller, peer: Ip, now: Instant): (Controller, Admit)
  {
    var (m, pass) := if c.rate.None? then (c.buckets, true) else Request(c.rate.value, c.buckets, peer, now);
    var d := c.(buckets := m);
    if !pass then (d, Rejected(Rate))
    else if c.quota.None? then (d, Admitted(false))
    else if c.free == 0 then (d, Rejected(Quota))
    else (d.(free := c.free - 1), Admitted(true))
  }

  /** Does the rate limiter, if there is one, let the request pass? */
  predicate PassesRate(c: Controller, peer: Ip, now: Instant)
  {
    c.rate.None? || Request(c.rate.value, c.buckets, peer, now).1
  }

  /** The law of one check: the rate decides first and takes its token; only a
      request that passes it can take a slot; it is admitted exactly when there
      is no quota or a slot is free, and every other slot stays as it was. */
  lemma {:induction false} CheckLaw(c: Controller, peer: Ip, now: Instant)
    ensures var (d, a) := Checked(c, peer, now);
            && (a == Rejected(Rate) <==> !PassesRate(c, peer, now))
            && (a.Admitted? <==> PassesRate(c, peer, now) && (c.quota.None? || c.free > 0))
            && (a == Rejected(Quota) <==> PassesRate(c, peer, now) && c.quota.Some? && c.free == 0)
            && (a.Admitted? ==> (a.permit <==> c.quota.Some?))
            && d.free == c.free - (if a.Admitted? && a.permit then 1 else 0)
            && d.quota == c.quota && d.rate == c.rate
            && d.buckets == if c.rate.None? then c.buckets else Request(c.rate.value, c.buckets, peer, now).0
  {
    hide Request;
  }

  /** The answers of a controller to a run of checks with no session ending. */
  function Answers(c: Controller, reqs: seq<Req>): (a: seq<Admit>)
    ensures |a| == |reqs|
    decreases |reqs|
  {
    if reqs == [] then []
    else var (d, a) := Checked(c, reqs[0].peer, reqs[0].now); [a] + Answers(d, reqs[1..])
  }

  /** Without a quota, a controller admits exactly what its rate limiter does,
      and everything when it has none. */
  lemma {:induction false} WithoutQuotaRateDecides(c: Controller, reqs: seq<Req>)
    requires c.quota.None?
    ensures forall i | 0 <= i < |reqs| ::
              Answers(c, reqs)[i] ==
              if c.rate.None? || Decisions(c.rate.value, c.buckets, reqs)[i] then Admitted(false) else Rejected(Rate)
    decreases |reqs|
  {
    hide Request;
    if reqs != [] {
      WithoutQuotaRateDecides(Checked(c, reqs[0].peer, reqs[0].now).0, reqs[1..]);
    }
  }

  class AdmissionController {
    const quota: Option<nat>
    var free: nat
    const limiter: Option<RateLimiter>

    ghost function Value(): Controller
      reads this, if limiter.Some? then {limiter.value} else {}
    {
      Controller(quota, free, if limiter.Some? then Some(limiter.value.cfg) else None,
                 if limiter.Some? then limiter.value.buckets else map[])
    }

    constructor (maxConcurrent: Option<nat>, rateLimit: Option<Config>)
      ensures Value() == NewController(maxConcurrent, rateLimit)
      ensures limiter.Some? ==> fresh(limiter.value)
    {
      quota := maxConcurrent;
      free := if maxConcurrent.Some? then maxConcurrent.value else 0;
      if rateLimit.Some? {
        var l := new RateLimiter(rateLimit.value);
        limiter := Some(l);
      } else {
        limiter := None;
      }
    }

    /** Rate limit first; only a request that passes it can take a slot. */
    method Check(peer: Ip, now: Instant) returns (a: Admit)
      modifies this, if limiter.Some? then {limiter.value} else {}
      ensures (Value(), a) == Checked(old(Value()), peer, now)
      ensures a == Rejected(Rate) <==> !PassesRate(old(Value()), peer, now)
      ensures a.Admitted? <==> PassesRate(old(Value()), peer, now) && (quota.None? || old(free) > 0)
      ensures free == old(free) - if a.Admitted? && quota.Some? then 1 else 0
    {
      hide Request;
      if limiter.Some? {
        var pass := limiter.value.TryTake(peer, now);
        if !pass {
          return Rejected(Rate);
        }
      }
      if quota.Some? {
        if free == 0 {
          return Rejected(Quota);
        }
        free := free - 1;
        return Admitted(true);
      }
      return Admitted(false);
    }
  }

  // ----- swapping under load ------------------------------------------------

  /** Every controller ever installed, oldest first; the checks that have
      loaded a controller and not finished; the live sessions. */
  datatype Hot = Hot(gens: seq<Controller>, loaded: map<nat, nat>, sessions: seq<Session>)

  /** A live session: the generation that admitted it, and whether it holds one
      of that generation's slots. */
  datatype Session = Session(gen: nat, permit: bool)

  datatype Step =
    | Load(task: nat)
    | Finish(task: nat, peer: Ip, now: Instant)
    | End(session: nat)
    | Swap(quota: Option<nat>, rate: Option<Config>)

  /** A check may load a controller, be overtaken by a swap, and then finish on
      the controller it loaded. */
  predicate Enabled(s: Hot, step: Step)
  {
    match step
    case Load(_) => s.gens != []
    case Finish(task, _, _) => task in s.loaded && s.loaded[task] < |s.gens|
    case End(i) => i < |s.sessions| && s.sessions[i].gen < |s.gens|
    case Swap(_, _) => true
  }

  function Release(gens: seq<Controller>, ended: Session): seq<Controller>
    requires ended.gen < |gens|
  {
    if !ended.permit then gens
    else gens[ended.gen := gens[ended.gen].(free := gens[ended.gen].free + 1)]
  }

  function Next(s: Hot, step: Step): Hot
    requires Enabled(s, step)
  {
    match step
    case Load(task) => s.(loaded := s.loaded[task := |s.gens| - 1])
    case Finish(task, peer, now) =>
      var g := s.loaded[task];
      var (c, a) := Checked(s.gens[g], peer, now);
      var t := s.(gens := s.gens[g := c], loaded := s.loaded - {task});
      if a.Admitted? then t.(sessions := s.sessions + [Session(g, a.permit)]) else t
    case End(i) =>
      s.(gens := Release(s.gens, s.sessions[i]), sessions := s.sessions[..i] + s.sessions[i + 1..])
    case Swap(quota, rate) => s.(gens := s.gens + [NewController(quota, rate)])
  }

  ghost predicate Run(s: Hot, steps: seq<Step>, t: Hot)
    decreases |steps|
  {
    if steps == [] then s == t else Enabled(s, steps[0]) && Run(Next(s, steps[0]), steps[1..], t)
  }

  /** How many live sessions hold a slot of generation g. */
  function Holding(sessions: seq<Session>, g: nat): nat
  {
    if sessions == [] then 0 else (if sessions[0] == Session(g, true) then 1 else 0) + Holding(sessions[1..], g)
  }

  lemma {:induction false} HoldingConcat(a: seq<Session>, b: seq<Session>, g: nat)
    ensures Holding(a + b, g) == Holding(a, g) + Holding(b, g)
    decreases |a|
  {
    if a == [] {
      assert a + b == b;
    } else {
      assert (a + b)[1..] == a[1..] + b;
      HoldingConcat(a[1..], b, g);
    }
  }

  lemma {:induction false} HoldingWithout(sessions: seq<Session>, i: nat, g: nat)
    requires i < |sessions|
    ensures Holding(sessions, g) ==
            Holding(sessions[..i] + sessions[i + 1..], g) + if sessions[i] == Session(g, true) then 1 else 0
  {
    var a, b := sessions[..i], sessions[i + 1..];
    assert sessions == a + ([sessions[i]] + b);
    HoldingConcat(a, [sessions[i]] + b, g);
    HoldingConcat([sessions[i]], b, g);
    HoldingConcat(a, b, g);
  }

  /** Slots are conserved in every generation: free plus held is the quota. */
  ghost predicate Conserved(s: Hot)
  {
    && (forall g | 0 <= g < |s.gens| && s.gens[g].quota.Some? ::
          s.gens[g].free + Holding(s.sessions, g) == s.gens[g].quota.value)
    && (forall i | 0 <= i < |s.sessions| ::
          s.sessions[i].gen < |s.gens| && (s.sessions[i].permit <==> s.gens[s.sessions[i].gen].quota.Some?))
    && (forall task | task in s.loaded :: s.loaded[task] < |s.gens|)
  }

  lemma {:induction false} FinishConserves(s: Hot, task: nat, peer: Ip, now: Instant)
    requires Conserved(s) && Enabled(s, Finish(task, peer, now))
    ensures Conserved(Next(s, Finish(task, peer, now)))
  {
    hide Request, Holding;
    var g := s.loaded[task];
    var (c, a) := Checked(s.gens[g], peer, now);
    var t := Next(s, Finish(task, peer, now));
    assert c.quota == s.gens[g].quota;
    forall h | 0 <= h < |t.gens| && t.gens[h].quota.Some?
      ensures t.gens[h].free + Holding(t.sessions, h) == t.gens[h].quota.value
    {
      if a.Admitted? {
        var p := Session(g, a.permit);
        HoldingConcat(s.sessions, [p], h);
        HoldingOne(p, h);
      }
    }
  }

  lemma {:induction false} HoldingOne(p: Session, g: nat)
    ensures Holding([p], g) == if p == Session(g, true) then 1 else 0
  {
  }

  lemma {:induction false} EndConserves(s: Hot, i: nat)
    requires Conserved(s) && Enabled(s, End(i))
    ensures Conserved(Next(s, End(i)))
  {
    hide Holding;
    var t := Next(s, End(i));
    forall h | 0 <= h < |t.gens| && t.gens[h].quota.Some?
      ensures t.gens[h].free + Holding(t.sessions, h) == t.gens[h].quota.value
    {
      HoldingWithout(s.sessions, i, h);
    }
  }

  /** A swap revokes no permit, recounts no generation, and lets checks that
      have loaded an older controller finish on it; the new generation starts
      with all its slots free and nobody holding one. */
  lemma {:induction false} SwapConserves(s: Hot, quota: Option<nat>, rate: Option<Config>)
    requires Conserved(s)
    ensures var t := Next(s, Swap(quota, rate));
            && Conserved(t)
            && t.sessions == s.sessions && t.loaded == s.loaded
            && |t.gens| == |s.gens| + 1 && t.gens[..|s.gens|] == s.gens
            && t.gens[|s.gens|] == NewController(quota, rate)
            && Holding(t.sessions, |s.gens|) == 0
  {
    hide Holding;
    NobodyHolds(s.sessions, |s.gens|);
  }

  lemma {:induction false} NobodyHolds(sessions: seq<Session>, g: nat)
    requires forall i | 0 <= i < |sessions| :: sessions[i].gen < g
    ensures Holding(sessions, g) == 0
    decreases |sessions|
  {
    if sessions != [] {
      NobodyHolds(sessions[1..], g);
    }
  }

  /** Over every run of checks, session ends and swaps, slots are conserved. */
  lemma {:induction false} RunConserves(s: Hot, steps: seq<Step>, t: Hot)
    requires Conserved(s) && Run(s, steps, t)
    ensures Conserved(t)
    decreases |steps|
  {
    hide Holding, Checked;
    if steps != [] {
      var step := steps[0];
      match step {
        case Finish(task, peer, now) => FinishConserves(s, task, peer, now);
        case End(i) => EndConserves(s, i);
        case Swap(quota, rate) => SwapConserves(s, quota, rate);
        case Load(_) =>
      }
      RunConserves(Next(s, step), steps[1..], t);
    }
  }

  /** The quotas of the generations below n that still hold permits. */
  function QuotaInUse(s: Hot, n: nat): nat
    requires n <= |s.gens|
  {
    if n == 0 then 0
    else QuotaInUse(s, n - 1) +
         if Holding(s.sessions, n - 1) > 0 && s.gens[n - 1].quota.Some? then s.gens[n - 1].quota.value else 0
  }

  /** The sessions holding a slot of a generation below n. */
  function HoldingBelow(sessions: seq<Session>, n: nat): nat
  {
    if n == 0 then 0 else HoldingBelow(sessions, n - 1) + Holding(sessions, n - 1)
  }

  lemma {:induction false} HoldingBelowCons(sessions: seq<Session>, n: nat)
    requires sessions != []
    ensures HoldingBelow(sessions, n) ==
            HoldingBelow(sessions[1..], n) + if sessions[0].permit && sessions[0].gen < n then 1 else 0
    decreases n
  {
    if n > 0 {
      HoldingBelowCons(sessions, n - 1);
    }
  }

  lemma {:induction false} EverySessionCounted(sessions: seq<Session>, n: nat)
    requires forall i | 0 <= i < |sessions| :: sessions[i].permit && sessions[i].gen < n
    ensures HoldingBelow(sessions, n) == |sessions|
    decreases |sessions|
  {
    if sessions == [] {
      NoSessions(n);
    } else {
      HoldingBelowCons(sessions, n);
      EverySessionCounted(sessions[1..], n);
    }
  }

  lemma {:induction false} NoSessions(n: nat)
    ensures HoldingBelow([], n) == 0
    decreases n
  {
    if n > 0 {
      NoSessions(n - 1);
    }
  }

  lemma {:induction false} HoldingWithinQuota(s: Hot, n: nat)
    requires Conserved(s) && n <= |s.gens| && forall g | 0 <= g < |s.gens| :: s.gens[g].quota.Some?
    ensures HoldingBelow(s.sessions, n) <= QuotaInUse(s, n)
    decreases n
  {
    hide Holding;
    if n > 0 {
      HoldingWithinQuota(s, n - 1);
    }
  }

  /** When every generation has a quota, the live sessions of any reachable
      state never exceed the quotas of the generations still holding permits,
      however swaps and checks interleave. */
  lemma {:induction false} LiveSessionsBounded(s: Hot, steps: seq<Step>, t: Hot)
    requires s.loaded == map[] && s.sessions == [] && |s.gens| == 1
    requires s.gens[0] == NewController(s.gens[0].quota, s.gens[0].rate)
    requires Run(s, steps, t)
    requires forall g | 0 <= g < |t.gens| :: t.gens[g].quota.Some?
    ensures |t.sessions| <= QuotaInUse(t, |t.gens|)
  {
    hide Run, QuotaInUse, HoldingBelow;
    RunConserves(s, steps, t);
    EverySessionCounted(t.sessions, |t.gens|);
    HoldingWithinQuota(t, |t.gens|);
  }

  // ----- the rate law over runs ---------------------------------------------

  /** The checks a run finishes on generation g, in order. */
  ghost function Served(s: Hot, steps: seq<Step>, g: nat): seq<Req>
    decreases |steps|
  {
    if steps == [] || !Enabled(s, steps[0]) then []
    else (if steps[0].Finish? && s.loaded[steps[0].task] == g then [Req(steps[0].peer, steps[0].now)] else []) +
         Served(Next(s, steps[0]), steps[1..], g)
  }

  /** How many sessions of `peer` a run opens on generation g. */
  ghost function Opened(s: Hot, steps: seq<Step>, g: nat, peer: Ip): nat
    decreases |steps|
  {
    if steps == [] || !Enabled(s, steps[0]) then 0
    else
      var t := Next(s, steps[0]);
      var opens := steps[0].Finish? && s.loaded[steps[0].task] == g && steps[0].peer == peer
                   && |t.sessions| > |s.sessions|;
      (if opens then 1 else 0) + Opened(t, steps[1..], g, peer)
  }

  /** The limiter state generation g starts a run with. */
  ghost function StartBuckets(s: Hot, g: nat): map<Ip, Bucket>
  {
    if g < |s.gens| then s.gens[g].buckets else map[]
  }

  /** One step's effect on the limiter of generation g. */
  lemma {:induction false} StepServes(s: Hot, step: Step, g: nat)
    requires Enabled(s, step) && g < |Next(s, step).gens|
    ensures var t := Next(s, step);
            var c := t.gens[g];
            && |s.gens| <= |t.gens|
            && (g < |s.gens| ==> c.rate == s.gens[g].rate && c.quota == s.gens[g].quota)
            && (if step.Finish? && s.loaded[step.task] == g && c.rate.Some? then
                  var (m, pass) := Request(c.rate.value, StartBuckets(s, g), step.peer, step.now);
                  && c.buckets == m
                  && (|t.sessions| > |s.sessions| ==> pass)
                  && (c.quota.None? ==> (|t.sessions| > |s.sessions| <==> pass))
                else c.buckets == StartBuckets(s, g))
  {
    hide Request;
    if step.Finish? {
      CheckLaw(s.gens[s.loaded[step.task]], step.peer, step.now);
    }
  }

  /** What a run does to the limiter of generation g, and how the sessions it
      opens relate to what the limiter admits. */
  lemma {:induction false} RunServes(s: Hot, steps: seq<Step>, t: Hot, g: nat, peer: Ip)
    requires Run(s, steps, t) && g < |t.gens| && t.gens[g].rate.Some?
    ensures var cfg := t.gens[g].rate.value;
            && (g < |s.gens| ==> s.gens[g].rate == t.gens[g].rate && s.gens[g].quota == t.gens[g].quota)
            && t.gens[g].buckets == After(cfg, StartBuckets(s, g), Served(s, steps, g))
            && Opened(s, steps, g, peer) <= RateLimits.Admitted(cfg, StartBuckets(s, g), Served(s, steps, g), peer)
            && (t.gens[g].quota.None? ==>
                  Opened(s, steps, g, peer) == RateLimits.Admitted(cfg, StartBuckets(s, g), Served(s, steps, g), peer))
    decreases |steps|
  {
    hide Request, Next, Enabled;
    if steps != [] {
      var u := Next(s, steps[0]);
      RunServes(u, steps[1..], t, g, peer);
      assert [] + Served(u, steps[1..], g) == Served(u, steps[1..], g);
      if g < |u.gens| {
        StepServes(s, steps[0], g);
        if steps[0].Finish? {
          ServeCons(t.gens[g].rate.value, StartBuckets(s, g), steps[0], Served(u, steps[1..], g), peer);
        }
      } else {
        NotYetServed(s, steps[0], g);
      }
    }
  }

  lemma {:induction false} ServeCons(cfg: Config, m: map<Ip, Bucket>, step: Step, more: seq<Req>, peer: Ip)
    requires step.Finish?
    ensures var r := Req(step.peer, step.now);
            var (m', ok) := Request(cfg, m, r.peer, r.now);
            && After(cfg, m, [r] + more) == After(cfg, m', more)
            && RateLimits.Admitted(cfg, m, [r] + more, peer) ==
               (if ok && r.peer == peer then 1 else 0) + RateLimits.Admitted(cfg, m', more, peer)
  {
    hide Request;
    var r := Req(step.peer, step.now);
    assert ([r] + more)[0] == r && ([r] + more)[1..] == more;
  }

  lemma {:induction false} NotYetServed(s: Hot, step: Step, g: nat)
    requires Enabled(s, step) && g >= |Next(s, step).gens|
    ensures g >= |s.gens| && !(step.Finish? && s.loaded[step.task] == g)
  {
    hide Checked;
  }

  lemma {:induction false} NothingServedBefore(s: Hot, steps: seq<Step>, t: Hot, g: nat)
    requires Run(s, steps, t) && g >= |t.gens|
    ensures Served(s, steps, g) == [] && g >= |s.gens|
    decreases |steps|
  {
    hide Next, Enabled;
    if steps != [] {
      NothingServedBefore(Next(s, steps[0]), steps[1..], t, g);
      NotYetServed(s, steps[0], g);
    }
  }

  /** The rate limit where it is enforced.  Over every run of loads, checks,
      session ends and swaps, each generation with a rate opens, in any window
      of the checks it serves, at most capacity + rate * T sessions of one
      source, T the window's length in seconds rounded up.  The clock is read
      under the limiter's lock, so it does not go back along one generation's
      checks. */
  lemma {:induction false} RateHoldsOverRuns(s: Hot, before: seq<Step>, u: Hot, window: seq<Step>, t: Hot, g: nat, peer: Ip)
    requires forall h | 0 <= h < |s.gens| :: s.gens[h].buckets == map[]
    requires Run(s, before, u) && Run(u, window, t) && g < |t.gens| && t.gens[g].rate.Some?
    requires Nondecreasing(Served(s, before, g) + Served(u, window, g))
    ensures var reqs := Served(u, window, g);
            var cfg := t.gens[g].rate.value;
            Opened(u, window, g, peer) <=
            if reqs == [] then 0 else cfg.capacity + cfg.refillPerSec * Ticks(reqs[|reqs| - 1].now, reqs[0].now)
  {
    hide Run, Served, Opened, After, RateLimits.Admitted, Ticks;
    RunServes(u, window, t, g, peer);
    var cfg, past, reqs := t.gens[g].rate.value, Served(s, before, g), Served(u, window, g);
    if g < |u.gens| {
      RunServes(s, before, u, g, peer);
    } else {
      NothingServedBefore(s, before, u, g);
      AfterNothing(cfg, map[]);
    }
    assert StartBuckets(u, g) == After(cfg, map[], past);
    if reqs == [] {
      NothingAdmitted(cfg, StartBuckets(u, g), peer);
    } else {
      WindowBound(cfg, past, reqs, peer);
    }
  }

  lemma {:induction false} AfterNothing(cfg: Config, m: map<Ip, Bucket>)
    ensures After(cfg, m, []) == m
  {
  }

  lemma {:induction false} NothingAdmitted(cfg: Config, m: map<Ip, Bucket>, peer: Ip)
    ensures RateLimits.Admitted(cfg, m, [], peer) == 0
  {
  }

  // ----- a swap takes over --------------------------------------------------

  lemma {:induction false} StepDrains(s: Hot, step: Step, m: nat, g: nat)
    requires Enabled(s, step) && m < |s.gens| && g < m && forall task | task in s.loaded :: s.loaded[task] >= m
    ensures var t := Next(s, step);
            && |t.gens| >= |s.gens| && (forall task | task in t.loaded :: t.loaded[task] >= m)
            && Holding(t.sessions, g) <= Holding(s.sessions, g)
            && !(step.Finish? && s.loaded[step.task] == g)
  {
    hide Checked, Holding;
    match step
    case Finish(task, peer, now) =>
      var a := Checked(s.gens[s.loaded[task]], peer, now).1;
      if a.Admitted? {
        var p := Session(s.loaded[task], a.permit);
        HoldingConcat(s.sessions, [p], g);
        HoldingOne(p, g);
      }
    case End(i) => HoldingWithout(s.sessions, i, g);
    case _ =>
  }

  /** Once no pending check has an older controller loaded, the older
      generations only drain: they serve no check, open no session, and their
      held slots never grow. */
  lemma {:induction false} OldGenerationsDrain(s: Hot, steps: seq<Step>, t: Hot, m: nat, g: nat)
    requires Run(s, steps, t) && m < |s.gens| && g < m && forall task | task in s.loaded :: s.loaded[task] >= m
    ensures Served(s, steps, g) == [] && forall peer :: Opened(s, steps, g, peer) == 0
    ensures Holding(t.sessions, g) <= Holding(s.sessions, g)
    decreases |steps|
  {
    hide Next, Enabled, Holding;
    if steps != [] {
      StepDrains(s, steps[0], m, g);
      OldGenerationsDrain(Next(s, steps[0]), steps[1..], t, m, g);
    }
  }

  /** The model is not idle: a fresh controller with a free slot, or without a
      quota, admits the first connection of any source its rate allows one. */
  lemma {:induction false} FirstCheckAdmits(quota: Option<nat>, rate: Option<Config>, task: nat, peer: Ip, now: Instant)
    returns (s: Hot, t: Hot)
    requires quota != Some(0) && (rate.Some? ==> rate.value.capacity > 0)
    ensures s == Hot([NewController(quota, rate)], map[], []) && Run(s, [Load(task), Finish(task, peer, now)], t)
    ensures t.sessions == [Session(0, quota.Some?)] && t.loaded == map[]
  {
    s := Hot([NewController(quota, rate)], map[], []);
    var a := Next(s, Load(task));
    t := Next(a, Finish(task, peer, now));
    var steps := [Load(task), Finish(task, peer, now)];
    assert steps[1..] == [Finish(task, peer, now)] && steps[1..][1..] == [];
    assert Run(t, [], t) && Run(a, steps[1..], t);
  }
}
