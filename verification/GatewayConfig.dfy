/** Configuration validation and the split into listener groups. */
module GatewayConfig {
  import opened Wrappers
  import opened Ordering
  import opened SniRouting
  import RateLimits
  import Admission

  datatype Role = ServeTcp | ServePq

  datatype RateLimit = RateLimit(capacity: RateLimits.U32, refillPerSec: RateLimits.U32)

  datatype Limits = Limits(maxConcurrent: Option<nat>, ratePerSource: Option<RateLimit>)

  datatype Tls = Tls(cert: string, key: string)

  datatype TenantConfig = TenantConfig(
    name: string, listen: string, peerPq: Option<string>, backend: Option<string>, tls: Option<Tls>,
    sni: Option<string>, auditSigner: Option<string>, limits: Option<Limits>)

  datatype Config = Config(role: Role, auditSigner: Option<string>, tenants: seq<TenantConfig>)

  datatype ConfigError = Missing | Conflict

  // ----- what a valid configuration is --------------------------------------

  ghost predicate DistinctNames(tenants: seq<TenantConfig>)
  {
    forall i, j | 0 <= i < j < |tenants| :: tenants[i].name != tenants[j].name
  }

  predicate TenantOk(cfg: Config, t: TenantConfig)
  {
    && (t.auditSigner.Some? || cfg.auditSigner.Some?)
    && match cfg.role
       case ServeTcp => t.peerPq.Some? && t.backend.None?
       case ServePq => t.backend.Some? && t.peerPq.None? && t.tls.None?
  }

  /** The tenants on one listen address, in configuration order. */
  function Group(tenants: seq<TenantConfig>, listen: string): (g: seq<TenantConfig>)
    ensures forall t :: t in g <==> t in tenants && t.listen == listen
  {
    if tenants == [] then []
    else (if tenants[0].listen == listen then [tenants[0]] else []) + Group(tenants[1..], listen)
  }

  predicate MemberOk(t: TenantConfig)
  {
    t.tls.Some? && t.sni.Some? && t.sni.value != "" && !BadPattern(t.sni.value)
  }

  ghost predicate DistinctSnis(group: seq<TenantConfig>)
  {
    forall i, j | 0 <= i < j < |group| :: group[i].sni != group[j].sni
  }

  /** A lone tenant has no SNI; siblings all have TLS and distinct patterns. */
  ghost predicate GroupOk(group: seq<TenantConfig>)
  {
    if |group| == 1 then group[0].sni.None?
    else (forall t | t in group :: MemberOk(t)) && DistinctSnis(group)
  }

  predicate LimitsOk(t: TenantConfig)
  {
    t.limits.Some? ==>
      && t.limits.value.maxConcurrent != Some(0)
      && (t.limits.value.ratePerSource.Some? ==>
            t.limits.value.ratePerSource.value.capacity != 0 && t.limits.value.ratePerSource.value.refillPerSec != 0)
  }

  ghost predicate ListenersOk(cfg: Config)
  {
    match cfg.role
    case ServePq => forall t | t in cfg.tenants :: t.sni.None?
    case ServeTcp =>
      && (forall t | t in cfg.tenants :: GroupOk(Group(cfg.tenants, t.listen)))
      && (forall t | t in cfg.tenants :: LimitsOk(t))
  }

  ghost predicate ValidConfig(cfg: Config)
  {
    && cfg.tenants != [] && DistinctNames(cfg.tenants)
    && (forall t | t in cfg.tenants :: TenantOk(cfg, t))
    && ListenersOk(cfg)
  }

  // ----- the validator ------------------------------------------------------

  /** Accepts exactly the valid configurations. */
  method Validate(cfg: Config) returns (r: Option<ConfigError>)
    ensures r.None? <==> ValidConfig(cfg)
  {
    hide Group, MemberOk, ListenersOk;
    if cfg.tenants == [] {
      return Some(Missing);
    }
    var seen: set<string> := {};
    for i := 0 to |cfg.tenants|
      invariant forall n :: n in seen <==> exists k | 0 <= k < i :: cfg.tenants[k].name == n
      invariant forall a, b | 0 <= a < b < i :: cfg.tenants[a].name != cfg.tenants[b].name
      invariant forall k | 0 <= k < i :: TenantOk(cfg, cfg.tenants[k])
    {
      var t := cfg.tenants[i];
      if t.name in seen {
        return Some(Conflict);
      }
      seen := seen + {t.name};
      assert t in cfg.tenants;
      if t.auditSigner.None? && cfg.auditSigner.None? {
        return Some(Missing);
      }
      match cfg.role {
        case ServeTcp =>
          if t.peerPq.None? {
            return Some(Missing);
          }
          if t.backend.Some? {
            return Some(Conflict);
          }
        case ServePq =>
          if t.backend.None? {
            return Some(Missing);
          }
          if t.peerPq.Some? || t.tls.Some? {
            return Some(Conflict);
          }
      }
    }
    r := ValidateSniGroups(cfg);
  }

  method ValidateSniGroups(cfg: Config) returns (r: Option<ConfigError>)
    ensures r.None? <==> ListenersOk(cfg)
  {
    hide Group, GroupOk;
    if cfg.role != ServeTcp {
      for i := 0 to |cfg.tenants|
        invariant forall k | 0 <= k < i :: cfg.tenants[k].sni.None?
      {
        if cfg.tenants[i].sni.Some? {
          return Some(Conflict);
        }
      }
      return None;
    }
    var byListen := GroupByListen(cfg.tenants);
    // the map is visited in an arbitrary order
    var todo := byListen.Keys;
    while todo != {}
      invariant todo <= byListen.Keys
      invariant forall l | l in byListen && l !in todo :: GroupOk(byListen[l])
      decreases |todo|
    {
      var listen :| listen in todo;
      todo := todo - {listen};
      var fault := ValidateGroup(byListen[listen]);
      if fault.Some? {
        var t :| t in cfg.tenants && t.listen == listen;
        return fault;
      }
    }
    for i := 0 to |cfg.tenants|
      invariant forall k | 0 <= k < i :: LimitsOk(cfg.tenants[k])
    {
      var t := cfg.tenants[i];
      assert t in cfg.tenants;
      if t.limits.Some? {
        if t.limits.value.maxConcurrent == Some(0) {
          return Some(Conflict);
        }
        var rate := t.limits.value.ratePerSource;
        if rate.Some? && rate.value.capacity == 0 {
          return Some(Conflict);
        }
        if rate.Some? && rate.value.refillPerSec == 0 {
          return Some(Conflict);
        }
      }
    }
    return None;
  }

  lemma {:induction false} GroupSnoc(tenants: seq<TenantConfig>, i: nat, listen: string)
    requires i < |tenants|
    ensures Group(tenants[..i + 1], listen) ==
            Group(tenants[..i], listen) + if tenants[i].listen == listen then [tenants[i]] else []
    decreases i
  {
    if i > 0 {
      var rest := tenants[1..];
      GroupSnoc(rest, i - 1, listen);
      assert rest[i - 1] == tenants[i];
      assert tenants[..i + 1][1..] == rest[..i] && tenants[..i][1..] == rest[..i - 1];
      assert tenants[..i + 1][0] == tenants[0] == tenants[..i][0];
    } else {
      assert tenants[..1] == [tenants[0]] && tenants[..0] == [];
    }
  }

  lemma {:induction false} GroupEmpty(tenants: seq<TenantConfig>, listen: string)
    requires forall t | t in tenants :: t.listen != listen
    ensures Group(tenants, listen) == []
    decreases |tenants|
  {
    if tenants != [] {
      GroupEmpty(tenants[1..], listen);
    }
  }

  method GroupByListen(tenants: seq<TenantConfig>) returns (m: map<string, seq<TenantConfig>>)
    ensures forall l :: l in m <==> exists t | t in tenants :: t.listen == l
    ensures forall l | l in m :: m[l] == Group(tenants, l)
  {
    hide Group;
    m := map[];
    for i := 0 to |tenants|
      invariant forall l :: l in m <==> exists t | t in tenants[..i] :: t.listen == l
      invariant forall l | l in m :: m[l] == Group(tenants[..i], l)
    {
      var t := tenants[i];
      forall l ensures Group(tenants[..i + 1], l) == Group(tenants[..i], l) + if t.listen == l then [t] else [] {
        GroupSnoc(tenants, i, l);
      }
      assert tenants[..i + 1] == tenants[..i] + [t];
      if t.listen in m {
        m := m[t.listen := m[t.listen] + [t]];
      } else {
        GroupEmpty(tenants[..i], t.listen);
        m := m[t.listen := [t]];
      }
    }
    assert tenants[..|tenants|] == tenants;
  }

  method ValidateGroup(group: seq<TenantConfig>) returns (r: Option<ConfigError>)
    ensures r.None? <==> GroupOk(group)
  {
    if |group| == 1 {
      return if group[0].sni.Some? then Some(Conflict) else None;
    }
    var tlsState: Option<bool> := None;
    var seen: set<string> := {};
    for i := 0 to |group|
      invariant tlsState.None? <==> i == 0
      invariant tlsState.Some? ==> tlsState.value
      invariant forall k | 0 <= k < i :: MemberOk(group[k])
      invariant forall s :: s in seen <==> exists k | 0 <= k < i :: group[k].sni == Some(s)
      invariant forall a, b | 0 <= a < b < i :: group[a].sni != group[b].sni
    {
      var t := group[i];
      assert t in group;
      var hasTls := t.tls.Some?;
      if tlsState.Some? {
        if tlsState.value != hasTls {
          return Some(Conflict);
        }
      } else {
        tlsState := Some(hasTls);
      }
      if !hasTls {
        return Some(Conflict);
      }
      if t.sni.None? {
        return Some(Missing);
      }
      var sni := t.sni.value;
      if sni == "" {
        return Some(Missing);
      }
      if '*' in sni && (!IsWildcard(sni) || '*' in sni[2..]) {
        return Some(Conflict);
      }
      if sni in seen {
        return Some(Conflict);
      }
      seen := seen + {sni};
    }
    return None;
  }

  // ----- listener groups ----------------------------------------------------

  datatype ListenerGroup = ListenerGroup(listen: string, sniDispatch: bool, tenants: seq<TenantConfig>)

  /** Can the tenant be resolved for the serve-tcp role? */
  predicate Resolvable(cfg: Config, t: TenantConfig)
  {
    (t.auditSigner.Some? || cfg.auditSigner.Some?) && t.peerPq.Some?
  }

  /** Resolve the tenants and group them by listen address.  A resolved tenant
      keeps the configured fields. */
  method ResolveServeTcpGroups(cfg: Config) returns (r: Result<seq<ListenerGroup>, ConfigError>)
    ensures r.Ok? <==>
              && cfg.role.ServeTcp?
              && forall t | t in cfg.tenants :: (t.auditSigner.Some? || cfg.auditSigner.Some?) && t.peerPq.Some?
    ensures ValidConfig(cfg) && cfg.role.ServeTcp? ==> r.Ok?
    ensures r.Ok? ==> Groups(cfg, r.value)
  {
    if cfg.role != ServeTcp {
      return Err(Conflict);
    }
    for i := 0 to |cfg.tenants|
      invariant forall k | 0 <= k < i :: Resolvable(cfg, cfg.tenants[k])
    {
      assert cfg.tenants[i] in cfg.tenants;
      if cfg.tenants[i].auditSigner.None? && cfg.auditSigner.None? {
        return Err(Missing);
      }
      if cfg.tenants[i].peerPq.None? {
        return Err(Missing);
      }
    }
    var groups := GroupListeners(cfg);
    return Ok(groups);
  }

  /** Ascending, nonempty, complete groups. */
  ghost predicate Groups(cfg: Config, groups: seq<ListenerGroup>)
  {
    && (forall i, j | 0 <= i < j < |groups| :: Less(groups[i].listen, groups[j].listen))
    && (forall g | g in groups ::
          && g.tenants == Group(cfg.tenants, g.listen) && g.tenants != []
          && (g.sniDispatch <==> |g.tenants| > 1))
    && (forall t | t in cfg.tenants :: exists g | g in groups :: g.listen == t.listen)
  }

  method GroupListeners(cfg: Config) returns (groups: seq<ListenerGroup>)
    ensures Groups(cfg, groups)
  {
    hide Group, Less;
    var byListen := GroupByListen(cfg.tenants);
    var keys := SortedKeys(byListen.Keys);
    groups := [];
    for i := 0 to |keys|
      invariant |groups| == i
      invariant forall k | 0 <= k < i ::
                  && groups[k].listen == keys[k] && groups[k].tenants == Group(cfg.tenants, keys[k])
                  && groups[k].tenants != [] && (groups[k].sniDispatch <==> |groups[k].tenants| > 1)
    {
      var listen := keys[i];
      assert listen in byListen;
      var tenants := byListen[listen];
      GroupNonempty(cfg.tenants, listen);
      groups := groups + [ListenerGroup(listen, |tenants| > 1, tenants)];
    }
    forall t | t in cfg.tenants ensures exists g | g in groups :: g.listen == t.listen {
      assert t.listen in byListen;
      var k :| 0 <= k < |keys| && keys[k] == t.listen;
      assert groups[k] in groups;
    }
  }

  lemma {:induction false} GroupNonempty(tenants: seq<TenantConfig>, listen: string)
    requires exists t | t in tenants :: t.listen == listen
    ensures Group(tenants, listen) != []
  {
    var t :| t in tenants && t.listen == listen;
    assert t in Group(tenants, listen);
  }

  /** How often t occurs. */
  function Occurrences(tenants: seq<TenantConfig>, t: TenantConfig): nat { multiset(tenants)[t] }

  lemma {:induction false} GroupKeepsMembers(tenants: seq<TenantConfig>, t: TenantConfig)
    ensures Occurrences(Group(tenants, t.listen), t) == Occurrences(tenants, t)
    decreases |tenants|
  {
    if tenants != [] {
      assert tenants == [tenants[0]] + tenants[1..];
      GroupKeepsMembers(tenants[1..], t);
    }
  }

  /** The groups partition the tenants: each tenant is in exactly one group,
      as often as it is configured. */
  lemma {:induction false} GroupsPartition(cfg: Config, groups: seq<ListenerGroup>, t: TenantConfig) returns (i: nat)
    requires Groups(cfg, groups) && t in cfg.tenants
    ensures i < |groups| && Occurrences(groups[i].tenants, t) == Occurrences(cfg.tenants, t)
    ensures forall j | 0 <= j < |groups| && j != i :: t !in groups[j].tenants
  {
    hide Group, Less;
    i :| i < |groups| && groups[i].listen == t.listen;
    assert groups[i] in groups;
    GroupKeepsMembers(cfg.tenants, t);
    forall j | 0 <= j < |groups| && j != i ensures t !in groups[j].tenants {
      assert groups[j] in groups;
      LessIrreflexive(t.listen);
    }
  }

  /** The names a group hands to the two routing structures. */
  function NamesOf(group: seq<TenantConfig>): (n: seq<SniCert>)
    requires forall t | t in group :: t.sni.Some?
    ensures |n| == |group|
    ensures forall i | 0 <= i < |group| :: n[i] == SniCert(group[i].sni.value, group[i].name)
  {
    if group == [] then [] else [SniCert(group[0].sni.value, group[0].name)] + NamesOf(group[1..])
  }

  /** For every valid serve-tcp configuration and every listener it shares:
      both routing structures can be built from the group's names, and on
      every hostname they choose the same tenant, or both none. */
  lemma {:induction false} SharedListenersRoute(cfg: Config, listen: string, host: string)
    requires ValidConfig(cfg) && cfg.role.ServeTcp? && |Group(cfg.tenants, listen)| > 1
    ensures forall t | t in Group(cfg.tenants, listen) :: t.sni.Some?
    ensures var names := NamesOf(Group(cfg.tenants, listen));
            && TableOf(EmptyTable, Contexts(names)).Ok? && ResolverOf(names).Ok?
            && var t, r := TableOf(EmptyTable, Contexts(names)).value, ResolverOf(names).value;
               Scan(r, host) == match Scan(t, host) case None => None case Some(c) => Some(c.name)
  {
    hide TableOf, ResolverOf, Scan, Contexts;
    var group := Group(cfg.tenants, listen);
    assert group[0] in group;
    assert GroupOk(group);
    forall t | t in group ensures t.sni.Some? {
      assert MemberOk(t);
    }
    var names := NamesOf(group);
    forall i | 0 <= i < |names| ensures !BadPattern(names[i].sni) {
      assert group[i] in group;
    }
    TableAndResolverAgree(names, host);
  }

  ghost predicate TenantServesByName(t: TenantConfig, host: string)
  {
    ServesByName(Context(t.name, t.sni), host)
  }

  ghost predicate TenantServesByWildcard(t: TenantConfig, host: string)
  {
    ServesByWildcard(Context(t.name, t.sni), host)
  }

  lemma {:induction false} ContextsOfGroup(group: seq<TenantConfig>)
    requires forall t | t in group :: t.sni.Some?
    ensures var cs := Contexts(NamesOf(group));
            && |cs| == |group| && forall i | 0 <= i < |group| :: cs[i] == Context(group[i].name, group[i].sni)
  {
  }

  /** Routing, end to end: for every valid serve-tcp configuration and every
      listener it shares, the name a hostname is routed to belongs to exactly
      one configured tenant; that tenant is on this listener and configured
      this very hostname, or, when no tenant there did, the wildcard over it;
      and a hostname that is routed nowhere was configured by no one there. */
  lemma {:induction false} RoutedToItsTenant(cfg: Config, listen: string, host: string)
    requires ValidConfig(cfg) && cfg.role.ServeTcp? && |Group(cfg.tenants, listen)| > 1
    ensures var group := Group(cfg.tenants, listen);
            && (forall t | t in group :: t.sni.Some?)
            && TableOf(EmptyTable, Contexts(NamesOf(group))).Ok?
            && match Scan(TableOf(EmptyTable, Contexts(NamesOf(group))).value, host)
               case Some(c) =>
                 exists t | t in group ::
                   && t.name == c.name && (forall u | u in cfg.tenants :: u.name == c.name ==> u == t)
                   && (TenantServesByName(t, host) ||
                       (TenantServesByWildcard(t, host) && forall u | u in group :: !TenantServesByName(u, host)))
               case None => forall t | t in group :: !TenantServesByName(t, host) && !TenantServesByWildcard(t, host)
  {
    hide TableOf, Scan, Contexts, NamesOf, Group, ServesByName, ServesByWildcard, GroupOk, ListenersOk;
    SharedListenersRoute(cfg, listen, host);
    var group := Group(cfg.tenants, listen);
    var cs := Contexts(NamesOf(group));
    ContextsOfGroup(group);
    BuiltTableRoutes(cs, host);
    forall t | t in group ensures Context(t.name, t.sni) in cs {
      var i :| 0 <= i < |group| && group[i] == t;
      assert cs[i] == Context(t.name, t.sni);
    }
    match Scan(TableOf(EmptyTable, cs).value, host)
    case Some(c) =>
      var i :| 0 <= i < |cs| && cs[i] == c;
      assert c == Context(group[i].name, group[i].sni);
      NamesIdentify(cfg, group[i]);
      assert group[i] in group;
    case None =>
  }

  lemma {:induction false} NamesIdentify(cfg: Config, t: TenantConfig)
    requires DistinctNames(cfg.tenants) && t in cfg.tenants
    ensures forall u | u in cfg.tenants :: u.name == t.name ==> u == t
  {
    var i :| 0 <= i < |cfg.tenants| && cfg.tenants[i] == t;
    forall u | u in cfg.tenants && u.name == t.name ensures u == t {
      var j :| 0 <= j < |cfg.tenants| && cfg.tenants[j] == u;
      assert i == j;
    }
  }

  /** The limits of a valid serve-tcp configuration let traffic in: the first
      connection of every source to a fresh controller is admitted. */
  lemma {:induction false} ValidLimitsAdmit(cfg: Config, t: TenantConfig, peer: RateLimits.Ip, now: RateLimits.Instant)
    requires ValidConfig(cfg) && cfg.role.ServeTcp? && t in cfg.tenants && t.limits.Some?
    ensures var l := t.limits.value;
            var rate := if l.ratePerSource.None? then None
                        else Some(RateLimits.Config(l.ratePerSource.value.capacity, l.ratePerSource.value.refillPerSec));
            Admission.Checked(Admission.NewController(l.maxConcurrent, rate), peer, now).1.Admitted?
  {
    hide Group, GroupOk;
    assert LimitsOk(t);
  }

  /** What it takes for one tenant alone to be a valid configuration. */
  lemma {:induction false} LoneTenantValidIff(role: Role, signer: Option<string>, t: TenantConfig)
    ensures ValidConfig(Config(role, signer, [t])) <==>
            && (t.auditSigner.Some? || signer.Some?) && t.sni.None?
            && (role.ServeTcp? ==>
                  && t.peerPq.Some? && t.backend.None?
                  && (t.limits.Some? && t.limits.value.maxConcurrent.Some? ==> t.limits.value.maxConcurrent.value > 0)
                  && (t.limits.Some? && t.limits.value.ratePerSource.Some? ==>
                        t.limits.value.ratePerSource.value.capacity > 0 && t.limits.value.ratePerSource.value.refillPerSec > 0))
            && (role.ServePq? ==> t.backend.Some? && t.peerPq.None? && t.tls.None?)
  {
    var cfg := Config(role, signer, [t]);
    assert cfg.tenants[0] == t && t in cfg.tenants;
    assert Group([t], t.listen) == [t];
  }

  /** What a serve-tcp tenant needs in order to share its listener. */
  predicate CanShare(signer: Option<string>, t: TenantConfig)
  {
    && (t.auditSigner.Some? || signer.Some?) && t.peerPq.Some? && t.backend.None? && t.tls.Some?
    && t.sni.Some? && t.sni.value != ""
    && (forall i | 0 <= i < |t.sni.value| && t.sni.value[i] == '*' :: i == 0 && |t.sni.value| >= 2 && t.sni.value[1] == '.')
    && (t.limits.Some? ==> t.limits.value.maxConcurrent != Some(0))
    && (t.limits.Some? && t.limits.value.ratePerSource.Some? ==>
          t.limits.value.ratePerSource.value.capacity > 0 && t.limits.value.ratePerSource.value.refillPerSec > 0)
  }

  /** What it takes for two tenants to share a listener. */
  lemma {:induction false} SharedPairValidIff(signer: Option<string>, t: TenantConfig, u: TenantConfig)
    requires t.listen == u.listen
    ensures ValidConfig(Config(ServeTcp, signer, [t, u])) <==>
            t.name != u.name && t.sni != u.sni && CanShare(signer, t) && CanShare(signer, u)
  {
    hide BadPattern, Group, GroupOk, CanShare;
    var cfg := Config(ServeTcp, signer, [t, u]);
    assert cfg.tenants[0] == t && cfg.tenants[1] == u && t in cfg.tenants && u in cfg.tenants;
    PairGroup(t, u);
    CanShareIff(cfg, t);
    CanShareIff(cfg, u);
    assert DistinctNames([t, u]) <==> t.name != u.name;
  }

  lemma {:induction false} PairGroup(t: TenantConfig, u: TenantConfig)
    requires t.listen == u.listen
    ensures Group([t, u], t.listen) == [t, u]
    ensures GroupOk([t, u]) <==> MemberOk(t) && MemberOk(u) && t.sni != u.sni
  {
    hide MemberOk;
    assert [t, u][1..] == [u] && [u][1..] == [];
    assert Group([u], t.listen) == [u];
    assert [t, u][0] == t && [t, u][1] == u && t in [t, u] && u in [t, u];
  }

  lemma {:induction false} CanShareIff(cfg: Config, t: TenantConfig)
    requires cfg.role.ServeTcp?
    ensures CanShare(cfg.auditSigner, t) <==> TenantOk(cfg, t) && MemberOk(t) && LimitsOk(t)
  {
    hide BadPattern;
    if t.sni.Some? {
      WellFormedPattern(t.sni.value);
    }
  }

  /** No configuration with two tenants of one name, and none with no tenant,
      is valid. */
  lemma {:induction false} InvalidShapes(cfg: Config, i: nat, j: nat)
    requires cfg.tenants == [] || (i < j < |cfg.tenants| && cfg.tenants[i].name == cfg.tenants[j].name)
    ensures !ValidConfig(cfg)
  {
    hide ListenersOk;
  }
}
