/** SNI routing: the dispatch table and the certificate resolver, two
    structures built from the same names by different code, and the keyed
    lookup both amount to. */
module SniRouting {
  import opened Wrappers

  // ----- text ---------------------------------------------------------------

  predicate IsWildcard(sni: string) { |sni| >= 2 && sni[..2] == "*." }

  predicate HasDot(s: string) { '.' in s }

  predicate EndsWith(s: string, suffix: string)
  {
    |suffix| <= |s| && s[|s| - |suffix|..] == suffix
  }

  /** The one-label rule of section 6.4.3 of RFC 6125 as both matchers code it:
      strip the suffix; what is left must be one nonempty label. */
  predicate Matches(host: string, suffix: string)
  {
    EndsWith(host, suffix) && var prefix := host[..|host| - |suffix|]; prefix != "" && !HasDot(prefix)
  }

  /** Position of the first dot, or the length if there is none. */
  function FirstDot(s: string): (i: nat)
    ensures i <= |s| && (i < |s| ==> s[i] == '.') && !HasDot(s[..i])
  {
    if s == "" then 0 else if s[0] == '.' then 0 else
      var i := FirstDot(s[1..]);
      assert s[..i + 1] == [s[0]] + s[1..][..i];
      i + 1
  }

  /** The text from the first dot on: the only suffix that can match. */
  function Tail(host: string): string { host[FirstDot(host)..] }

  /** A dotted suffix matches exactly when it is the text from the first dot
      and something precedes it. */
  lemma {:induction false} MatchesIffTail(host: string, suffix: string)
    requires suffix != "" && suffix[0] == '.'
    ensures Matches(host, suffix) <==> FirstDot(host) > 0 && suffix == Tail(host)
  {
    var d := FirstDot(host);
    if Matches(host, suffix) {
      var n := |host| - |suffix|;
      assert host[n] == host[n..][0] == '.';
      assert !HasDot(host[..n]);
    }
    if d > 0 && suffix == Tail(host) {
      assert host[..|host| - |suffix|] == host[..d];
    }
  }

  // ----- routes -------------------------------------------------------------

  /** Exact names and wildcard suffixes, each leading to a T. */
  datatype Routes<T> = Routes(exact: map<string, T>, wildcards: seq<(string, T)>)

  /** The scan both lookups perform. */
  function ScanWildcards<T>(wildcards: seq<(string, T)>, host: string): Option<T>
  {
    if wildcards == [] then None
    else if Matches(host, wildcards[0].0) then Some(wildcards[0].1)
    else ScanWildcards(wildcards[1..], host)
  }

  function Scan<T>(r: Routes<T>, host: string): Option<T>
  {
    if host in r.exact then Some(r.exact[host]) else ScanWildcards(r.wildcards, host)
  }

  predicate HasSuffix<T>(wildcards: seq<(string, T)>, suffix: string)
  {
    exists i | 0 <= i < |wildcards| :: wildcards[i].0 == suffix
  }

  /** Suffixes are dotted and pairwise different. */
  ghost predicate WellFormed<T>(r: Routes<T>)
  {
    && (forall i | 0 <= i < |r.wildcards| :: r.wildcards[i].0 != "" && r.wildcards[i].0[0] == '.')
    && (forall i, j | 0 <= i < j < |r.wildcards| :: r.wildcards[i].0 != r.wildcards[j].0)
  }

  /** The wildcards as a map keyed by suffix. */
  ghost function BySuffix<T>(wildcards: seq<(string, T)>): map<string, T>
  {
    if wildcards == [] then map[] else BySuffix(wildcards[1..])[wildcards[0].0 := wildcards[0].1]
  }

  /** The reference: exact name first, then one keyed lookup on the text from
      the first dot. */
  ghost function KeyedLookup<T>(r: Routes<T>, host: string): Option<T>
  {
    if host in r.exact then Some(r.exact[host])
    else if FirstDot(host) > 0 && Tail(host) in BySuffix(r.wildcards) then Some(BySuffix(r.wildcards)[Tail(host)])
    else None
  }

  lemma {:induction false} ScanIsKeyed<T>(wildcards: seq<(string, T)>, host: string)
    requires WellFormed(Routes(map[], wildcards))
    ensures ScanWildcards(wildcards, host) ==
            if FirstDot(host) > 0 && Tail(host) in BySuffix(wildcards) then Some(BySuffix(wildcards)[Tail(host)]) else None
    decreases |wildcards|
  {
    hide Matches, FirstDot, Tail;
    if wildcards != [] {
      MatchesIffTail(host, wildcards[0].0);
      ScanIsKeyed(wildcards[1..], host);
    }
  }

  /** Lookup is keyed lookup: at most one wildcard can match a hostname, so the
      order of the scan does not matter. */
  lemma {:induction false} LookupIsKeyed<T>(r: Routes<T>, host: string)
    requires WellFormed(r)
    ensures Scan(r, host) == KeyedLookup(r, host)
    ensures forall i, j | 0 <= i < |r.wildcards| && 0 <= j < |r.wildcards| ::
              Matches(host, r.wildcards[i].0) && Matches(host, r.wildcards[j].0) ==> i == j
  {
    hide Matches, FirstDot, Tail;
    ScanIsKeyed(r.wildcards, host);
    forall i, j | 0 <= i < |r.wildcards| && 0 <= j < |r.wildcards|
                  && Matches(host, r.wildcards[i].0) && Matches(host, r.wildcards[j].0)
      ensures i == j
    {
      MatchesIffTail(host, r.wildcards[i].0);
      MatchesIffTail(host, r.wildcards[j].0);
    }
  }

  // ----- the dispatch table -------------------------------------------------

  datatype Context = Context(name: string, sni: Option<string>)

  type Table = Routes<Context>

  datatype SniError = NoSni | Duplicate | BadWildcard | NoEntries

  /** Adding one context, as construction and runtime addition both do. */
  function WithTenantAdded(t: Table, ctx: Context): Result<Table, SniError>
  {
    if ctx.sni.None? then Err(NoSni)
    else
      var sni := ctx.sni.value;
      if IsWildcard(sni) then
        if HasSuffix(t.wildcards, sni[1..]) then Err(Duplicate)
        else Ok(t.(wildcards := t.wildcards + [(sni[1..], ctx)]))
      else if sni in t.exact then Err(Duplicate)
      else Ok(t.(exact := t.exact[sni := ctx]))
  }

  function TableOf(t: Table, contexts: seq<Context>): Result<Table, SniError>
    decreases |contexts|
  {
    if contexts == [] then Ok(t)
    else
      match WithTenantAdded(t, contexts[0])
      case Err(e) => Err(e)
      case Ok(t') => TableOf(t', contexts[1..])
  }

  const EmptyTable: Table := Routes(map[], [])

  /** Build a dispatch table from per-tenant contexts. */
  method NewTable(contexts: seq<Context>) returns (r: Result<Table, SniError>)
    ensures r == TableOf(EmptyTable, contexts)
  {
    hide TableOf;
    var bySni: map<string, Context> := map[];
    var wildcards: seq<(string, Context)> := [];
    for i := 0 to |contexts|
      invariant TableOf(EmptyTable, contexts) == TableOf(Routes(bySni, wildcards), contexts[i..])
    {
      var ctx := contexts[i];
      TableOfStep(Routes(bySni, wildcards), contexts, i);
      if ctx.sni.None? {
        return Err(NoSni);
      }
      var sni := ctx.sni.value;
      if IsWildcard(sni) {
        var suffix := sni[1..];
        if exists j | 0 <= j < |wildcards| :: wildcards[j].0 == suffix {
          return Err(Duplicate);
        }
        wildcards := wildcards + [(suffix, ctx)];
      } else {
        if sni in bySni {
          return Err(Duplicate);
        }
        bySni := bySni[sni := ctx];
      }
    }
    TableOfEnd(Routes(bySni, wildcards), contexts);
    return Ok(Routes(bySni, wildcards));
  }

  lemma {:induction false} TableOfStep(t: Table, contexts: seq<Context>, i: nat)
    requires i < |contexts|
    ensures TableOf(t, contexts[i..]) ==
            match WithTenantAdded(t, contexts[i])
            case Err(e) => Err(e)
            case Ok(t') => TableOf(t', contexts[i + 1..])
  {
    assert contexts[i..][1..] == contexts[i + 1..];
  }

  lemma {:induction false} TableOfEnd(t: Table, contexts: seq<Context>)
    ensures TableOf(t, contexts[|contexts|..]) == Ok(t)
  {
  }

  /** Look up the tenant for a negotiated name. */
  method Lookup(t: Table, host: string) returns (r: Option<Context>)
    ensures r == Scan(t, host)
  {
    hide Matches;
    if host in t.exact {
      return Some(t.exact[host]);
    }
    for i := 0 to |t.wildcards|
      invariant ScanWildcards(t.wildcards, host) == ScanWildcards(t.wildcards[i..], host)
    {
      if Matches(host, t.wildcards[i].0) {
        return Some(t.wildcards[i].1);
      }
      assert t.wildcards[i..][1..] == t.wildcards[i + 1..];
    }
    return None;
  }

  function Without(wildcards: seq<(string, Context)>, name: string): seq<(string, Context)>
  {
    if wildcards == [] then []
    else (if wildcards[0].1.name != name then [wildcards[0]] else []) + Without(wildcards[1..], name)
  }

  function WithoutExact(exact: map<string, Context>, name: string): map<string, Context>
  {
    map k | k in exact && exact[k].name != name :: exact[k]
  }

  /** The table without a tenant, or None if it was not there. */
  function WithTenantRemoved(t: Table, name: string): Option<Table>
  {
    var exact := WithoutExact(t.exact, name);
    var wildcards := Without(t.wildcards, name);
    if |exact| == |t.exact| && |wildcards| == |t.wildcards| then None else Some(Routes(exact, wildcards))
  }

  /** Is a tenant of this name in the table? */
  predicate HasTenant(t: Table, name: string)
  {
    (exists k | k in t.exact :: t.exact[k].name == name) ||
    (exists i | 0 <= i < |t.wildcards| :: t.wildcards[i].1.name == name)
  }

  lemma {:induction false} WithoutAbsent(wildcards: seq<(string, Context)>, name: string)
    requires forall i | 0 <= i < |wildcards| :: wildcards[i].1.name != name
    ensures Without(wildcards, name) == wildcards
    decreases |wildcards|
  {
    if wildcards != [] {
      WithoutAbsent(wildcards[1..], name);
    }
  }

  lemma {:induction false} WithoutLast(wildcards: seq<(string, Context)>, w: (string, Context))
    requires forall i | 0 <= i < |wildcards| :: wildcards[i].1.name != w.1.name
    ensures Without(wildcards + [w], w.1.name) == wildcards
    decreases |wildcards|
  {
    if wildcards == [] {
      assert (wildcards + [w])[1..] == [];
    } else {
      assert (wildcards + [w])[1..] == wildcards[1..] + [w];
      WithoutLast(wildcards[1..], w);
    }
  }

  lemma {:induction false} WithoutSublist(wildcards: seq<(string, Context)>, name: string)
    ensures |Without(wildcards, name)| <= |wildcards|
    ensures forall w | w in Without(wildcards, name) :: w in wildcards && w.1.name != name
    ensures |Without(wildcards, name)| == |wildcards| ==> Without(wildcards, name) == wildcards
    decreases |wildcards|
  {
    if wildcards != [] {
      WithoutSublist(wildcards[1..], name);
    }
  }

  /** Adding a tenant whose name is new and then removing it gives back the
      very table, so every lookup is restored. */
  lemma {:induction false} AddThenRemove(t: Table, ctx: Context)
    requires !HasTenant(t, ctx.name) && WithTenantAdded(t, ctx).Ok?
    ensures WithTenantRemoved(WithTenantAdded(t, ctx).value, ctx.name) == Some(t)
  {
    hide WithoutExact, Without;
    var sni := ctx.sni.value;
    if IsWildcard(sni) {
      WithoutLast(t.wildcards, (sni[1..], ctx));
      WithoutExactAbsent(t.exact, ctx.name);
    } else {
      WithoutAbsent(t.wildcards, ctx.name);
      WithoutExactAdded(t.exact, sni, ctx);
    }
  }

  lemma {:induction false} WithoutExactAbsent(exact: map<string, Context>, name: string)
    requires forall k | k in exact :: exact[k].name != name
    ensures WithoutExact(exact, name) == exact
  {
  }

  lemma {:induction false} WithoutExactAdded(exact: map<string, Context>, sni: string, ctx: Context)
    requires sni !in exact && forall k | k in exact :: exact[k].name != ctx.name
    ensures WithoutExact(exact[sni := ctx], ctx.name) == exact
    ensures |exact[sni := ctx]| == |exact| + 1
  {
    var added := exact[sni := ctx];
    assert added.Keys == exact.Keys + {sni};
    assert |added.Keys| == |exact.Keys| + 1;
  }

  /** What every table satisfies that is reached by building, adding and
      removing: distinct dotted suffixes, and every route leads to the context
      whose name it is. */
  ghost predicate GoodTable(t: Table)
  {
    && WellFormed(t)
    && (forall k | k in t.exact :: t.exact[k].sni == Some(k) && !IsWildcard(k))
    && (forall i | 0 <= i < |t.wildcards| :: t.wildcards[i].1.sni == Some("*" + t.wildcards[i].0))
  }

  lemma {:induction false} AddKeepsGood(t: Table, ctx: Context)
    requires GoodTable(t) && WithTenantAdded(t, ctx).Ok?
    ensures GoodTable(WithTenantAdded(t, ctx).value)
  {
    if IsWildcard(ctx.sni.value) {
      var sni := ctx.sni.value;
      assert sni == "*" + sni[1..] && sni[1] == sni[..2][1] == '.';
    }
  }

  lemma {:induction false} BuildKeepsGood(t: Table, contexts: seq<Context>)
    requires GoodTable(t) && TableOf(t, contexts).Ok?
    ensures GoodTable(TableOf(t, contexts).value)
    decreases |contexts|
  {
    hide GoodTable, WithTenantAdded;
    if contexts != [] {
      AddKeepsGood(t, contexts[0]);
      BuildKeepsGood(WithTenantAdded(t, contexts[0]).value, contexts[1..]);
    }
  }

  lemma {:induction false} WithoutKeepsDistinct(wildcards: seq<(string, Context)>, name: string)
    requires forall i, j | 0 <= i < j < |wildcards| :: wildcards[i].0 != wildcards[j].0
    ensures var w := Without(wildcards, name); forall i, j | 0 <= i < j < |w| :: w[i].0 != w[j].0
    decreases |wildcards|
  {
    if wildcards != [] {
      WithoutKeepsDistinct(wildcards[1..], name);
      WithoutSublist(wildcards[1..], name);
      var rest := Without(wildcards[1..], name);
      forall j | 0 <= j < |rest| ensures rest[j].0 != wildcards[0].0 {
        assert rest[j] in wildcards[1..];
      }
    }
  }

  lemma {:induction false} RemoveKeepsGood(t: Table, name: string)
    requires GoodTable(t) && WithTenantRemoved(t, name).Some?
    ensures GoodTable(WithTenantRemoved(t, name).value)
  {
    var w := Without(t.wildcards, name);
    WithoutKeepsDistinct(t.wildcards, name);
    WithoutSublist(t.wildcards, name);
    forall i | 0 <= i < |w|
      ensures w[i].0 != "" && w[i].0[0] == '.' && w[i].1.sni == Some("*" + w[i].0)
    {
      assert w[i] in t.wildcards;
    }
  }

  datatype TableOp = Add(ctx: Context) | Remove(name: string)

  /** A failed change leaves the table in place. */
  function ApplyOps(t: Table, ops: seq<TableOp>): Table
    decreases |ops|
  {
    if ops == [] then t
    else
      match ops[0]
      case Add(ctx) => ApplyOps(if WithTenantAdded(t, ctx).Ok? then WithTenantAdded(t, ctx).value else t, ops[1..])
      case Remove(name) => ApplyOps(if WithTenantRemoved(t, name).Some? then WithTenantRemoved(t, name).value else t, ops[1..])
  }

  lemma {:induction false} OpsKeepGood(t: Table, ops: seq<TableOp>)
    requires GoodTable(t)
    ensures GoodTable(ApplyOps(t, ops))
    decreases |ops|
  {
    hide GoodTable, WithTenantAdded, WithTenantRemoved;
    if ops != [] {
      match ops[0]
      case Add(ctx) =>
        if WithTenantAdded(t, ctx).Ok? {
          AddKeepsGood(t, ctx);
        }
        OpsKeepGood(if WithTenantAdded(t, ctx).Ok? then WithTenantAdded(t, ctx).value else t, ops[1..]);
      case Remove(name) =>
        if WithTenantRemoved(t, name).Some? {
          RemoveKeepsGood(t, name);
        }
        OpsKeepGood(if WithTenantRemoved(t, name).Some? then WithTenantRemoved(t, name).value else t, ops[1..]);
    }
  }

  /** In every table reachable by building, adding and removing, lookup is
      keyed lookup, on every hostname. */
  lemma {:induction false} ReachableLookupIsKeyed(contexts: seq<Context>, ops: seq<TableOp>, host: string)
    requires TableOf(EmptyTable, contexts).Ok?
    ensures var t := ApplyOps(TableOf(EmptyTable, contexts).value, ops);
            Scan(t, host) == KeyedLookup(t, host)
  {
    hide Scan, KeyedLookup, TableOf, ApplyOps;
    BuildKeepsGood(EmptyTable, contexts);
    OpsKeepGood(TableOf(EmptyTable, contexts).value, ops);
    LookupIsKeyed(ApplyOps(TableOf(EmptyTable, contexts).value, ops), host);
  }

  // ----- the certificate resolver -------------------------------------------

  /** One tenant's certificate; the certified key is identified by its tenant. */
  datatype SniCert = SniCert(sni: string, tenant: string)

  type Resolver = Routes<string>

  /** Any asterisk outside a leading "*." is refused. */
  predicate BadPattern(sni: string)
  {
    '*' in sni && (!IsWildcard(sni) || '*' in sni[2..])
  }

  /** A pattern is well formed when every asterisk in it is its first character
      and a dot follows. */
  lemma {:induction false} WellFormedPattern(sni: string)
    ensures !BadPattern(sni) <==> forall i | 0 <= i < |sni| && sni[i] == '*' :: i == 0 && |sni| >= 2 && sni[1] == '.'
  {
    if IsWildcard(sni) {
      assert sni[0] == sni[..2][0] && sni[1] == sni[..2][1];
      assert forall i | 2 <= i < |sni| :: sni[i] == sni[2..][i - 2];
    } else {
      assert |sni| >= 2 ==> sni[..2] == [sni[0], sni[1]];
    }
  }

  function WithCertAdded(r: Resolver, c: SniCert): Result<Resolver, SniError>
  {
    if '*' in c.sni then
      if BadPattern(c.sni) then Err(BadWildcard)
      else
        assert |c.sni| >= 2;
        if HasSuffix(r.wildcards, c.sni[1..]) then Err(Duplicate)
        else Ok(r.(wildcards := r.wildcards + [(c.sni[1..], c.tenant)]))
    else if c.sni in r.exact then Err(Duplicate)
    else Ok(r.(exact := r.exact[c.sni := c.tenant]))
  }

  function ResolverFrom(r: Resolver, certs: seq<SniCert>): Result<Resolver, SniError>
    decreases |certs|
  {
    if certs == [] then Ok(r)
    else
      match WithCertAdded(r, certs[0])
      case Err(e) => Err(e)
      case Ok(r') => ResolverFrom(r', certs[1..])
  }

  const EmptyResolver: Resolver := Routes(map[], [])

  function ResolverOf(certs: seq<SniCert>): Result<Resolver, SniError>
  {
    if certs == [] then Err(NoEntries) else ResolverFrom(EmptyResolver, certs)
  }

  /** Build the resolver from a nonempty list of certificates. */
  method NewResolver(certs: seq<SniCert>) returns (r: Result<Resolver, SniError>)
    ensures r == ResolverOf(certs)
  {
    hide ResolverFrom;
    if certs == [] {
      return Err(NoEntries);
    }
    var bySni: map<string, string> := map[];
    var wildcards: seq<(string, string)> := [];
    for i := 0 to |certs|
      invariant ResolverFrom(EmptyResolver, certs) == ResolverFrom(Routes(bySni, wildcards), certs[i..])
    {
      var c := certs[i];
      ResolverFromStep(Routes(bySni, wildcards), certs, i);
      if '*' in c.sni {
        if !IsWildcard(c.sni) || '*' in c.sni[2..] {
          return Err(BadWildcard);
        }
        var suffix := c.sni[1..];
        if exists j | 0 <= j < |wildcards| :: wildcards[j].0 == suffix {
          return Err(Duplicate);
        }
        wildcards := wildcards + [(suffix, c.tenant)];
      } else {
        if c.sni in bySni {
          return Err(Duplicate);
        }
        bySni := bySni[c.sni := c.tenant];
      }
    }
    ResolverFromEnd(Routes(bySni, wildcards), certs);
    return Ok(Routes(bySni, wildcards));
  }

  lemma {:induction false} ResolverFromStep(r: Resolver, certs: seq<SniCert>, i: nat)
    requires i < |certs|
    ensures ResolverFrom(r, certs[i..]) ==
            match WithCertAdded(r, certs[i])
            case Err(e) => Err(e)
            case Ok(r') => ResolverFrom(r', certs[i + 1..])
  {
    assert certs[i..][1..] == certs[i + 1..];
  }

  lemma {:induction false} ResolverFromEnd(r: Resolver, certs: seq<SniCert>)
    ensures ResolverFrom(r, certs[|certs|..]) == Ok(r)
  {
  }

  /** Pick the certificate for the name in a ClientHello, if it sent one. */
  method Resolve(r: Resolver, serverName: Option<string>) returns (c: Option<string>)
    ensures c == if serverName.None? then None else Scan(r, serverName.value)
  {
    hide Matches;
    if serverName.None? {
      return None;
    }
    var name := serverName.value;
    if name in r.exact {
      return Some(r.exact[name]);
    }
    for i := 0 to |r.wildcards|
      invariant ScanWildcards(r.wildcards, name) == ScanWildcards(r.wildcards[i..], name)
    {
      if Matches(name, r.wildcards[i].0) {
        return Some(r.wildcards[i].1);
      }
      assert r.wildcards[i..][1..] == r.wildcards[i + 1..];
    }
    return None;
  }

  // ----- the two agree ------------------------------------------------------

  function Contexts(names: seq<SniCert>): (c: seq<Context>)
    ensures |c| == |names|
    ensures forall i | 0 <= i < |names| :: c[i] == Context(names[i].tenant, Some(names[i].sni))
  {
    if names == [] then [] else [Context(names[0].tenant, Some(names[0].sni))] + Contexts(names[1..])
  }

  function TenantsOf(wildcards: seq<(string, Context)>): (w: seq<(string, string)>)
    ensures |w| == |wildcards|
    ensures forall i | 0 <= i < |w| :: w[i] == (wildcards[i].0, wildcards[i].1.name)
  {
    if wildcards == [] then [] else [(wildcards[0].0, wildcards[0].1.name)] + TenantsOf(wildcards[1..])
  }

  /** The resolver routes every name to the tenant the table routes it to. */
  ghost predicate SameRoutes(t: Table, r: Resolver)
  {
    && t.exact.Keys == r.exact.Keys
    && (forall k | k in t.exact :: r.exact[k] == t.exact[k].name)
    && r.wildcards == TenantsOf(t.wildcards)
  }

  /** The names a multi-tenant listener may be configured with: well-formed
      patterns, all different. */
  ghost predicate GoodNames(names: seq<SniCert>)
  {
    && (forall i | 0 <= i < |names| :: !BadPattern(names[i].sni))
    && (forall i, j | 0 <= i < j < |names| :: names[i].sni != names[j].sni)
  }

  lemma {:induction false} TenantsOfSnoc(w: seq<(string, Context)>, x: (string, Context))
    ensures TenantsOf(w + [x]) == TenantsOf(w) + [(x.0, x.1.name)]
  {
  }

  /** No route of the table carries one of the remaining names. */
  ghost predicate Unused(t: Table, names: seq<SniCert>)
  {
    forall i | 0 <= i < |names| ::
      names[i].sni !in t.exact && !(IsWildcard(names[i].sni) && HasSuffix(t.wildcards, names[i].sni[1..]))
  }

  lemma {:induction false} AddBoth(t: Table, r: Resolver, n: SniCert)
    requires SameRoutes(t, r) && !BadPattern(n.sni)
    requires n.sni !in t.exact && !(IsWildcard(n.sni) && HasSuffix(t.wildcards, n.sni[1..]))
    ensures var a, b := WithTenantAdded(t, Context(n.tenant, Some(n.sni))), WithCertAdded(r, n);
            a.Ok? && b.Ok? && SameRoutes(a.value, b.value)
  {
    hide TenantsOf;
    var ctx := Context(n.tenant, Some(n.sni));
    assert IsWildcard(n.sni) ==> n.sni[0] == n.sni[..2][0] == '*';
    if IsWildcard(n.sni) {
      TenantsOfSnoc(t.wildcards, (n.sni[1..], ctx));
      SuffixesSame(t.wildcards, n.sni[1..]);
    }
  }

  lemma {:induction false} SuffixesSame(w: seq<(string, Context)>, suffix: string)
    ensures HasSuffix(TenantsOf(w), suffix) <==> HasSuffix(w, suffix)
  {
  }

  lemma {:induction false} AddKeepsUnused(t: Table, names: seq<SniCert>)
    requires names != [] && GoodNames(names) && Unused(t, names)
    requires WithTenantAdded(t, Context(names[0].tenant, Some(names[0].sni))).Ok?
    ensures Unused(WithTenantAdded(t, Context(names[0].tenant, Some(names[0].sni))).value, names[1..])
    ensures GoodNames(names[1..])
  {
    var sni := names[0].sni;
    forall i | 1 <= i < |names| && IsWildcard(names[i].sni) && IsWildcard(sni)
      ensures names[i].sni[1..] != sni[1..]
    {
      assert names[i].sni != sni && names[i].sni[0] == names[i].sni[..2][0] && sni[0] == sni[..2][0];
      assert names[i].sni == [names[i].sni[0]] + names[i].sni[1..] && sni == [sni[0]] + sni[1..];
    }
  }

  lemma {:induction false} BuildBoth(t: Table, r: Resolver, names: seq<SniCert>)
    requires SameRoutes(t, r) && GoodNames(names) && Unused(t, names)
    ensures var a, b := TableOf(t, Contexts(names)), ResolverFrom(r, names);
            a.Ok? && b.Ok? && SameRoutes(a.value, b.value)
    decreases |names|
  {
    hide SameRoutes, Unused, WithTenantAdded, WithCertAdded, BadPattern;
    if names != [] {
      var ctx := Context(names[0].tenant, Some(names[0].sni));
      FirstUnused(t, names);
      AddBoth(t, r, names[0]);
      AddKeepsUnused(t, names);
      assert Contexts(names)[0] == ctx && Contexts(names)[1..] == Contexts(names[1..]);
      BuildBoth(WithTenantAdded(t, ctx).value, WithCertAdded(r, names[0]).value, names[1..]);
    }
  }

  lemma {:induction false} FirstUnused(t: Table, names: seq<SniCert>)
    requires names != [] && Unused(t, names) && GoodNames(names)
    ensures names[0].sni !in t.exact && !(IsWildcard(names[0].sni) && HasSuffix(t.wildcards, names[0].sni[1..]))
    ensures !BadPattern(names[0].sni)
  {
  }

  lemma {:induction false} SameRoutesSameScan(w: seq<(string, Context)>, host: string)
    ensures ScanWildcards(TenantsOf(w), host) ==
            match ScanWildcards(w, host) case None => None case Some(c) => Some(c.name)
    decreases |w|
  {
    hide Matches;
    if w != [] {
      SameRoutesSameScan(w[1..], host);
    }
  }

  /** From any list of well-formed, pairwise different names, both constructors
      succeed, and on every hostname the table and the resolver choose the
      same tenant or both choose none. */
  lemma {:induction false} TableAndResolverAgree(names: seq<SniCert>, host: string)
    requires names != [] && GoodNames(names)
    ensures TableOf(EmptyTable, Contexts(names)).Ok? && ResolverOf(names).Ok?
    ensures var t, r := TableOf(EmptyTable, Contexts(names)).value, ResolverOf(names).value;
            Scan(r, host) == match Scan(t, host) case None => None case Some(c) => Some(c.name)
  {
    hide TableOf, ResolverFrom, Contexts;
    BuildBoth(EmptyTable, EmptyResolver, names);
    SameRoutesSameScan(TableOf(EmptyTable, Contexts(names)).value.wildcards, host);
  }

  // ----- who is chosen, from the configured names alone ---------------------

  /** The tenant asked for this very name. */
  predicate ServesByName(c: Context, host: string) { c.sni == Some(host) && !IsWildcard(host) }

  /** The tenant asked for all names one label below a suffix, and the hostname
      is one label and that suffix. */
  ghost predicate ServesByWildcard(c: Context, host: string)
  {
    exists n | 0 < n < |host| :: host[n] == '.' && '.' !in host[..n] && c.sni == Some("*" + host[n..])
  }

  /** The table holds these contexts and no others. */
  ghost predicate Holds(t: Table, contexts: seq<Context>)
  {
    && (forall k | k in t.exact :: t.exact[k] in contexts)
    && (forall i | 0 <= i < |t.wildcards| :: t.wildcards[i].1 in contexts)
    && (forall c | c in contexts ::
          c.sni.Some? && if IsWildcard(c.sni.value) then (c.sni.value[1..], c) in t.wildcards
                         else c.sni.value in t.exact && t.exact[c.sni.value] == c)
  }

  lemma {:induction false} AddHolds(t: Table, past: seq<Context>, ctx: Context)
    requires Holds(t, past) && WithTenantAdded(t, ctx).Ok?
    ensures Holds(WithTenantAdded(t, ctx).value, past + [ctx])
  {
    var u := WithTenantAdded(t, ctx).value;
    var all := past + [ctx];
    assert ctx in all && forall c | c in past :: c in all;
    forall c | c in all
      ensures c.sni.Some? && if IsWildcard(c.sni.value) then (c.sni.value[1..], c) in u.wildcards
                             else c.sni.value in u.exact && u.exact[c.sni.value] == c
    {
      if c == ctx {
        assert IsWildcard(ctx.sni.value) ==> u.wildcards[|t.wildcards|] == (ctx.sni.value[1..], ctx);
      } else {
        assert c in past;
      }
    }
  }

  lemma {:induction false} BuildHolds(t: Table, past: seq<Context>, contexts: seq<Context>)
    requires Holds(t, past) && TableOf(t, contexts).Ok?
    ensures Holds(TableOf(t, contexts).value, past + contexts)
    decreases |contexts|
  {
    hide Holds, WithTenantAdded;
    if contexts == [] {
      assert past + contexts == past;
    } else {
      AddHolds(t, past, contexts[0]);
      BuildHolds(WithTenantAdded(t, contexts[0]).value, past + [contexts[0]], contexts[1..]);
      assert past + [contexts[0]] + contexts[1..] == past + contexts;
    }
  }

  lemma {:induction false} ScanFinds<T>(wildcards: seq<(string, T)>, host: string)
    ensures match ScanWildcards(wildcards, host)
            case Some(x) => exists i | 0 <= i < |wildcards| :: Matches(host, wildcards[i].0) && wildcards[i].1 == x
            case None => forall i | 0 <= i < |wildcards| :: !Matches(host, wildcards[i].0)
    decreases |wildcards|
  {
    hide Matches;
    if wildcards != [] {
      ScanFinds(wildcards[1..], host);
    }
  }

  lemma {:induction false} MatchesIffServes(c: Context, suffix: string, host: string)
    requires suffix != "" && suffix[0] == '.' && c.sni == Some("*" + suffix)
    ensures Matches(host, suffix) <==> ServesByWildcard(c, host)
  {
    if Matches(host, suffix) {
      var n := |host| - |suffix|;
      assert host[n] == host[n..][0];
    }
    if ServesByWildcard(c, host) {
      var n :| 0 < n < |host| && host[n] == '.' && '.' !in host[..n] && c.sni == Some("*" + host[n..]);
      assert ("*" + host[n..])[1..] == host[n..] && ("*" + suffix)[1..] == suffix;
    }
  }

  /** Routing from the configured names alone: whoever is chosen asked for this
      very name, or, when nobody did, for the wildcard over it; and if nobody
      is chosen, nobody asked. */
  lemma {:induction false} BuiltTableRoutes(contexts: seq<Context>, host: string)
    requires TableOf(EmptyTable, contexts).Ok?
    ensures match Scan(TableOf(EmptyTable, contexts).value, host)
            case Some(c) =>
              && c in contexts
              && (ServesByName(c, host) ||
                  (ServesByWildcard(c, host) && forall d | d in contexts :: !ServesByName(d, host)))
            case None => forall d | d in contexts :: !ServesByName(d, host) && !ServesByWildcard(d, host)
  {
    hide TableOf, ServesByWildcard, Matches, ScanWildcards;
    var t := TableOf(EmptyTable, contexts).value;
    BuildHolds(EmptyTable, [], contexts);
    assert [] + contexts == contexts;
    BuildKeepsGood(EmptyTable, contexts);
    ScanFinds(t.wildcards, host);
    forall i | 0 <= i < |t.wildcards|
      ensures Matches(host, t.wildcards[i].0) <==> ServesByWildcard(t.wildcards[i].1, host)
    {
      MatchesIffServes(t.wildcards[i].1, t.wildcards[i].0, host);
    }
    forall d | d in contexts && ServesByWildcard(d, host) && host !in t.exact ensures Scan(t, host).Some? {
      WildcardServerIsWildcard(d, host);
      var i :| 0 <= i < |t.wildcards| && t.wildcards[i] == (d.sni.value[1..], d);
    }
  }

  lemma {:induction false} WildcardServerIsWildcard(c: Context, host: string)
    requires ServesByWildcard(c, host)
    ensures c.sni.Some? && IsWildcard(c.sni.value)
  {
    var n :| 0 < n < |host| && host[n] == '.' && '.' !in host[..n] && c.sni == Some("*" + host[n..]);
    assert c.sni.value[0] == '*' && c.sni.value[1] == '.';
    assert c.sni.value[..2] == "*.";
  }

  lemma {:induction false} ScanWithout(wildcards: seq<(string, Context)>, name: string, host: string)
    ensures var before, after := ScanWildcards(wildcards, host), ScanWildcards(Without(wildcards, name), host);
            && (after.Some? ==> after.value.name != name)
            && (before.None? ==> after.None?)
            && (before.Some? && before.value.name != name ==> after == before)
    decreases |wildcards|
  {
    hide Matches;
    if wildcards != [] {
      ScanWithout(wildcards[1..], name, host);
      var kept := wildcards[0].1.name != name;
      assert kept ==> Without(wildcards, name) == [wildcards[0]] + Without(wildcards[1..], name);
      assert kept ==> Without(wildcards, name)[1..] == Without(wildcards[1..], name);
      assert !kept ==> Without(wildcards, name) == Without(wildcards[1..], name);
    }
  }

  /** Removing a tenant takes its names away and no one else's: it is never
      chosen again, and every hostname that went to another still does. */
  lemma {:induction false} RemovedIsGone(t: Table, name: string, host: string)
    requires WithTenantRemoved(t, name).Some?
    ensures var u := WithTenantRemoved(t, name).value;
            && (Scan(u, host).Some? ==> Scan(u, host).value.name != name)
            && (Scan(t, host).Some? && Scan(t, host).value.name != name ==> Scan(u, host) == Scan(t, host))
  {
    hide Without, ScanWildcards;
    ScanWithout(t.wildcards, name, host);
  }

  // ----- exactly when the constructors accept -------------------------------

  /** Does the structure already route this name? */
  predicate Taken<T>(r: Routes<T>, sni: string)
  {
    if IsWildcard(sni) then HasSuffix(r.wildcards, sni[1..]) else sni in r.exact
  }

  lemma {:induction false} AddTakes(t: Table, ctx: Context, other: string)
    requires WithTenantAdded(t, ctx).Ok?
    ensures ctx.sni.Some? && !Taken(t, ctx.sni.value)
    ensures Taken(WithTenantAdded(t, ctx).value, other) <==> Taken(t, other) || other == ctx.sni.value
  {
    SuffixAdded(t.wildcards, ctx, other);
  }

  lemma {:induction false} SuffixAdded<T>(wildcards: seq<(string, T)>, x: T, other: string)
    ensures IsWildcard(other) ==>
              forall sni | IsWildcard(sni) ::
                HasSuffix(wildcards + [(sni[1..], x)], other[1..]) <==>
                HasSuffix(wildcards, other[1..]) || other == sni
  {
    if IsWildcard(other) {
      forall sni | IsWildcard(sni)
        ensures HasSuffix(wildcards + [(sni[1..], x)], other[1..]) <==> HasSuffix(wildcards, other[1..]) || other == sni
      {
        var w := wildcards + [(sni[1..], x)];
        assert w[|wildcards|].0 == sni[1..];
        assert sni[0] == sni[..2][0] && other[0] == other[..2][0];
        assert sni == [sni[0]] + sni[1..] && other == [other[0]] + other[1..];
        assert forall i | 0 <= i < |wildcards| :: w[i] == wildcards[i];
      }
    }
  }

  lemma {:induction false} BuiltMeansDistinct(t: Table, contexts: seq<Context>)
    requires TableOf(t, contexts).Ok?
    ensures forall i | 0 <= i < |contexts| :: contexts[i].sni.Some? && !Taken(t, contexts[i].sni.value)
    ensures forall i, j | 0 <= i < j < |contexts| :: contexts[i].sni != contexts[j].sni
    decreases |contexts|
  {
    hide Taken, WithTenantAdded;
    if contexts != [] {
      var t' := WithTenantAdded(t, contexts[0]).value;
      AddTakes(t, contexts[0], "");
      BuiltMeansDistinct(t', contexts[1..]);
      forall i | 1 <= i < |contexts|
        ensures contexts[i].sni.Some? && !Taken(t, contexts[i].sni.value) && contexts[i].sni != contexts[0].sni
      {
        assert contexts[i] == contexts[1..][i - 1];
        AddTakes(t, contexts[0], contexts[i].sni.value);
      }
      forall i, j | 0 <= i < j < |contexts| ensures contexts[i].sni != contexts[j].sni {
        if i > 0 {
          assert contexts[i] == contexts[1..][i - 1] && contexts[j] == contexts[1..][j - 1];
        }
      }
    }
  }

  lemma {:induction false} DistinctBuilds(t: Table, contexts: seq<Context>)
    requires forall i | 0 <= i < |contexts| :: contexts[i].sni.Some? && !Taken(t, contexts[i].sni.value)
    requires forall i, j | 0 <= i < j < |contexts| :: contexts[i].sni != contexts[j].sni
    ensures TableOf(t, contexts).Ok?
    decreases |contexts|
  {
    if contexts != [] {
      var added := WithTenantAdded(t, contexts[0]);
      assert added.Ok?;
      forall i | 1 <= i < |contexts| ensures !Taken(added.value, contexts[i].sni.value) {
        AddTakes(t, contexts[0], contexts[i].sni.value);
      }
      DistinctBuilds(added.value, contexts[1..]);
    }
  }

  /** The dispatch table is built exactly from contexts that all have an SNI,
      no two the same. */
  lemma {:induction false} TableBuildsIff(contexts: seq<Context>)
    ensures TableOf(EmptyTable, contexts).Ok? <==>
            && (forall i | 0 <= i < |contexts| :: contexts[i].sni.Some?)
            && (forall i, j | 0 <= i < j < |contexts| :: contexts[i].sni != contexts[j].sni)
  {
    hide TableOf, IsWildcard;
    assert forall sni :: !Taken(EmptyTable, sni);
    if TableOf(EmptyTable, contexts).Ok? {
      BuiltMeansDistinct(EmptyTable, contexts);
    }
    if (forall i | 0 <= i < |contexts| :: contexts[i].sni.Some?) &&
       (forall i, j | 0 <= i < j < |contexts| :: contexts[i].sni != contexts[j].sni) {
      DistinctBuilds(EmptyTable, contexts);
    }
  }

  lemma {:induction false} CertTakes(r: Resolver, c: SniCert, other: string)
    requires WithCertAdded(r, c).Ok?
    ensures !BadPattern(c.sni) && !Taken(r, c.sni)
    ensures Taken(WithCertAdded(r, c).value, other) <==> Taken(r, other) || other == c.sni
  {
    assert IsWildcard(c.sni) ==> c.sni[0] == c.sni[..2][0] == '*';
    SuffixAdded(r.wildcards, c.tenant, other);
  }

  lemma {:induction false} ResolverMeansGood(r: Resolver, certs: seq<SniCert>)
    requires ResolverFrom(r, certs).Ok?
    ensures GoodNames(certs) && forall i | 0 <= i < |certs| :: !Taken(r, certs[i].sni)
    decreases |certs|
  {
    hide Taken, WithCertAdded, BadPattern;
    if certs != [] {
      var r' := WithCertAdded(r, certs[0]).value;
      CertTakes(r, certs[0], "");
      ResolverMeansGood(r', certs[1..]);
      forall i | 1 <= i < |certs|
        ensures !BadPattern(certs[i].sni) && !Taken(r, certs[i].sni) && certs[i].sni != certs[0].sni
      {
        assert certs[i] == certs[1..][i - 1];
        CertTakes(r, certs[0], certs[i].sni);
      }
      forall i, j | 0 <= i < j < |certs| ensures certs[i].sni != certs[j].sni {
        if i > 0 {
          assert certs[i] == certs[1..][i - 1] && certs[j] == certs[1..][j - 1];
        }
      }
    }
  }

  /** The resolver is built exactly from nonempty lists of well-formed patterns,
      no two the same.  It is stricter than the table, which takes a stray
      asterisk for part of an exact name; on what validation lets through the
      two agree. */
  lemma {:induction false} ResolverBuildsIff(certs: seq<SniCert>)
    ensures ResolverOf(certs).Ok? <==> certs != [] && GoodNames(certs)
  {
    hide ResolverFrom, GoodNames, TableOf;
    if ResolverOf(certs).Ok? {
      ResolverMeansGood(EmptyResolver, certs);
    }
    if certs != [] && GoodNames(certs) {
      TableAndResolverAgree(certs, "");
    }
  }
}
