/**
 Cross-tenant binding over whole runs of the guard.  All tenants share one token cache,
 so a request can be answered with claims that another tenant's provider vouched for;
 what keeps tenants apart is the comparison of issuers.
 */
module GuardTenants {
  import opened Options
  import opened TokenCache
  import opened Guard
  import opened GuardRuns
  import PolicyEngine
  import Revocation

  // ----- One hit

  /** The request under a provider that gives another answer, or that declares no issuer. */
  function Answered(r: Request, answer: Option<Claims>): Request
    requires r.provider.Some?
  {
    r.(provider := Some(r.provider.value.(answer := answer)))
  }

  function Undeclared(r: Request): Request
    requires r.provider.Some?
  {
    r.(provider := Some(r.provider.value.(issuer := "")))
  }

  lemma HitDecides(env: Settings, s: State, r: Request, c: Claims, now: nat)
    requires env.Valid() && env.caching && Unidentified(r).None?
    requires Lookup(s.store, HashToken(env.sha, r.token.value), now) == Some(c)
    ensures Serve(env, s, r, now).1.Forwarded? <==>
            && Limit(env, s, r, now).1 && Prove(env, s.store, r, now).1.None?
            && Decide(env, s.config, r, c, now).Forwarded?
  {
    NotAProofKey(HashToken(env.sha, r.token.value));
    ProvedStoreAt(env, s.store, r, now, HashToken(env.sha, r.token.value));
  }

  /**
   On a hit the tenant's own provider is not asked: whatever it would answer, the request
   is forwarded if and only if the provider declares no issuer or that of the cached
   claims, and nothing else speaks against it.
   */
  lemma HitForwardedIff(env: Settings, s: State, r: Request, c: Claims, answer: Option<Claims>, now: nat)
    requires env.Valid() && env.caching && Unidentified(r).None?
    requires Lookup(s.store, HashToken(env.sha, r.token.value), now) == Some(c)
    ensures Serve(env, s, Answered(r, answer), now).1.Forwarded? <==> Serve(env, s, r, now).1.Forwarded?
    ensures Serve(env, s, r, now).1.Forwarded? <==>
            r.provider.value.issuer in {"", c.issuer} && Serve(env, s, Undeclared(r), now).1.Forwarded?
  {
    HitDecides(env, s, r, c, now);
    HitDecides(env, s, Answered(r, answer), c, now);
    HitDecides(env, s, Undeclared(r), c, now);
    if env.dpop.Some? ==> r.proof.Some? {
      ForwardedIff(env, s.config, r, c, now);
      ForwardedIff(env, s.config, Answered(r, answer), c, now);
      ForwardedIff(env, s.config, Undeclared(r), c, now);
    }
  }

  // ----- Runs

  /** The tenants, the issuer each one's provider declares, and the actual one in that provider's active answers. */
  datatype Deployment = Deployment(tenants: set<string>, declared: string -> string, actual: string -> string) {
    /** Every provider declares an issuer, and no other tenant's provider answers with it. */
    ghost predicate Separated() {
      forall a, b | a in tenants && b in tenants && a != b :: declared(b) != "" && declared(b) != actual(a)
    }

    /** The provider of a request is its tenant's. */
    ghost predicate Serves(r: Request) {
      r.provider.Some? ==>
        && r.tenant.Some? && r.tenant.value in tenants && r.provider.value.issuer == declared(r.tenant.value)
        && forall c | r.provider.value.answer == Some(c) && c.active :: c.issuer == actual(r.tenant.value)
    }
  }

  ghost predicate Deployed(dep: Deployment, es: seq<Event>) {
    forall i | 0 <= i < |es| && es[i].Ask? :: dep.Serves(es[i].req)
  }

  /** The claims were vouched for by the provider of the request's own tenant. */
  ghost predicate OwnVouched(env: Settings, es: seq<Event>, i: nat, c: Claims) {
    && i < |es| && es[i].Ask? && es[i].req.token.Some?
    && exists j | 0 <= j <= i :: VouchedBy(env, es, j, i, c) && es[j].req.tenant == es[i].req.tenant
  }

  /** In a separated deployment, whatever is forwarded under a tenant was vouched for by that tenant's provider. */
  lemma SeparatedTenantsAreBound(env: Settings, config: Option<PolicyEngine.Config>, dep: Deployment, es: seq<Event>, i: nat)
    requires env.Valid() && Ordered(es) && Deployed(dep, es) && dep.Separated() && ForwardedAt(env, config, es, i)
    ensures OwnVouched(env, es, i, OutcomeOf(env, config, es, i).forward.claims)
  {
    ForwardedIsAuthorized(env, config, es, i);
    var c := OutcomeOf(env, config, es, i).forward.claims;
    var j :| 0 <= j <= i && VouchedBy(env, es, j, i, c);
    assert dep.Serves(es[j].req) && dep.Serves(es[i].req);
    var (a, b) := (es[j].req.tenant.value, es[i].req.tenant.value);
    assert c.issuer == dep.actual(a);
    assert dep.declared(b) != "" ==> c.issuer == dep.declared(b);
    assert a == b || (dep.declared(b) != "" && dep.declared(b) != dep.actual(a));
  }

  // ----- Two requests

  /** The request of a fresh client fills the cache, even if it is refused afterwards. */
  lemma FirstFills(env: Settings, s: State, r: Request, c: Claims, now: nat)
    requires env.Valid() && env.caching && env.dpop.None? && Unidentified(r).None? && r.client !in s.buckets
    requires r.provider.value.answer == Some(c) && c.active && c.expiresAt.None?
    requires Lookup(s.store, HashToken(env.sha, r.token.value), now).None?
    ensures
      var (s', k) := (Serve(env, s, r, now).0, HashToken(env.sha, r.token.value));
      && k in s'.store && s'.store[k] == Entry(c, now + CACHE_TTL)
      && s'.config == s.config && forall x | x in s'.buckets :: x in s.buckets || x == r.client
  {
    Revocation.CachedStoreTokens(s.store, HashToken(env.sha, r.token.value), c, CACHE_TTL, now, HashToken(env.sha, r.token.value));
  }

  /**
   Two clients present one token under two tenants within 30 s, to a guard without proofs:
   the second is served with the claims that the first one's provider gave, whatever its
   own provider would say.
   */
  lemma CrossTenantHit(env: Settings, config: Option<PolicyEngine.Config>, first: Request, second: Request, c: Claims, t: nat, u: nat)
    requires env.Valid() && env.caching && env.dpop.None? && t <= u <= t + CACHE_TTL
    requires Unidentified(first).None? && Unidentified(second).None? && first.client != second.client && first.token == second.token
    requires first.provider.value.answer == Some(c) && c.active && c.expiresAt.None?
    ensures
      var es := [Ask(t, first)] + [Ask(u, second)];
      OutcomeOf(env, config, es, 1) == Decide(env, config, second, c, u)
  {
    var es := [Ask(t, first)] + [Ask(u, second)];
    assert es[..1] == [Ask(t, first)] && es[..1][..0] == [];
    FirstFills(env, State(map[], map[], config), first, c, t);
    assert Run(env, config, es[..1]) == Serve(env, State(map[], map[], config), first, t).0;
  }

  /** A request with the token under a tenant, from a client of its own. */
  function Plain(dep: Deployment, tenant: string, answer: Option<Claims>, client: string): Request {
    Request(client, "GET", "/", "", Some(tenant), Some(Provider(dep.declared(tenant), answer)), Some("token"), None, None, "")
  }

  /** Tenant `b` forwards what only tenant `a`'s provider vouched for. */
  lemma UnboundTenant(env: Settings, config: Option<PolicyEngine.Config>, dep: Deployment, a: string, b: string) returns (es: seq<Event>)
    requires env.Valid() && env.caching && env.dpop.None? && env.fapi.None? && !env.policies
    requires a in dep.tenants && b in dep.tenants && a != b && dep.declared(b) in {"", dep.actual(a)}
    ensures |es| == 2 && Ordered(es) && Deployed(dep, es) && ForwardedAt(env, config, es, 1)
    ensures !OwnVouched(env, es, 1, OutcomeOf(env, config, es, 1).forward.claims)
  {
    var c := BLANK.(active := true, issuer := dep.actual(a));
    var (first, second) := (Plain(dep, a, Some(c), "a"), Plain(dep, b, None, "b"));
    es := [Ask(0, first)] + [Ask(0, second)];
    CrossTenantHit(env, config, first, second, c, 0, 0);
    ForwardedIff(env, config, second, c, 0);
  }

  /**
   In a guard that caches, without policies, profile or proofs, everything forwarded under
   a tenant was vouched for by that tenant's provider, in all ordered runs, if and only if
   every provider declares an issuer that no other tenant's provider answers with.
   */
  lemma TenantsBoundIff(env: Settings, config: Option<PolicyEngine.Config>, dep: Deployment)
    requires env.Valid() && env.caching && env.dpop.None? && env.fapi.None? && !env.policies
    ensures dep.Separated() <==>
            forall es, i | Ordered(es) && Deployed(dep, es) && ForwardedAt(env, config, es, i) ::
              OwnVouched(env, es, i, OutcomeOf(env, config, es, i).forward.claims)
  {
    if dep.Separated() {
      forall es, i | Ordered(es) && Deployed(dep, es) && ForwardedAt(env, config, es, i)
        ensures OwnVouched(env, es, i, OutcomeOf(env, config, es, i).forward.claims)
      {
        SeparatedTenantsAreBound(env, config, dep, es, i);
      }
    } else {
      var a, b :| a in dep.tenants && b in dep.tenants && a != b && !(dep.declared(b) != "" && dep.declared(b) != dep.actual(a));
      var es := UnboundTenant(env, config, dep, a, b);
    }
  }
}
