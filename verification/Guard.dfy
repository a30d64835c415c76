/**
 The resource-server guard, internal/gateway/guard.go: one request is one step
 over the rate limiter, the shared cache and the policy configuration.

 What comes from outside is part of the request: the resolved tenant, the tenant's
 provider and its answer, the bearer token, the parsed DPoP proof, the cookie and
 the random state identifier.  One request reads the clock once and is atomic.
 */
module Guard {
  import opened Options
  import opened Clock
  import opened TokenCache
  import RateLimiter
  import Matcher
  import PolicyEngine
  import Revocation
  import Dpop
  import StepUp

  const CACHE_TTL := 30 * SECOND
  const FAPI_MAX_AUTH_AGE := 60 * SECOND

  datatype FapiProfile = FapiProfile(requireDPoP: bool, requirePushed: bool)

  /** The fixed part of a guard.  `caching` is false when no token cache is configured. */
  datatype Settings = Settings(
    sha: string -> Digest, glob: Matcher.Glob, limits: Option<RateLimiter.Limits>, dpop: Option<Dpop.Rules>,
    caching: bool, cookies: Option<StepUp.CookieKey>, fapi: Option<FapiProfile>, policies: bool)
  {
    predicate Valid() {
      (dpop.Some? ==> dpop.value.Valid()) && (limits.Some? ==> limits.value.Valid())
    }
  }

  /** `store` also holds the seen proof identifiers, with or without token caching. */
  datatype State = State(buckets: RateLimiter.Buckets, store: Store, config: Option<PolicyEngine.Config>)

  /** `issuer` is the provider's declared issuer, "" when it declares none; `answer` None is an error. */
  datatype Provider = Provider(issuer: string, answer: Option<Claims>)

  datatype Request = Request(
    client: string, httpMethod: string, path: string, query: string, tenant: Option<string>,
    provider: Option<Provider>, token: Option<string>, proof: Option<Dpop.Proof>, cookie: Option<string>,
    stateId: string)

  datatype Rejection =
    | NoTenant | UnknownTenant | NoToken | BadProof(failure: Dpop.Failure) | Inactive | WrongIssuer | NotBound
    | FapiViolation | StepUpIncomplete(result: PolicyEngine.Result) | FlowExpired

  /** What is handed upstream. */
  datatype Forward = Forward(
    httpMethod: string, path: string, query: string, tenant: string, claims: Claims,
    replayed: Option<StepUp.SavedRequest>)

  datatype Outcome =
    | RateLimited
    | Challenged(why: Rejection)
    | Denied(result: PolicyEngine.Result, saved: StepUp.SavedRequest, cookieSet: bool)
    | Forwarded(forward: Forward)

  // ----- Introspection through the cache

  /** At most `ttl`, and never beyond the token's own lifetime. */
  function Lifetime(c: Claims, ttl: int, now: int): int {
    if c.expiresAt.Some? && c.expiresAt.value - now < ttl then c.expiresAt.value - now else ttl
  }

  /** The store after a provider's answer has been cached. */
  function Remember(m: Store, hash: string, c: Claims, ttl: int, now: int): Store {
    if c.active && Lifetime(c, ttl, now) > 0 then Revocation.CachedStore(m, hash, c, Lifetime(c, ttl, now), now) else m
  }

  /** The store afterwards and the claims; None is an error. */
  function Introspected(caching: bool, m: Store, hash: string, answer: Option<Claims>, now: int): (Store, Option<Claims>) {
    if caching && Lookup(m, hash, now).Some? then (m, Lookup(m, hash, now))
    else if answer.None? then (m, None)
    else if caching then (Remember(m, hash, answer.value, CACHE_TTL, now), answer)
    else (m, answer)
  }

  // ----- The decision on a token's claims

  function PolicyRequest(c: Claims, httpMethod: string, path: string, now: int): PolicyEngine.Request {
    PolicyEngine.Request(httpMethod, path, c.acr, c.amr, c.scopes, c.AuthAge(now), c.details)
  }

  function Evaluation(env: Settings, config: Option<PolicyEngine.Config>, c: Claims, httpMethod: string, path: string, now: int)
    : PolicyEngine.Result
  {
    PolicyEngine.Evaluated(env.glob, config, PolicyRequest(c, httpMethod, path, now))
  }

  predicate FapiCompliant(f: FapiProfile, c: Claims, now: int) {
    && (f.requireDPoP ==> c.jkt != "")
    && (f.requirePushed ==> c.parReference)
    && c.nonce != ""
    && c.AuthAge(now) <= FAPI_MAX_AUTH_AGE
  }

  function SavedFrom(r: Request, result: PolicyEngine.Result, now: int): StepUp.SavedRequest {
    StepUp.SavedRequest(r.httpMethod, r.path, r.query, r.stateId, now, result.requiredACR, result.requiredMaxAge)
  }

  function OwnForward(r: Request, c: Claims): Forward
    requires r.tenant.Some?
  {
    Forward(r.httpMethod, r.path, r.query, r.tenant.value, c, None)
  }

  /** The interrupted request that the cookie asks to replay, if any. */
  function Pending(env: Settings, r: Request, now: int): Option<StepUp.SavedRequest> {
    if env.cookies.None? then None
    else
      var saved := env.cookies.value.ReadCookie(r.cookie, now);
      if saved.Some? && saved.value.path != "" && saved.value.path != r.path then saved else None
  }

  /** A pending step-up is finished under the policy for the saved request, or not at all. */
  function StepUpOutcome(env: Settings, config: Option<PolicyEngine.Config>, r: Request, saved: StepUp.SavedRequest, c: Claims, now: int)
    : Outcome
    requires r.tenant.Some?
  {
    var result := Evaluation(env, config, c, saved.httpMethod, saved.path, now);
    if env.policies && !result.allowed then Challenged(StepUpIncomplete(result))
    else if now - saved.savedAt > StepUp.TIMEOUT then Challenged(FlowExpired)
    else Forwarded(Forward(saved.httpMethod, saved.path, saved.query, r.tenant.value, c, Some(saved)))
  }

  /** Steps 4 to 8 of the request path; they change no state. */
  function Decide(env: Settings, config: Option<PolicyEngine.Config>, r: Request, c: Claims, now: int): Outcome
    requires r.tenant.Some? && r.provider.Some?
    requires env.dpop.Some? ==> r.proof.Some?
  {
    if !c.active then Challenged(Inactive)
    else if r.provider.value.issuer != "" && c.issuer != r.provider.value.issuer then Challenged(WrongIssuer)
    else if env.dpop.Some? && !Dpop.Bound(r.proof.value, c) then Challenged(NotBound)
    else if env.fapi.Some? && !FapiCompliant(env.fapi.value, c, now) then Challenged(FapiViolation)
    else
      var result := Evaluation(env, config, c, r.httpMethod, r.path, now);
      if env.policies && !result.allowed then Denied(result, SavedFrom(r, result, now), env.cookies.Some?)
      else
        match Pending(env, r, now)
        case Some(saved) => StepUpOutcome(env, config, r, saved, c, now)
        case None => Forwarded(OwnForward(r, c))
  }

  /** The landing request itself passes every check. */
  predicate Entitled(env: Settings, config: Option<PolicyEngine.Config>, r: Request, c: Claims, now: int)
    requires r.provider.Some? && (env.dpop.Some? ==> r.proof.Some?)
  {
    && c.active
    && (r.provider.value.issuer != "" ==> c.issuer == r.provider.value.issuer)
    && (env.dpop.Some? ==> Dpop.Bound(r.proof.value, c))
    && (env.fapi.Some? ==> FapiCompliant(env.fapi.value, c, now))
    && (env.policies ==> Evaluation(env, config, c, r.httpMethod, r.path, now).allowed)
  }

  /**
   A request is forwarded if and only if it passes every check and the request that
   its cookie asks to replay, if any, is allowed as well.  (A cookie that can be read
   is never too old for its flow.)
   */
  lemma ForwardedIff(env: Settings, config: Option<PolicyEngine.Config>, r: Request, c: Claims, now: int)
    requires r.tenant.Some? && r.provider.Some? && (env.dpop.Some? ==> r.proof.Some?)
    ensures
      var pending := Pending(env, r, now);
      Decide(env, config, r, c, now).Forwarded? <==>
        && Entitled(env, config, r, c, now)
        && (env.policies && pending.Some? ==>
              Evaluation(env, config, c, pending.value.httpMethod, pending.value.path, now).allowed)
  {
  }

  /**
   The step-up round trip: a request that comes back within 600 s with the cookie of
   a denied one, on another path, is forwarded as the denied one, provided the new
   token's claims are now allowed there.
   */
  lemma DeniedRequestIsReplayed(env: Settings, config: Option<PolicyEngine.Config>, saved: StepUp.SavedRequest, r: Request, c: Claims, now: int)
    requires env.cookies.Some? && env.cookies.value.Carries(saved) && saved.path != "" && saved.path != r.path
    requires r.tenant.Some? && r.provider.Some? && (env.dpop.Some? ==> r.proof.Some?)
    requires r.cookie == Some(env.cookies.value.CookieValue(saved)) && now - saved.savedAt <= StepUp.COOKIE_MAX_AGE
    requires Entitled(env, config, r, c, now)
    requires env.policies ==> Evaluation(env, config, c, saved.httpMethod, saved.path, now).allowed
    ensures Decide(env, config, r, c, now)
         == Forwarded(Forward(saved.httpMethod, saved.path, saved.query, r.tenant.value, c, Some(saved)))
  {
    StepUp.CookieRoundTrip(env.cookies.value, saved, now);
  }

  /**
   What caching buys: an active answer is used again, whatever the provider would say,
   until 30 s have passed or the token expires, whichever is first, and no longer.
   */
  lemma CachedAnswerIsReused(m: Store, hash: string, c: Claims, answer: Option<Claims>, now: int, t: int)
    requires IsTokenKey(hash) && Lookup(m, hash, now).None? && c.active && now <= t
    requires c.expiresAt.Some? ==> c.expiresAt.value > now
    ensures
      var m' := Introspected(true, m, hash, Some(c), now).0;
      var current := t <= now + 30 * SECOND && (c.expiresAt.Some? ==> t <= c.expiresAt.value);
      Introspected(true, m', hash, answer, t).1 == if current then Some(c) else answer
  {
    Revocation.CachedStoreTokens(m, hash, c, Lifetime(c, CACHE_TTL, now), now, hash);
  }

  // ----- One request

  function Limit(env: Settings, s: State, r: Request, now: int): (State, bool) {
    if env.limits.None? then (s, true)
    else
      var (bs, ok) := RateLimiter.AllowStep(env.limits.value, s.buckets, r.client, now);
      (s.(buckets := bs), ok)
  }

  /** Everything that identifies a caller is there: tenant, provider and token. */
  function Unidentified(r: Request): Option<Rejection> {
    if r.tenant.None? then Some(NoTenant)
    else if r.provider.None? then Some(UnknownTenant)
    else if r.token.None? then Some(NoToken)
    else None
  }

  function Prove(env: Settings, m: Store, r: Request, now: nat): (x: (Store, Option<Dpop.Failure>))
    requires env.Valid() && r.token.Some?
    ensures x.1.None? && env.dpop.Some? ==> r.proof.Some?
  {
    if env.dpop.None? then (m, None)
    else Dpop.Validated(env.dpop.value, env.sha, m, r.proof, r.token.value, now)
  }

  /** The request path after the rate limiter. */
  function Authorize(env: Settings, s: State, r: Request, now: nat): (State, Outcome)
    requires env.Valid()
  {
    var missing := Unidentified(r);
    if missing.Some? then (s, Challenged(missing.value))
    else
      var (m1, failure) := Prove(env, s.store, r, now);
      if failure.Some? then (s.(store := m1), Challenged(BadProof(failure.value)))
      else
        var (m2, claims) :=
          Introspected(env.caching, m1, HashToken(env.sha, r.token.value), r.provider.value.answer, now);
        var s2 := s.(store := m2);
        if claims.None? then (s2, Challenged(Inactive))
        else (s2, Decide(env, s.config, r, claims.value, now))
  }

  function Serve(env: Settings, s: State, r: Request, now: nat): (State, Outcome)
    requires env.Valid()
  {
    var (s1, ok) := Limit(env, s, r, now);
    if !ok then (s1, RateLimited) else Authorize(env, s1, r, now)
  }

  // ----- The guard of the source

  class ResourceServerGuard {
    const settings: Settings
    const limiter: RateLimiter.Limiter?
    const cache: MemoryCache
    const engine: PolicyEngine.Engine

    ghost predicate Valid() {
      && settings.Valid()
      && (limiter == null <==> settings.limits.None?)
      && (limiter != null ==> limiter.limits == settings.limits.value)
      && engine.glob == settings.glob
    }

    ghost function Current(): State
      reads limiter, cache, engine
    {
      State(if limiter == null then map[] else limiter.buckets, cache.entries, engine.config)
    }

    constructor (settings: Settings, limiter: RateLimiter.Limiter?, cache: MemoryCache, engine: PolicyEngine.Engine)
      requires settings.Valid() && engine.glob == settings.glob
      requires limiter == null <==> settings.limits.None?
      requires limiter != null ==> limiter.limits == settings.limits.value
      ensures Valid() && this.settings == settings
      ensures this.limiter == limiter && this.cache == cache && this.engine == engine
    {
      this.settings := settings;
      this.limiter := limiter;
      this.cache := cache;
      this.engine := engine;
    }

    method ServeHTTP(r: Request, now: nat) returns (outcome: Outcome)
      requires Valid()
      modifies cache, if limiter == null then {} else {limiter}
      ensures (Current(), outcome) == Serve(settings, old(Current()), r, now)
    {
      if limiter != null {
        var ok := limiter.Allow(r.client, now);
        if !ok {
          return RateLimited;
        }
      }
      if r.tenant.None? {
        return Challenged(NoTenant);
      }
      if r.provider.None? {
        return Challenged(UnknownTenant);
      }
      if r.token.None? {
        return Challenged(NoToken);
      }
      if settings.dpop.Some? {
        var failure := ValidateProof(r, now);
        if failure.Some? {
          return Challenged(BadProof(failure.value));
        }
      }
      var claims := Introspect(r.provider.value, r.token.value, now);
      if claims.None? {
        return Challenged(Inactive);
      }
      outcome := Conclude(r, claims.value, now);
    }

    method ValidateProof(r: Request, now: nat) returns (failure: Option<Dpop.Failure>)
      requires Valid() && settings.dpop.Some? && r.token.Some?
      modifies cache
      ensures (cache.entries, failure) == Prove(settings, old(cache.entries), r, now)
    {
      var rules := settings.dpop.value;
      var validator := new Dpop.Validator(rules.maxAge, rules.nonces, settings.sha, cache);
      failure := validator.Validate(r.proof, r.token.value, now);
    }

    method Introspect(provider: Provider, token: string, now: int) returns (claims: Option<Claims>)
      modifies cache
      ensures (cache.entries, claims)
           == Introspected(settings.caching, old(cache.entries), HashToken(settings.sha, token), provider.answer, now)
    {
      if settings.caching {
        var cached := cache.Get(HashToken(settings.sha, token), now);
        if cached.Some? {
          return cached;
        }
      }
      claims := provider.answer;
      if claims.None? {
        return;
      }
      if settings.caching && claims.value.active {
        var ttl := CACHE_TTL;
        if claims.value.expiresAt.Some? {
          var remaining := claims.value.expiresAt.value - now;
          if remaining < ttl {
            ttl := remaining;
          }
        }
        if ttl > 0 {
          var key := HashToken(settings.sha, token);
          cache.Set(key, claims.value, ttl, now);
          Revocation.IndexClaims(cache, key, claims.value, ttl, now);
        }
      }
    }

    /** Issuer, key binding, profile, policy and step-up, on the claims of an introspected token. */
    method Conclude(r: Request, c: Claims, now: nat) returns (outcome: Outcome)
      requires Valid() && r.tenant.Some? && r.provider.Some?
      requires settings.dpop.Some? ==> r.proof.Some?
      ensures outcome == Decide(settings, engine.config, r, c, now)
    {
      if !c.active {
        return Challenged(Inactive);
      }
      var iss := r.provider.value.issuer;
      if iss != "" && c.issuer != iss {
        return Challenged(WrongIssuer);
      }
      if settings.dpop.Some? && !Dpop.Bound(r.proof.value, c) {
        return Challenged(NotBound);
      }
      if settings.fapi.Some? && !FapiCompliant(settings.fapi.value, c, now) {
        return Challenged(FapiViolation);
      }
      if settings.policies {
        var result := engine.Evaluate(PolicyRequest(c, r.httpMethod, r.path, now));
        if !result.allowed {
          return Denied(result, SavedFrom(r, result, now), settings.cookies.Some?);
        }
      }
      if settings.cookies.Some? {
        var saved := settings.cookies.value.ReadCookie(r.cookie, now);
        if saved.Some? && saved.value.path != "" && saved.value.path != r.path {
          outcome := CompleteStepUp(r, saved.value, c, now);
          return;
        }
      }
      return Forwarded(OwnForward(r, c));
    }

    method CompleteStepUp(r: Request, saved: StepUp.SavedRequest, c: Claims, now: nat) returns (outcome: Outcome)
      requires Valid() && r.tenant.Some?
      ensures outcome == StepUpOutcome(settings, engine.config, r, saved, c, now)
    {
      var flow := new StepUp.FlowState(saved, saved.savedAt);
      if settings.policies {
        var result := engine.Evaluate(PolicyRequest(c, saved.httpMethod, saved.path, now));
        if !result.allowed {
          flow.Fail();
          return Challenged(StepUpIncomplete(result));
        }
      }
      var ok := flow.Complete(now);
      if !ok || flow.state != StepUp.Completed {
        return Challenged(FlowExpired);
      }
      return Forwarded(Forward(saved.httpMethod, saved.path, saved.query, r.tenant.value, c, Some(saved)));
    }
  }
}
