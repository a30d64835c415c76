/**
 Whole runs of the guard: requests, policy reloads, revocation webhooks and the
 two cleanup loops, in any order, under a clock that does not run backwards.
 */
module GuardRuns {
  import opened Options
  import opened Clock
  import opened TokenCache
  import opened Guard
  import opened GuardRequests
  import RateLimiter
  import PolicyEngine
  import Revocation
  import Dpop
  import StepUp

  datatype Event =
    | Ask(at: nat, req: Request)
    | Reload(at: nat, config: Option<PolicyEngine.Config>)
    | Webhook(at: nat, event: Revocation.RevocationEvent)
    | CleanCache(at: nat)
    | CleanLimiter(at: nat)

  /** Without a token cache the webhook works on a cache of its own. */
  function Next(env: Settings, s: State, e: Event): State
    requires env.Valid()
  {
    match e
    case Ask(at, req) => Serve(env, s, req, at).0
    case Reload(_, config) => s.(config := config)
    case Webhook(at, ev) => if env.caching then s.(store := Revocation.Processed(s.store, ev, at).0) else s
    case CleanCache(at) => s.(store := Purge(s.store, at))
    case CleanLimiter(at) => s.(buckets := RateLimiter.Evict(s.buckets, at))
  }

  /** The state after a run that starts with empty buckets and an empty cache. */
  function Run(env: Settings, config: Option<PolicyEngine.Config>, es: seq<Event>): State
    requires env.Valid()
  {
    if es == [] then State(map[], map[], config)
    else Next(env, Run(env, config, es[..|es| - 1]), es[|es| - 1])
  }

  /** What the guard did with the i-th event, a request. */
  function OutcomeOf(env: Settings, config: Option<PolicyEngine.Config>, es: seq<Event>, i: nat): Outcome
    requires env.Valid() && i < |es| && es[i].Ask?
  {
    Serve(env, Run(env, config, es[..i]), es[i].req, es[i].at).1
  }

  ghost predicate ForwardedAt(env: Settings, config: Option<PolicyEngine.Config>, es: seq<Event>, i: nat)
    requires env.Valid()
  {
    i < |es| && es[i].Ask? && OutcomeOf(env, config, es, i).Forwarded?
  }

  ghost predicate Ordered(es: seq<Event>) {
    forall i, j | 0 <= i < j < |es| :: es[i].at <= es[j].at
  }

  /** The configuration in force after a run: the last one loaded. */
  function InForce(config: Option<PolicyEngine.Config>, es: seq<Event>): Option<PolicyEngine.Config> {
    if es == [] then config
    else if es[|es| - 1].Reload? then es[|es| - 1].config
    else InForce(config, es[..|es| - 1])
  }

  lemma RunStep(env: Settings, config: Option<PolicyEngine.Config>, es: seq<Event>, i: nat)
    requires env.Valid() && i < |es|
    ensures Run(env, config, es[..i + 1]) == Next(env, Run(env, config, es[..i]), es[i])
  {
    assert es[..i + 1][..i] == es[..i];
  }

  lemma {:induction false} ConfigIsInForce(env: Settings, config: Option<PolicyEngine.Config>, es: seq<Event>)
    requires env.Valid()
    ensures Run(env, config, es).config == InForce(config, es)
  {
    if es != [] {
      var (init, e) := (es[..|es| - 1], es[|es| - 1]);
      ConfigIsInForce(env, config, init);
      if e.Ask? {
        ServeStore(env, Run(env, config, init), e.req, e.at);
      }
    }
  }

  // ----- Where cached claims come from

  /** The event is a request with a token whose cache key is `k`. */
  ghost predicate AsksWith(env: Settings, e: Event, k: string) {
    e.Ask? && e.req.token.Some? && HashToken(env.sha, e.req.token.value) == k
  }

  /** The event is a request with the token key `k`, and its provider answered with the active claims `c`. */
  ghost predicate AnsweredWith(env: Settings, e: Event, k: string, c: Claims) {
    && AsksWith(env, e, k)
    && e.req.provider.Some? && e.req.provider.value.answer == Some(c) && c.active
  }

  /** Filled by that event: gone after 30 s and not later than the token itself. */
  ghost predicate FilledBy(env: Settings, e: Event, k: string, entry: Entry) {
    && AnsweredWith(env, e, k, entry.claims)
    && entry.expiresAt <= e.at + 30 * SECOND
    && (entry.claims.expiresAt.Some? ==> entry.expiresAt <= entry.claims.expiresAt.value)
  }

  ghost predicate Traced(env: Settings, es: seq<Event>, k: string, m: Store) {
    k in m ==> exists i | 0 <= i < |es| :: FilledBy(env, es[i], k, m[k])
  }

  /** The store after proof validation. */
  function ProvedStore(env: Settings, m: Store, r: Request, now: nat): Store
    requires env.Valid() && Unidentified(r).None?
  {
    Prove(env, m, r, now).0
  }

  /** The store after introspection. */
  function IntrospectedStore(env: Settings, m: Store, r: Request, now: nat): Store
    requires Unidentified(r).None?
  {
    Introspected(env.caching, m, HashToken(env.sha, r.token.value), r.provider.value.answer, now).0
  }

  /** How far a request gets decides what it does to the store; it never loads a configuration. */
  lemma ServeStore(env: Settings, s: State, r: Request, now: nat)
    requires env.Valid()
    ensures Serve(env, s, r, now).0.store
         == if !Limit(env, s, r, now).1 || Unidentified(r).Some? then s.store
            else if Prove(env, s.store, r, now).1.Some? then ProvedStore(env, s.store, r, now)
            else IntrospectedStore(env, ProvedStore(env, s.store, r, now), r, now)
    ensures Serve(env, s, r, now).0.config == s.config
  {
  }

  lemma ProvedStoreAt(env: Settings, m: Store, r: Request, now: nat, k: string)
    requires env.Valid() && Unidentified(r).None?
    requires forall jti :: k != Key(ProofJti, jti)
    ensures
      var m' := ProvedStore(env, m, r, now);
      (k in m' <==> k in m) && (k in m ==> m'[k] == m[k])
  {
  }

  lemma IntrospectedStoreAt(env: Settings, m: Store, r: Request, now: nat, k: string)
    requires Unidentified(r).None? && IsTokenKey(k)
    ensures
      var m' := IntrospectedStore(env, m, r, now);
      k in m' ==> (k in m && m'[k] == m[k]) || FilledBy(env, Ask(now, r), k, m'[k])
  {
    var answer := r.provider.value.answer;
    if answer.Some? && answer.value.active && Lifetime(answer.value, CACHE_TTL, now) > 0 {
      var hash := HashToken(env.sha, r.token.value);
      Revocation.CachedStoreTokens(m, hash, answer.value, Lifetime(answer.value, CACHE_TTL, now), now, k);
    }
  }

  lemma NotAProofKey(k: string)
    requires IsTokenKey(k)
    ensures forall jti :: k != Key(ProofJti, jti)
  {
    forall jti ensures k != Key(ProofJti, jti) {
      NoSpaceHoldsTokenKeys(ProofJti, jti);
    }
  }

  /** What a request does to one token key: nothing, or it stores its own provider's answer. */
  lemma ServeAtTokenKey(env: Settings, s: State, r: Request, now: nat, k: string)
    requires env.Valid() && IsTokenKey(k)
    ensures
      var m' := Serve(env, s, r, now).0.store;
      k in m' ==> (k in s.store && m'[k] == s.store[k]) || FilledBy(env, Ask(now, r), k, m'[k])
  {
    ServeStore(env, s, r, now);
    if Unidentified(r).None? {
      NotAProofKey(k);
      ProvedStoreAt(env, s.store, r, now, k);
      IntrospectedStoreAt(env, ProvedStore(env, s.store, r, now), r, now, k);
    }
  }

  lemma NextAtTokenKey(env: Settings, s: State, e: Event, k: string)
    requires env.Valid() && IsTokenKey(k)
    ensures
      var m' := Next(env, s, e).store;
      k in m' ==> (k in s.store && m'[k] == s.store[k]) || FilledBy(env, e, k, m'[k])
  {
    match e
    case Ask(at, req) => ServeAtTokenKey(env, s, req, at, k);
    case Webhook(at, ev) => Revocation.ProcessedOnlyDeletes(s.store, ev, at);
    case _ =>
  }

  /** Every cached token entry was filled by an earlier request with that token, whatever happened in between. */
  lemma {:induction false} EntriesAreTraced(env: Settings, config: Option<PolicyEngine.Config>, es: seq<Event>, k: string)
    requires env.Valid() && IsTokenKey(k)
    ensures Traced(env, es, k, Run(env, config, es).store)
  {
    if es != [] {
      var (init, e) := (es[..|es| - 1], es[|es| - 1]);
      EntriesAreTraced(env, config, init, k);
      NextAtTokenKey(env, Run(env, config, init), e, k);
      var (m, m') := (Run(env, config, init).store, Run(env, config, es).store);
      if k in m' {
        if FilledBy(env, e, k, m'[k]) {
          assert es[|es| - 1] == e;
        } else {
          var i :| 0 <= i < |init| && FilledBy(env, init[i], k, m[k]);
          assert es[i] == init[i];
        }
      }
    }
  }

  // ----- What is forwarded

  /** The decision on the claims, once a request is forwarded. */
  lemma ForwardMeansDecided(env: Settings, s: State, r: Request, now: nat) returns (c: Claims)
    requires env.Valid() && Serve(env, s, r, now).1.Forwarded?
    ensures Limit(env, s, r, now).1 && Unidentified(r).None?
    ensures env.dpop.Some? ==> r.proof.Some?
    ensures Decide(env, s.config, r, c, now) == Serve(env, s, r, now).1
    ensures (env.caching && exists m: Store :: m == Prove(env, s.store, r, now).0 && Lookup(m, HashToken(env.sha, r.token.value), now) == Some(c))
         || r.provider.value.answer == Some(c)
  {
    var s1 := Limit(env, s, r, now).0;
    var m1 := Prove(env, s1.store, r, now).0;
    c := Introspected(env.caching, m1, HashToken(env.sha, r.token.value), r.provider.value.answer, now).1.value;
  }

  /** What every forwarded request satisfies, in terms of the claims, the policy in force and the clock. */
  ghost predicate Authorized(env: Settings, config: Option<PolicyEngine.Config>, r: Request, f: Forward, now: nat) {
    && f.claims.active
    && Carried(r, f)
    && (r.provider.Some? && (r.provider.value.issuer != "" ==> f.claims.issuer == r.provider.value.issuer))
    && (env.dpop.Some? ==> r.proof.Some? && f.claims.jkt != "" && r.proof.value.thumbprint == Some(f.claims.jkt))
    && ProfileFits(env, f.claims, now)
    && (env.policies ==> Permitted(env.glob, config, f.claims, f.httpMethod, f.path, now))
    && (env.policies ==> Permitted(env.glob, config, f.claims, r.httpMethod, r.path, now))
  }

  /**
   Request `j` had the claims as an active answer, at most 30 s before request `i`, for a
   token with the same SHA-256 digest; served from the cache, they are not past their expiry.
   */
  ghost predicate VouchedBy(env: Settings, es: seq<Event>, j: nat, i: nat, c: Claims)
    requires j <= i < |es| && es[i].Ask? && es[i].req.token.Some?
  {
    && AnsweredWith(env, es[j], HashToken(env.sha, es[i].req.token.value), c)
    && env.sha(es[j].req.token.value) == env.sha(es[i].req.token.value)
    && es[i].at <= es[j].at + 30 * SECOND
    && (j < i && c.expiresAt.Some? ==> es[i].at <= c.expiresAt.value)
  }

  ghost predicate Vouched(env: Settings, es: seq<Event>, i: nat, c: Claims) {
    && i < |es| && es[i].Ask? && es[i].req.token.Some?
    && exists j | 0 <= j <= i :: VouchedBy(env, es, j, i, c)
  }

  lemma DecidedIsAuthorized(env: Settings, config: Option<PolicyEngine.Config>, r: Request, c: Claims, now: nat)
    requires r.tenant.Some? && r.provider.Some? && (env.dpop.Some? ==> r.proof.Some?)
    requires Decide(env, config, r, c, now).Forwarded?
    ensures Authorized(env, config, r, Decide(env, config, r, c, now).forward, now)
    ensures Decide(env, config, r, c, now).forward.claims == c
  {
    var f := Decide(env, config, r, c, now).forward;
    DecidedForwardedIff(env, config, r, c, now);
    DecidedForward(env, config, r, c, now);
    if env.policies {
      DecidedIsPermitted(env, config, r, c, now);
    }
    FitIsAuthorized(env, config, r, c, f, now);
  }

  /** The forward goes out under the request's tenant, as the request or the saved one. */
  ghost predicate Carried(r: Request, f: Forward) {
    && r.tenant == Some(f.tenant)
    && match f.replayed
       case None => f.httpMethod == r.httpMethod && f.path == r.path && f.query == r.query
       case Some(saved) => f.httpMethod == saved.httpMethod && f.path == saved.path && f.query == saved.query
  }

  lemma DecidedForward(env: Settings, config: Option<PolicyEngine.Config>, r: Request, c: Claims, now: int)
    requires r.tenant.Some? && r.provider.Some? && (env.dpop.Some? ==> r.proof.Some?)
    requires Decide(env, config, r, c, now).Forwarded?
    ensures Carried(r, Decide(env, config, r, c, now).forward) && Decide(env, config, r, c, now).forward.claims == c
  {
  }

  lemma FitIsAuthorized(env: Settings, config: Option<PolicyEngine.Config>, r: Request, c: Claims, f: Forward, now: nat)
    requires r.provider.Some? && Fit(env, config, r, c, now) && Carried(r, f) && f.claims == c
    requires env.policies ==> Permitted(env.glob, config, c, f.httpMethod, f.path, now)
    ensures Authorized(env, config, r, f, now)
  {
  }

  lemma DecidedIsPermitted(env: Settings, config: Option<PolicyEngine.Config>, r: Request, c: Claims, now: int)
    requires r.tenant.Some? && r.provider.Some? && (env.dpop.Some? ==> r.proof.Some?)
    requires env.policies && Decide(env, config, r, c, now).Forwarded?
    ensures
      var f := Decide(env, config, r, c, now).forward;
      && Permitted(env.glob, config, c, r.httpMethod, r.path, now)
      && Permitted(env.glob, config, c, f.httpMethod, f.path, now)
  {
    var f := Decide(env, config, r, c, now).forward;
    PermittedIff(env, config, c, r.httpMethod, r.path, now);
    PermittedIff(env, config, c, f.httpMethod, f.path, now);
  }

  /** The request carried an acceptable DPoP proof for its token, whose jti the cache does not hold, if proofs are on. */
  ghost predicate Proved(env: Settings, s: State, r: Request, now: nat)
    requires env.Valid()
  {
    r.token.Some? && Proven(env, s.store, r, now)
  }

  /**
   Safety of whole runs.  Every request handed upstream, with its own or a replayed
   method and path, is allowed by the configuration in force for the token's claims;
   those claims are active, carry the tenant provider's declared issuer, are bound to
   the key of an accepted proof when DPoP is on, and are at most 30 s old answers for this token's digest,
   even when another tenant's request put them into the cache.
   */
  lemma ForwardedIsAuthorized(env: Settings, config: Option<PolicyEngine.Config>, es: seq<Event>, i: nat)
    requires env.Valid() && Ordered(es) && ForwardedAt(env, config, es, i)
    ensures
      var f := OutcomeOf(env, config, es, i).forward;
      && Authorized(env, InForce(config, es[..i]), es[i].req, f, es[i].at)
      && Vouched(env, es, i, f.claims)
    ensures Proved(env, Run(env, config, es[..i]), es[i].req, es[i].at)
  {
    var (s, r, now) := (Run(env, config, es[..i]), es[i].req, es[i].at);
    ForwardedExactly(env, s, r, now);
    var c := ForwardMeansDecided(env, s, r, now);
    ConfigIsInForce(env, config, es[..i]);
    DecidedIsAuthorized(env, s.config, r, c, now);
    if r.provider.value.answer == Some(c) {
      assert VouchedBy(env, es, i, i, c);
    } else {
      NotAProofKey(HashToken(env.sha, r.token.value));
      ProvedStoreAt(env, s.store, r, now, HashToken(env.sha, r.token.value));
      HitIsVouched(env, config, es, i, c);
    }
  }

  lemma HitIsVouched(env: Settings, config: Option<PolicyEngine.Config>, es: seq<Event>, i: nat, c: Claims)
    requires env.Valid() && Ordered(es) && i < |es| && es[i].Ask? && es[i].req.token.Some?
    requires Lookup(Run(env, config, es[..i]).store, HashToken(env.sha, es[i].req.token.value), es[i].at) == Some(c)
    ensures Vouched(env, es, i, c)
  {
    var k := HashToken(env.sha, es[i].req.token.value);
    var m := Run(env, config, es[..i]).store;
    EntriesAreTraced(env, config, es[..i], k);
    var j :| 0 <= j < i && FilledBy(env, es[..i][j], k, m[k]);
    assert es[..i][j] == es[j];
    assert AnsweredWith(env, es[j], k, c);
    SameKeySameDigest(env.sha, es[j].req.token.value, es[i].req.token.value);
    assert VouchedBy(env, es, j, i, c);
  }

  // ----- Bounded staleness

  /** From time `t` on no provider answers with active claims for a token with key `k`. */
  ghost predicate InactiveAfter(env: Settings, es: seq<Event>, k: string, t: int) {
    forall j, c | 0 <= j < |es| && AnsweredWith(env, es[j], k, c) :: es[j].at <= t
  }

  /** Nothing is forwarded for a token more than 30 s after the providers last vouched for it. */
  lemma StaleForAtMost30s(env: Settings, config: Option<PolicyEngine.Config>, es: seq<Event>, i: nat, t: int)
    requires env.Valid() && Ordered(es) && ForwardedAt(env, config, es, i)
    requires es[i].req.token.Some? && InactiveAfter(env, es, HashToken(env.sha, es[i].req.token.value), t)
    ensures es[i].at <= t + 30 * SECOND
  {
    ForwardedIsAuthorized(env, config, es, i);
  }

  /** The w-th event is a webhook that deletes the cache key `k`, by name or through the index. */
  ghost predicate RevokedAt(env: Settings, config: Option<PolicyEngine.Config>, es: seq<Event>, w: nat, k: string)
    requires env.Valid()
  {
    && w < |es| && es[w].Webhook? && env.caching
    && k in Revocation.Targets(Run(env, config, es[..w]).store, es[w].event, es[w].at)
  }

  lemma ReachedIsGone(env: Settings, s: State, e: Event, k: string)
    requires env.Valid() && env.caching && e.Webhook? && k in Revocation.Targets(s.store, e.event, e.at)
    ensures k !in Next(env, s, e).store
  {
    Revocation.RevocationIsTargeted(s.store, e.event, e.at, k, e.at);
  }

  lemma StaysOut(env: Settings, s: State, e: Event, k: string)
    requires env.Valid() && IsTokenKey(k) && k !in s.store && forall c :: !AnsweredWith(env, e, k, c)
    ensures k !in Next(env, s, e).store
  {
    NextAtTokenKey(env, s, e, k);
  }

  lemma {:induction false} RevokedStaysOut(env: Settings, config: Option<PolicyEngine.Config>, es: seq<Event>, w: nat, i: nat, k: string)
    requires env.Valid() && IsTokenKey(k) && w < i <= |es| && RevokedAt(env, config, es, w, k)
    requires forall j, c | w <= j < |es| :: !AnsweredWith(env, es[j], k, c)
    ensures k !in Run(env, config, es[..i]).store
  {
    if w < i - 1 {
      RevokedStaysOut(env, config, es, w, i - 1, k);
      StaysOut(env, Run(env, config, es[..i - 1]), es[i - 1], k);
    } else {
      ReachedIsGone(env, Run(env, config, es[..w]), es[w], k);
    }
    RunStep(env, config, es, i - 1);
  }

  /** Without a cached entry, a request is forwarded only on its own provider's active answer. */
  lemma ForwardNeedsAnswer(env: Settings, s: State, r: Request, now: nat, k: string) returns (c: Claims)
    requires env.Valid() && Serve(env, s, r, now).1.Forwarded?
    requires r.token.Some? && k == HashToken(env.sha, r.token.value) && k !in s.store
    ensures AnsweredWith(env, Ask(now, r), k, c)
  {
    if r.proof.Some? {
      NoSpaceHoldsTokenKeys(ProofJti, r.proof.value.jti);
    }
    c := ForwardMeansDecided(env, s, r, now);
    DecidedIsAuthorized(env, s.config, r, c, now);
  }

  /** Once the providers answer inactive and a webhook reaches the token, nothing is forwarded for it again. */
  lemma RevokedIsNeverForwarded(env: Settings, config: Option<PolicyEngine.Config>, es: seq<Event>, w: nat, i: nat, k: string)
    requires env.Valid() && w < i < |es| && AsksWith(env, es[i], k) && RevokedAt(env, config, es, w, k)
    requires forall j, c | w <= j < |es| :: !AnsweredWith(env, es[j], k, c)
    ensures !ForwardedAt(env, config, es, i)
  {
    RevokedStaysOut(env, config, es, w, i, k);
    if ForwardedAt(env, config, es, i) {
      var c := ForwardNeedsAnswer(env, Run(env, config, es[..i]), es[i].req, es[i].at, k);
    }
  }

  // ----- Replayed requests

  /** The i-th request was denied by policy, and `saved` went out in the cookie. */
  ghost predicate SavedAt(env: Settings, config: Option<PolicyEngine.Config>, es: seq<Event>, i: nat, saved: StepUp.SavedRequest)
    requires env.Valid()
  {
    && i < |es| && es[i].Ask?
    && OutcomeOf(env, config, es, i).Denied? && OutcomeOf(env, config, es, i).cookieSet
    && OutcomeOf(env, config, es, i).saved == saved
  }

  /** The i-th event presents a cookie with a payload whose signature verifies. */
  ghost predicate Presents(env: Settings, e: Event, payload: string) {
    && env.cookies.Some? && e.Ask? && e.req.cookie.Some?
    && env.cookies.value.Signs(e.req.cookie.value, payload)
  }

  /** No client can sign: every payload presented with a valid signature was issued by an earlier denial. */
  ghost predicate Unforged(env: Settings, config: Option<PolicyEngine.Config>, es: seq<Event>)
    requires env.Valid()
  {
    forall i, payload | 0 <= i < |es| && Presents(env, es[i], payload) ::
      exists j, saved | 0 <= j < i && SavedAt(env, config, es, j, saved) ::
        payload == env.cookies.value.encode(saved) && env.cookies.value.Carries(saved)
  }

  lemma DeniedSaves(env: Settings, s: State, r: Request, now: nat)
    requires env.Valid() && Serve(env, s, r, now).1.Denied?
    ensures
      var o := Serve(env, s, r, now).1;
      && o.saved.httpMethod == r.httpMethod && o.saved.path == r.path && o.saved.query == r.query
      && o.saved.savedAt == now && !o.result.allowed
      && o.cookieSet == env.cookies.Some? && o.saved.stateId == r.stateId
      && o.saved.acrHint == o.result.requiredACR && o.saved.maxAge == o.result.requiredMaxAge
  {
  }

  lemma ReplayComesFromCookie(env: Settings, s: State, r: Request, now: nat)
    requires env.Valid() && Serve(env, s, r, now).1.Forwarded? && Serve(env, s, r, now).1.forward.replayed.Some?
    ensures env.cookies.Some?
    ensures env.cookies.value.ReadCookie(r.cookie, now) == Serve(env, s, r, now).1.forward.replayed
  {
    var c := ForwardMeansDecided(env, s, r, now);
  }

  /**
   A replayed request is one that this gateway itself denied by policy at most 600 s
   before, with the same method, path and query.
   */
  lemma ReplayedWasDenied(env: Settings, config: Option<PolicyEngine.Config>, es: seq<Event>, i: nat)
    requires env.Valid() && Unforged(env, config, es) && ForwardedAt(env, config, es, i)
    requires OutcomeOf(env, config, es, i).forward.replayed.Some?
    ensures
      var f := OutcomeOf(env, config, es, i).forward;
      exists j | 0 <= j < i ::
        && es[j].Ask? && OutcomeOf(env, config, es, j).Denied?
        && f.httpMethod == es[j].req.httpMethod && f.path == es[j].req.path && f.query == es[j].req.query
        && es[i].at - es[j].at <= 600 * SECOND
  {
    var (s, r, now) := (Run(env, config, es[..i]), es[i].req, es[i].at);
    ReplayComesFromCookie(env, s, r, now);
    var c := ForwardMeansDecided(env, s, r, now);
    DecidedIsAuthorized(env, s.config, r, c, now);
    var key := env.cookies.value;
    var payload := key.SignedPayload(r.cookie.value).value;
    StepUp.SignedPayloadIff(key, r.cookie.value, payload);
    assert Presents(env, es[i], payload);
    var j, saved :| 0 <= j < i && SavedAt(env, config, es, j, saved) && payload == key.encode(saved) && key.Carries(saved);
    DeniedSaves(env, Run(env, config, es[..j]), es[j].req, es[j].at);
  }
}
