/**
 What one request needs, spelled out in the terms of the request, the token's claims,
 the configuration and the cache: which outcome it gets, and what exactly is forwarded.
 */
module GuardRequests {
  import opened Options
  import opened Clock
  import opened Base64Url
  import opened TokenCache
  import opened Guard
  import Matcher
  import PolicyEngine
  import RateLimiter
  import Dpop
  import DpopNonce
  import StepUp

  // ----- What a policy grants to claims

  ghost predicate Covers(glob: Matcher.Glob, p: PolicyEngine.Policy, httpMethod: string, path: string) {
    && p.enabled && Matcher.MatchMethod(p.methods, httpMethod)
    && exists i | 0 <= i < |p.resources| :: Matcher.MatchResource(glob, p.resources[i], path)
  }

  /** The first enabled policy for this method and path. */
  ghost predicate Decides(glob: Matcher.Glob, ps: seq<PolicyEngine.Policy>, i: nat, httpMethod: string, path: string) {
    i < |ps| && Covers(glob, ps[i], httpMethod, path) && forall j | 0 <= j < i :: !Covers(glob, ps[j], httpMethod, path)
  }

  ghost predicate Grants(p: PolicyEngine.Policy, levels: seq<string>, c: Claims, now: int) {
    && (forall i | 0 <= i < |p.requireScopes| :: p.requireScopes[i] in c.scopes)
    && (p.requireACR != "" ==> Matcher.ACRSatisfies(c.acr, p.requireACR, levels))
    && (p.maxAge > 0 ==> c.authTime.Some? && 0 < now - c.authTime.value <= p.maxAge * SECOND)
    && (p.requireMFA ==> exists a :: a in c.amr && a in {"mfa", "otp", "hwk"})
    && (forall i | 0 <= i < |p.requireDetails| :: p.requireDetails[i].MetBy(c.details))
  }

  ghost predicate Permitted(glob: Matcher.Glob, config: Option<PolicyEngine.Config>, c: Claims, httpMethod: string, path: string, now: int) {
    config.Some? && exists i: nat ::
      Decides(glob, config.value.policies, i, httpMethod, path) && Grants(config.value.policies[i], config.value.acrLevels, c, now)
  }

  lemma CoversIff(glob: Matcher.Glob, p: PolicyEngine.Policy, c: Claims, httpMethod: string, path: string, now: int)
    ensures PolicyEngine.Applies(glob, p, PolicyRequest(c, httpMethod, path, now)) <==> Covers(glob, p, httpMethod, path)
  {
  }

  lemma GrantsIff(p: PolicyEngine.Policy, levels: seq<string>, c: Claims, httpMethod: string, path: string, now: int)
    ensures PolicyEngine.Checked(p, levels, PolicyRequest(c, httpMethod, path, now)).allowed <==> Grants(p, levels, c, now)
  {
    PolicyEngine.ReasonIff(p, levels, PolicyRequest(c, httpMethod, path, now));
  }

  /** The engine is asked about this method and path and these claims, and allows them exactly when the first policy for them grants it. */
  lemma PermittedIff(env: Settings, config: Option<PolicyEngine.Config>, c: Claims, httpMethod: string, path: string, now: int)
    ensures Evaluation(env, config, c, httpMethod, path, now).allowed <==> Permitted(env.glob, config, c, httpMethod, path, now)
  {
    if config.Some? {
      var (ps, req) := (config.value.policies, PolicyRequest(c, httpMethod, path, now));
      forall p ensures PolicyEngine.Applies(env.glob, p, req) <==> Covers(env.glob, p, httpMethod, path) {
        CoversIff(env.glob, p, c, httpMethod, path, now);
      }
      var k := PolicyEngine.FirstMatch(env.glob, ps, req);
      forall i: nat | Decides(env.glob, ps, i, httpMethod, path) ensures i == k {
        PolicyEngine.FirstMatchUnique(env.glob, ps, req, i);
      }
      if k < |ps| {
        assert Decides(env.glob, ps, k, httpMethod, path);
        GrantsIff(ps[k], config.value.acrLevels, c, httpMethod, path, now);
      }
    }
  }

  // ----- What a proof needs

  ghost predicate ProofGood(rules: Dpop.Rules, sha: string -> Digest, m: Store, p: Dpop.Proof, token: string, now: nat)
    requires rules.Valid()
  {
    && now - p.iat <= rules.maxAge && p.iat <= now + 5 * SECOND
    && p.ath == Encoded(sha(token))
    && (rules.nonces.Some? ==>
          var n := rules.nonces.value;
          p.nonce != [] && exists t :: DpopNonce.Lately(t, now, n.window) && p.nonce == Encoded(n.mac(t / n.window)))
    && p.jti != "" && !("dpop:jti:" + p.jti in m && now <= m["dpop:jti:" + p.jti].expiresAt)
  }

  lemma ProofGoodIff(rules: Dpop.Rules, sha: string -> Digest, m: Store, p: Dpop.Proof, token: string, now: nat)
    requires rules.Valid()
    ensures Dpop.Accepts(rules, sha, m, p, token, now) <==> ProofGood(rules, sha, m, p, token, now)
  {
    Dpop.AcceptsIff(rules, sha, m, p, token, now);
    RoundTrip(sha(token));
    assert Key(ProofJti, p.jti) == "dpop:jti:" + p.jti;
    if rules.nonces.Some? {
      DpopNonce.AcceptedWasIssued(rules.nonces.value, p.nonce, now);
    }
  }

  // ----- What the claims need

  predicate IssuerFits(r: Request, c: Claims)
    requires r.provider.Some?
  {
    r.provider.value.issuer == "" || r.provider.value.issuer == c.issuer
  }

  predicate KeyFits(env: Settings, r: Request, c: Claims) {
    env.dpop.Some? ==> r.proof.Some? && c.jkt != "" && r.proof.value.thumbprint == Some(c.jkt)
  }

  predicate ProfileFits(env: Settings, c: Claims, now: int) {
    env.fapi.Some? ==>
      && (env.fapi.value.requireDPoP ==> c.jkt != "") && (env.fapi.value.requirePushed ==> c.parReference)
      && c.nonce != "" && (c.authTime.Some? ==> now - c.authTime.value <= 60 * SECOND)
  }

  ghost predicate OwnPermitted(env: Settings, config: Option<PolicyEngine.Config>, r: Request, c: Claims, now: int) {
    env.policies ==> Permitted(env.glob, config, c, r.httpMethod, r.path, now)
  }

  /** The cookie asks to replay `saved`: signed, at most 600 s old, and for another path. */
  ghost predicate Returns(env: Settings, r: Request, saved: StepUp.SavedRequest, now: int) {
    && env.cookies.Some? && r.cookie.Some? && saved.path != "" && saved.path != r.path
    && now - saved.savedAt <= 600 * SECOND
    && exists payload :: env.cookies.value.Signs(r.cookie.value, payload) && env.cookies.value.decode(payload) == Some(saved)
  }

  lemma PendingIff(env: Settings, r: Request, now: int, saved: StepUp.SavedRequest)
    ensures Pending(env, r, now) == Some(saved) <==> Returns(env, r, saved, now)
  {
    if env.cookies.Some? {
      StepUp.ReadCookieIff(env.cookies.value, r.cookie, now, saved);
    }
  }

  lemma ClaimsRefusalIff(env: Settings, config: Option<PolicyEngine.Config>, r: Request, c: Claims, now: int)
    requires r.tenant.Some? && r.provider.Some? && (env.dpop.Some? ==> r.proof.Some?)
    ensures
      var o := Decide(env, config, r, c, now);
      var (a, b, d, e) := (c.active, IssuerFits(r, c), KeyFits(env, r, c), ProfileFits(env, c, now));
      && (!a <==> o == Challenged(Inactive))
      && (a && !b <==> o == Challenged(WrongIssuer))
      && (a && b && !d <==> o == Challenged(NotBound))
      && (a && b && d && !e <==> o == Challenged(FapiViolation))
      && (o.Denied? <==> a && b && d && e && env.policies && !Evaluation(env, config, c, r.httpMethod, r.path, now).allowed)
  {
  }

  /** What the claims decide, in the order of the checks. */
  lemma RefusalIff(env: Settings, config: Option<PolicyEngine.Config>, r: Request, c: Claims, now: int)
    requires r.tenant.Some? && r.provider.Some? && (env.dpop.Some? ==> r.proof.Some?)
    ensures
      var o := Decide(env, config, r, c, now);
      var (a, b, d, e, f) := (c.active, IssuerFits(r, c), KeyFits(env, r, c), ProfileFits(env, c, now), OwnPermitted(env, config, r, c, now));
      && (!a <==> o == Challenged(Inactive))
      && (a && !b <==> o == Challenged(WrongIssuer))
      && (a && b && !d <==> o == Challenged(NotBound))
      && (a && b && d && !e <==> o == Challenged(FapiViolation))
      && (a && b && d && e && !f <==> o.Denied?)
  {
    ClaimsRefusalIff(env, config, r, c, now);
    PermittedIff(env, config, c, r.httpMethod, r.path, now);
  }

  /** A denial carries the engine's result, and the cookie, if there is one, the denied request. */
  lemma DenialIs(env: Settings, config: Option<PolicyEngine.Config>, r: Request, c: Claims, now: int)
    requires r.tenant.Some? && r.provider.Some? && (env.dpop.Some? ==> r.proof.Some?)
    requires Decide(env, config, r, c, now).Denied?
    ensures
      var o := Decide(env, config, r, c, now);
      var age := if c.authTime.Some? then now - c.authTime.value else 0;
      && o.result == PolicyEngine.Evaluated(env.glob, config,
                       PolicyEngine.Request(r.httpMethod, r.path, c.acr, c.amr, c.scopes, age, c.details))
      && !o.result.allowed && o.cookieSet == env.cookies.Some?
      && o.saved == StepUp.SavedRequest(r.httpMethod, r.path, r.query, r.stateId, now, o.result.requiredACR, o.result.requiredMaxAge)
  {
  }

  ghost predicate Fit(env: Settings, config: Option<PolicyEngine.Config>, r: Request, c: Claims, now: int)
    requires r.provider.Some?
  {
    && c.active && IssuerFits(r, c) && KeyFits(env, r, c) && ProfileFits(env, c, now)
    && OwnPermitted(env, config, r, c, now)
  }

  /** What goes upstream for a request that passes: itself, or the one its cookie brings back. */
  lemma PassIs(env: Settings, config: Option<PolicyEngine.Config>, r: Request, c: Claims, now: int)
    requires r.tenant.Some? && r.provider.Some? && (env.dpop.Some? ==> r.proof.Some?) && Fit(env, config, r, c, now)
    ensures (forall saved :: !Returns(env, r, saved, now)) ==>
              Decide(env, config, r, c, now) == Forwarded(Forward(r.httpMethod, r.path, r.query, r.tenant.value, c, None))
    ensures forall saved | Returns(env, r, saved, now) ::
              Decide(env, config, r, c, now)
              == if env.policies && !Permitted(env.glob, config, c, saved.httpMethod, saved.path, now)
                 then Challenged(StepUpIncomplete(Evaluation(env, config, c, saved.httpMethod, saved.path, now)))
                 else Forwarded(Forward(saved.httpMethod, saved.path, saved.query, r.tenant.value, c, Some(saved)))
  {
    RefusalIff(env, config, r, c, now);
    forall saved ensures Pending(env, r, now) == Some(saved) <==> Returns(env, r, saved, now) {
      PendingIff(env, r, now, saved);
    }
    var pending := Pending(env, r, now);
    if pending.Some? {
      PermittedIff(env, config, c, pending.value.httpMethod, pending.value.path, now);
    }
  }

  // ----- The whole request

  /** The rate limiter lets the client through. */
  predicate LetIn(env: Settings, s: State, r: Request, now: int) {
    env.limits.Some? ==> RateLimiter.AllowStep(env.limits.value, s.buckets, r.client, now).1
  }

  ghost predicate Proven(env: Settings, m: Store, r: Request, now: nat)
    requires env.Valid() && r.token.Some?
  {
    env.dpop.Some? ==> r.proof.Some? && ProofGood(env.dpop.value, env.sha, m, r.proof.value, r.token.value, now)
  }

  /** The claims: those in the cache while they live, and otherwise the provider's answer. */
  function ClaimsOf(env: Settings, m: Store, r: Request, now: int): Option<Claims>
    requires r.token.Some? && r.provider.Some?
  {
    var k := HashToken(env.sha, r.token.value);
    if env.caching && k in m && now <= m[k].expiresAt then Some(m[k].claims) else r.provider.value.answer
  }

  lemma ProvenIff(env: Settings, m: Store, r: Request, now: nat)
    requires env.Valid() && r.token.Some?
    ensures Prove(env, m, r, now).1.None? <==> Proven(env, m, r, now)
  {
    if env.dpop.Some? && r.proof.Some? {
      ProofGoodIff(env.dpop.value, env.sha, m, r.proof.value, r.token.value, now);
    }
  }

  lemma ClaimsAfterProof(env: Settings, m: Store, r: Request, now: nat)
    requires env.Valid() && r.token.Some? && r.provider.Some?
    ensures Introspected(env.caching, Prove(env, m, r, now).0, HashToken(env.sha, r.token.value), r.provider.value.answer, now).1
         == ClaimsOf(env, m, r, now)
  {
    if r.proof.Some? {
      NoSpaceHoldsTokenKeys(ProofJti, r.proof.value.jti);
    }
  }

  /** Without a tenant, a known one, or a token, a request ends there. */
  lemma UnidentifiedIs(env: Settings, s: State, r: Request, now: nat)
    requires env.Valid() && LetIn(env, s, r, now)
    ensures
      var o := Serve(env, s, r, now).1;
      && (r.tenant.None? ==> o == Challenged(NoTenant))
      && (r.tenant.Some? && r.provider.None? ==> o == Challenged(UnknownTenant))
      && (r.tenant.Some? && r.provider.Some? && r.token.None? ==> o == Challenged(NoToken))
  {
  }

  lemma IdentifiedIs(env: Settings, s: State, r: Request, now: nat)
    requires env.Valid() && LetIn(env, s, r, now) && r.tenant.Some? && r.provider.Some? && r.token.Some?
    ensures
      var o := Serve(env, s, r, now).1;
      if !Proven(env, s.store, r, now) then o.Challenged? && o.why.BadProof?
      else match ClaimsOf(env, s.store, r, now)
           case None => o == Challenged(Inactive)
           case Some(c) => o == Decide(env, s.config, r, c, now)
  {
    ProvenIff(env, s.store, r, now);
    ClaimsAfterProof(env, s.store, r, now);
  }

  /** The outcome of every request, step by step: nothing is skipped, and nothing else stops it. */
  lemma OutcomeIs(env: Settings, s: State, r: Request, now: nat)
    requires env.Valid()
    ensures
      var o := Serve(env, s, r, now).1;
      && (!LetIn(env, s, r, now) <==> o == RateLimited)
      && (LetIn(env, s, r, now) ==>
            if r.tenant.None? then o == Challenged(NoTenant)
            else if r.provider.None? then o == Challenged(UnknownTenant)
            else if r.token.None? then o == Challenged(NoToken)
            else if !Proven(env, s.store, r, now) then o.Challenged? && o.why.BadProof?
            else match ClaimsOf(env, s.store, r, now)
                 case None => o == Challenged(Inactive)
                 case Some(c) => o == Decide(env, s.config, r, c, now))
  {
    if LetIn(env, s, r, now) {
      UnidentifiedIs(env, s, r, now);
      if r.tenant.Some? && r.provider.Some? && r.token.Some? {
        IdentifiedIs(env, s, r, now);
      }
    }
  }

  ghost predicate SavedPermitted(env: Settings, config: Option<PolicyEngine.Config>, r: Request, c: Claims, now: int) {
    forall saved | env.policies && Returns(env, r, saved, now) ::
      Permitted(env.glob, config, c, saved.httpMethod, saved.path, now)
  }

  /** A request is forwarded if and only if all of this holds of it. */
  lemma ForwardedExactly(env: Settings, s: State, r: Request, now: nat)
    requires env.Valid()
    ensures Serve(env, s, r, now).1.Forwarded? <==>
            && LetIn(env, s, r, now) && r.tenant.Some? && r.provider.Some? && r.token.Some?
            && Proven(env, s.store, r, now)
            && ClaimsOf(env, s.store, r, now).Some?
            && var c := ClaimsOf(env, s.store, r, now).value;
               Fit(env, s.config, r, c, now) && SavedPermitted(env, s.config, r, c, now)
  {
    OutcomeIs(env, s, r, now);
    if LetIn(env, s, r, now) && r.tenant.Some? && r.provider.Some? && r.token.Some? && Proven(env, s.store, r, now)
       && ClaimsOf(env, s.store, r, now).Some? {
      DecidedForwardedIff(env, s.config, r, ClaimsOf(env, s.store, r, now).value, now);
    }
  }

  lemma DecidedForwardedIff(env: Settings, config: Option<PolicyEngine.Config>, r: Request, c: Claims, now: int)
    requires r.tenant.Some? && r.provider.Some? && (env.dpop.Some? ==> r.proof.Some?)
    ensures Decide(env, config, r, c, now).Forwarded? <==> Fit(env, config, r, c, now) && SavedPermitted(env, config, r, c, now)
  {
    RefusalIff(env, config, r, c, now);
    if Fit(env, config, r, c, now) {
      PassIs(env, config, r, c, now);
      if saved :| Returns(env, r, saved, now) {
        PendingIff(env, r, now, saved);
        forall other ensures Returns(env, r, other, now) <==> other == saved {
          PendingIff(env, r, now, other);
        }
      }
    }
  }
}
