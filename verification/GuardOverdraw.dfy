/**
 When the rate bound of forwarded requests fails: a guard whose burst outlasts the idle
 time before eviction, and a caller whom nothing but the limiter holds back.
 */
module GuardOverdraw {
  import opened Options
  import opened TokenCache
  import opened Guard
  import opened GuardRuns
  import opened GuardRateRuns
  import PolicyEngine
  import RateLimiter
  import Dpop
  import GuardProofRuns

  /** A caller with one token, whose provider always answers with the same claims; `ask` is the n-th request, made at a time. */
  datatype Caller = Caller(token: string, claims: Claims, ask: (nat, nat) -> Request)

  /** Past the limiter and with an unused jti, the request is forwarded. */
  predicate Admissible(env: Settings, config: Option<PolicyEngine.Config>, caller: Caller, r: Request, now: nat)
    requires env.Valid()
  {
    && r.tenant.Some? && r.provider.Some? && r.token == Some(caller.token) && r.provider.value.answer == Some(caller.claims)
    && (env.dpop.Some? ==> r.proof.Some? && Dpop.Accepts(env.dpop.value, env.sha, map[], r.proof.value, caller.token, now))
    && Decide(env, config, r, caller.claims, now).Forwarded?
  }

  /** Every request of the caller is admissible, and no two of its proofs share a jti. */
  ghost predicate Welcome(env: Settings, config: Option<PolicyEngine.Config>, caller: Caller)
    requires env.Valid()
  {
    && (forall n, at :: Admissible(env, config, caller, caller.ask(n, at), at))
    && (env.dpop.Some? ==> forall n, n', at, at' | n < n' :: JtiOf(caller.ask(n, at)) != JtiOf(caller.ask(n', at')))
  }

  function JtiOf(r: Request): Option<string> {
    if r.proof.Some? then Some(r.proof.value.jti) else None
  }

  // ----- There are such callers

  /** The request with a proof of its own, made when it is asked. */
  function WithProof(env: Settings, r: Request, token: string, c: Claims, n: nat, at: nat): Request {
    r.(proof := Some(Dpop.Proof(seq(n + 1, _ => 'j'), at, Dpop.TokenHash(env.sha, token), [], Some(c.jkt))))
  }

  /**
   Without policies, a profile or nonces, any identified active caller whose token is bound
   to its key, and whose provider declares no issuer, is welcome.
   */
  lemma OpenGuardWelcomes(env: Settings, config: Option<PolicyEngine.Config>, r: Request, token: string, c: Claims)
    requires env.Valid() && env.fapi.None? && !env.policies
    requires env.dpop.Some? ==> env.dpop.value.nonces.None? && c.jkt != ""
    requires r.tenant.Some? && r.token == Some(token) && r.provider == Some(Provider("", Some(c))) && c.active
    ensures Welcome(env, config, Caller(token, c, (n: nat, at: nat) => WithProof(env, r, token, c, n, at)))
  {
    var caller := Caller(token, c, (n: nat, at: nat) => WithProof(env, r, token, c, n, at));
    forall n: nat, at: nat ensures Admissible(env, config, caller, caller.ask(n, at), at) {
      var r' := WithProof(env, r, token, c, n, at);
      ForwardedIff(env, config, r', c, at);
      if env.dpop.Some? {
        Dpop.AcceptsIff(env.dpop.value, env.sha, map[], r'.proof.value, token, at);
      }
    }
    forall n: nat, n': nat, at: nat, at': nat | n < n' ensures JtiOf(caller.ask(n, at)) != JtiOf(caller.ask(n', at')) {
      assert |seq(n + 1, _ => 'j')| != |seq(n' + 1, _ => 'j')|;
    }
  }

  // ----- What the caller meets

  lemma AdmissibleIsForwarded(env: Settings, s: State, caller: Caller, r: Request, client: string, now: nat)
    requires env.Valid() && env.limits.Some? && Admissible(env, s.config, caller, r, now)
    requires Lookup(s.store, HashToken(env.sha, caller.token), now) in {None, Some(caller.claims)}
    requires env.dpop.Some? ==> Key(ProofJti, r.proof.value.jti) !in s.store
    ensures Serve(env, s, r.(client := client), now).1.Forwarded? <==>
            RateLimiter.AllowStep(env.limits.value, s.buckets, client, now).1
  {
    var (r', c) := (r.(client := client), caller.claims);
    ForwardedIff(env, s.config, r, c, now);
    ForwardedIff(env, s.config, r', c, now);
    assert Pending(env, r', now) == Pending(env, r, now);
    AdmissibleIsProved(env, s.store, caller, r, now);
    assert Prove(env, s.store, r', now) == Prove(env, s.store, r, now);
  }

  lemma AdmissibleIsProved(env: Settings, m: Store, caller: Caller, r: Request, now: nat)
    requires env.Valid() && r.token == Some(caller.token)
    requires env.dpop.Some? ==> r.proof.Some? && Dpop.Accepts(env.dpop.value, env.sha, map[], r.proof.value, caller.token, now)
    requires env.dpop.Some? ==> Key(ProofJti, r.proof.value.jti) !in m
    ensures
      var k := HashToken(env.sha, caller.token);
      Prove(env, m, r, now).1.None? && Lookup(Prove(env, m, r, now).0, k, now) == Lookup(m, k, now)
  {
    if env.dpop.Some? {
      NoSpaceHoldsTokenKeys(ProofJti, r.proof.value.jti);
    }
  }

  /** A run of the limiter, made by one caller. */
  function Staged(caller: Caller, les: seq<RateLimiter.Event>): (es: seq<Event>)
    requires forall i | 0 <= i < |les| :: les[i].at >= 0
    ensures |es| == |les|
  {
    seq(|les|, i requires 0 <= i < |les| => StagedEvent(caller, les[i], i))
  }

  function StagedEvent(caller: Caller, le: RateLimiter.Event, n: nat): (e: Event)
    requires le.at >= 0
    ensures e.at == le.at
  {
    match le
    case Call(key, at) => Ask(at, caller.ask(n, at).(client := key))
    case Cleanup(at) => CleanLimiter(at)
  }

  lemma {:induction false} StagedView(caller: Caller, les: seq<RateLimiter.Event>, n: nat)
    requires (forall i | 0 <= i < |les| :: les[i].at >= 0) && n <= |les|
    ensures LimiterEvents(Staged(caller, les)[..n]) == les[..n]
  {
    if n > 0 {
      StagedView(caller, les, n - 1);
      var es := Staged(caller, les);
      assert es[..n][..n - 1] == es[..n - 1];
      assert LimiterView(es[n - 1]) == [les[n - 1]];
      assert les[..n] == les[..n - 1] + [les[n - 1]];
    }
  }

  lemma {:induction false} StagedConfig(config: Option<PolicyEngine.Config>, caller: Caller, les: seq<RateLimiter.Event>, n: nat)
    requires (forall i | 0 <= i < |les| :: les[i].at >= 0) && n <= |les|
    ensures InForce(config, Staged(caller, les)[..n]) == config
  {
    if n > 0 {
      StagedConfig(config, caller, les, n - 1);
      assert Staged(caller, les)[..n][..n - 1] == Staged(caller, les)[..n - 1];
    }
  }

  /** The cache holds nothing but the provider's one answer for the token. */
  lemma StagedCache(env: Settings, config: Option<PolicyEngine.Config>, caller: Caller, les: seq<RateLimiter.Event>, n: nat, now: nat)
    requires env.Valid() && Welcome(env, config, caller)
    requires (forall i | 0 <= i < |les| :: les[i].at >= 0) && n < |les|
    ensures Lookup(Run(env, config, Staged(caller, les)[..n]).store, HashToken(env.sha, caller.token), now)
            in {None, Some(caller.claims)}
  {
    var (es, k) := (Staged(caller, les)[..n], HashToken(env.sha, caller.token));
    EntriesAreTraced(env, config, es, k);
    var m := Run(env, config, es).store;
    if k in m {
      var i :| 0 <= i < |es| && FilledBy(env, es[i], k, m[k]);
      assert es[i] == StagedEvent(caller, les[i], i);
      assert Admissible(env, config, caller, caller.ask(i, les[i].at), les[i].at);
    }
  }

  /** No earlier request of the caller recorded the next one's jti. */
  lemma StagedProofs(env: Settings, config: Option<PolicyEngine.Config>, caller: Caller, les: seq<RateLimiter.Event>, n: nat, now: nat)
    requires env.Valid() && env.dpop.Some? && Welcome(env, config, caller)
    requires (forall i | 0 <= i < |les| :: les[i].at >= 0) && n < |les|
    ensures caller.ask(n, now).proof.Some?
    ensures Key(ProofJti, caller.ask(n, now).proof.value.jti) !in Run(env, config, Staged(caller, les)[..n]).store
  {
    assert Admissible(env, config, caller, caller.ask(n, now), now);
    var (es, jti) := (Staged(caller, les)[..n], caller.ask(n, now).proof.value.jti);
    forall i | 0 <= i < |es| ensures !GuardProofRuns.Carries(es[i], jti) {
      assert es[i] == StagedEvent(caller, les[i], i);
      assert JtiOf(caller.ask(i, les[i].at)) != JtiOf(caller.ask(n, now));
    }
    GuardProofRuns.RecordsAreTraced(env, config, es, jti);
  }

  /** In a staged run exactly the calls that the limiter admits are forwarded. */
  lemma StagedForwards(env: Settings, config: Option<PolicyEngine.Config>, caller: Caller, les: seq<RateLimiter.Event>, client: string, n: nat)
    requires env.Valid() && env.limits.Some? && Welcome(env, config, caller)
    requires (forall i | 0 <= i < |les| :: les[i].at >= 0) && n < |les|
    ensures n in Forwards(env, config, Staged(caller, les), client) <==>
            les[n].Call? && les[n].key == client && RateLimiter.Decision(env.limits.value, les[..n], client, les[n].at)
  {
    var es := Staged(caller, les);
    StagedView(caller, les, n);
    LimiterRun(env, config, es[..n]);
    if les[n].Call? {
      StagedOutcome(env, config, caller, les, n);
    }
  }

  lemma StagedOutcome(env: Settings, config: Option<PolicyEngine.Config>, caller: Caller, les: seq<RateLimiter.Event>, n: nat)
    requires env.Valid() && env.limits.Some? && Welcome(env, config, caller)
    requires (forall i | 0 <= i < |les| :: les[i].at >= 0) && n < |les| && les[n].Call?
    ensures
      var (es, at) := (Staged(caller, les), les[n].at);
      ForwardedAt(env, config, es, n) <==>
        RateLimiter.AllowStep(env.limits.value, Run(env, config, es[..n]).buckets, les[n].key, at).1
  {
    var (es, at) := (Staged(caller, les), les[n].at);
    ConfigIsInForce(env, config, es[..n]);
    StagedConfig(config, caller, les, n);
    StagedCache(env, config, caller, les, n, at);
    if env.dpop.Some? {
      StagedProofs(env, config, caller, les, n, at);
    }
    assert Admissible(env, config, caller, caller.ask(n, at), at);
    AdmissibleIsForwarded(env, Run(env, config, es[..n]), caller, caller.ask(n, at), les[n].key, at);
  }

  lemma AdmittedPrefix(l: RateLimiter.Limits, les: seq<RateLimiter.Event>, client: string, n: nat)
    requires l.Valid() && n < |les|
    ensures |RateLimiter.Admitted(l, les[..n + 1], client)|
         == |RateLimiter.Admitted(l, les[..n], client)|
            + if les[n].Call? && les[n].key == client && RateLimiter.Decision(l, les[..n], client, les[n].at) then 1 else 0
  {
    assert les[..n + 1] == les[..n] + [les[n]];
    RateLimiter.AdmittedSnoc(l, les[..n], les[n], client);
  }

  lemma {:induction false} StagedCount(env: Settings, config: Option<PolicyEngine.Config>, caller: Caller, les: seq<RateLimiter.Event>, client: string, n: nat)
    requires env.Valid() && env.limits.Some? && Welcome(env, config, caller)
    requires (forall i | 0 <= i < |les| :: les[i].at >= 0) && n <= |les|
    ensures Count(Forwards(env, config, Staged(caller, les), client), 0, n)
         == |RateLimiter.Admitted(env.limits.value, les[..n], client)|
  {
    if n > 0 {
      StagedCount(env, config, caller, les, client, n - 1);
      StagedForwards(env, config, caller, les, client, n - 1);
      AdmittedPrefix(env.limits.value, les, client, n - 1);
    }
  }

  lemma StagedOrdered(caller: Caller, les: seq<RateLimiter.Event>)
    requires (forall i | 0 <= i < |les| :: les[i].at >= 0) && RateLimiter.Ordered(les)
    ensures Ordered(Staged(caller, les))
    ensures forall i | 0 <= i < |les| :: Staged(caller, les)[i].at == les[i].at
  {
  }

  lemma OverdrawnPair(env: Settings, config: Option<PolicyEngine.Config>, caller: Caller, les: seq<RateLimiter.Event>)
    requires env.Valid() && env.limits.Some? && Welcome(env, config, caller) && !RateLimiter.IdleFills(env.limits.value)
    requires les == RateLimiter.Overdraw(env.limits.value)
    ensures ForwardPair(env, config, Staged(caller, les), "k", 0, |les| - 1)
  {
    var l := env.limits.value;
    OverdrawEnds(l);
    RateLimiter.OverdrawExceeds(l);
    StagedOrdered(caller, les);
    StagedForwards(env, config, caller, les, "k", 0);
    StagedForwards(env, config, caller, les, "k", |les| - 1);
  }

  lemma OverdrawnCount(env: Settings, config: Option<PolicyEngine.Config>, caller: Caller, les: seq<RateLimiter.Event>)
    requires env.Valid() && env.limits.Some? && Welcome(env, config, caller) && !RateLimiter.IdleFills(env.limits.value)
    requires les == RateLimiter.Overdraw(env.limits.value)
    ensures
      var l := env.limits.value;
      Count(Forwards(env, config, Staged(caller, les), "k"), 0, |les|) == l.burst + RateLimiter.Paid(l) + 1
  {
    StagedCount(env, config, caller, les, "k", |les|);
    assert les[..|les|] == les;
    RateLimiter.OverdrawAdmitted(env.limits.value);
  }

  /** Drained, evicted and drained again, a guard exceeds the rate. */
  lemma OverdrawnGuard(env: Settings, config: Option<PolicyEngine.Config>, caller: Caller, les: seq<RateLimiter.Event>)
    requires env.Valid() && env.limits.Some? && Welcome(env, config, caller) && !RateLimiter.IdleFills(env.limits.value)
    requires les == RateLimiter.Overdraw(env.limits.value)
    ensures ForwardPair(env, config, Staged(caller, les), "k", 0, |les| - 1)
    ensures !RateKept(env, config, Staged(caller, les), "k", 0, |les| - 1)
  {
    OverdrawnPair(env, config, caller, les);
    OverdrawnCount(env, config, caller, les);
    OverdrawnSpan(env.limits.value, caller, les);
    RateBroken(env, config, Staged(caller, les), |les|);
  }

  lemma OverdrawnSpan(l: RateLimiter.Limits, caller: Caller, les: seq<RateLimiter.Event>)
    requires l.Valid() && !RateLimiter.IdleFills(l) && les == RateLimiter.Overdraw(l)
    ensures les[|les| - 1].at - les[0].at == RateLimiter.IDLE + 1 && RateLimiter.Ordered(les) && les[0].at == 0
    ensures forall i | 0 <= i < |les| :: les[i].at >= 0
    ensures Staged(caller, les)[|les| - 1].at - Staged(caller, les)[0].at == RateLimiter.IDLE + 1
  {
    OverdrawEnds(l);
    RateLimiter.OverdrawExceeds(l);
    StagedOrdered(caller, les);
  }

  /** One forwarded request more than the idle time pays for breaks the rate. */
  lemma RateBroken(env: Settings, config: Option<PolicyEngine.Config>, es: seq<Event>, n: nat)
    requires env.Valid() && env.limits.Some? && 0 < n <= |es| && es[n - 1].at - es[0].at == RateLimiter.IDLE + 1
    requires
      var l := env.limits.value;
      Count(Forwards(env, config, es, "k"), 0, n) == l.burst + RateLimiter.Paid(l) + 1
    ensures !RateKept(env, config, es, "k", 0, n - 1)
  {
    RateLimiter.TooManyForRate(env.limits.value);
  }

  lemma OverdrawEnds(l: RateLimiter.Limits)
    requires l.Valid() && !RateLimiter.IdleFills(l)
    ensures
      var les := RateLimiter.Overdraw(l);
      && les[0] == RateLimiter.Call("k", 0) && les[|les| - 1] == RateLimiter.Call("k", RateLimiter.IDLE + 1)
      && RateLimiter.Decision(l, les[..0], "k", 0)
      && RateLimiter.Decision(l, les[..|les| - 1], "k", RateLimiter.IDLE + 1)
  {
    var les := RateLimiter.Overdraw(l);
    var start := RateLimiter.Drain(l) + [RateLimiter.Cleanup(RateLimiter.IDLE + 1)];
    RateLimiter.DrainedAndEvicted(l);
    RateLimiter.PaidBelowBurst(l);
    RateLimiter.FreshVolleyNext(l, start, "k", RateLimiter.IDLE + 1, RateLimiter.Paid(l));
    assert les[..|les| - 1] == start + RateLimiter.Volley("k", RateLimiter.IDLE + 1, RateLimiter.Paid(l));
    assert les[..0] == [];
  }

  /**
   For a guard that has a welcome caller, the rate bound holds in all ordered runs if and
   only if the idle time before eviction refills the burst.
   */
  lemma ForwardRateBoundIff(env: Settings, config: Option<PolicyEngine.Config>, caller: Caller)
    requires env.Valid() && env.limits.Some? && Welcome(env, config, caller)
    ensures RateLimiter.IdleFills(env.limits.value) <==>
            forall es, client, i, j | ForwardPair(env, config, es, client, i, j) :: RateKept(env, config, es, client, i, j)
  {
    if RateLimiter.IdleFills(env.limits.value) {
      forall es, client, i, j | ForwardPair(env, config, es, client, i, j) ensures RateKept(env, config, es, client, i, j) {
        ForwardRateBound(env, config, es, client, i, j);
      }
    } else {
      OverdrawnGuard(env, config, caller, RateLimiter.Overdraw(env.limits.value));
    }
  }
}
