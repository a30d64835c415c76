/**
 The guard's cache over whole runs: it is the result of the cache steps that the
 events make, so what holds of the revocation index in every cache run holds of it.
 */
module GuardCacheRuns {
  import opened Options
  import opened Clock
  import opened TokenCache
  import opened Guard
  import opened GuardRuns
  import PolicyEngine
  import Revocation

  /** The steps that one event makes on the shared cache. */
  function CacheStepsOf(env: Settings, s: State, e: Event): seq<Revocation.Step>
    requires env.Valid()
  {
    match e
    case Ask(at, req) =>
      if Limit(env, s, req, at).1 && Unidentified(req).None? then
        MarkSteps(env, s.store, req, at)
        + (if Prove(env, s.store, req, at).1.None? then FillSteps(env, ProvedStore(env, s.store, req, at), req, at) else [])
      else []
    case Webhook(at, ev) => if env.caching then [Revocation.Revoked(at, ev)] else []
    case CleanCache(at) => [Revocation.Cleaned(at)]
    case _ => []
  }

  /** An accepted proof is marked. */
  function MarkSteps(env: Settings, m: Store, r: Request, now: nat): seq<Revocation.Step>
    requires env.Valid() && Unidentified(r).None?
  {
    if env.dpop.Some? && Prove(env, m, r, now).1.None?
    then [Revocation.Marked(now, r.proof.value.jti, env.dpop.value.maxAge)]
    else []
  }

  /** An active answer to a cache miss is cached. */
  function FillSteps(env: Settings, m: Store, r: Request, now: nat): seq<Revocation.Step>
    requires Unidentified(r).None?
  {
    var (hash, answer) := (HashToken(env.sha, r.token.value), r.provider.value.answer);
    if env.caching && Lookup(m, hash, now).None? && answer.Some? && answer.value.active
       && Lifetime(answer.value, CACHE_TTL, now) > 0
    then [Revocation.Cached(now, hash, answer.value, Lifetime(answer.value, CACHE_TTL, now))]
    else []
  }

  function CacheSteps(env: Settings, config: Option<PolicyEngine.Config>, es: seq<Event>): seq<Revocation.Step>
    requires env.Valid()
  {
    if es == [] then []
    else
      var init := es[..|es| - 1];
      CacheSteps(env, config, init) + CacheStepsOf(env, Run(env, config, init), es[|es| - 1])
  }

  lemma AppendSteps(steps: seq<Revocation.Step>, more: seq<Revocation.Step>)
    requires |more| <= 1
    ensures Revocation.Run(steps + more)
         == if more == [] then Revocation.Run(steps) else Revocation.Next(Revocation.Run(steps), more[0])
  {
    if more == [] {
      assert steps + more == steps;
    } else {
      assert more == [more[0]];
      Revocation.RunSnoc(steps, more[0]);
    }
  }

  lemma MarkStepsRun(env: Settings, m: Store, r: Request, now: nat, steps: seq<Revocation.Step>)
    requires env.Valid() && Unidentified(r).None? && m == Revocation.Run(steps)
    ensures Revocation.Run(steps + MarkSteps(env, m, r, now)) == ProvedStore(env, m, r, now)
  {
    AppendSteps(steps, MarkSteps(env, m, r, now));
    MarkStepsStore(env, m, r, now);
  }

  /** Proof validation changes the store by the marking step, if there is one. */
  lemma MarkStepsStore(env: Settings, m: Store, r: Request, now: nat)
    requires env.Valid() && Unidentified(r).None?
    ensures ProvedStore(env, m, r, now)
         == if MarkSteps(env, m, r, now) == [] then m else Revocation.Next(m, MarkSteps(env, m, r, now)[0])
  {
  }

  lemma FillStepsRun(env: Settings, m: Store, r: Request, now: nat, steps: seq<Revocation.Step>)
    requires Unidentified(r).None? && m == Revocation.Run(steps)
    ensures Revocation.Run(steps + FillSteps(env, m, r, now)) == IntrospectedStore(env, m, r, now)
  {
    AppendSteps(steps, FillSteps(env, m, r, now));
  }

  lemma AskStepsRun(env: Settings, s: State, r: Request, now: nat, steps: seq<Revocation.Step>)
    requires env.Valid() && s.store == Revocation.Run(steps)
    ensures Revocation.Run(steps + CacheStepsOf(env, s, Ask(now, r))) == Serve(env, s, r, now).0.store
  {
    ServeStore(env, s, r, now);
    if Limit(env, s, r, now).1 && Unidentified(r).None? {
      var (marks, m1) := (MarkSteps(env, s.store, r, now), ProvedStore(env, s.store, r, now));
      MarkStepsRun(env, s.store, r, now, steps);
      if Prove(env, s.store, r, now).1.None? {
        FillStepsRun(env, m1, r, now, steps + marks);
        assert steps + (marks + FillSteps(env, m1, r, now)) == steps + marks + FillSteps(env, m1, r, now);
      } else {
        assert steps + (marks + []) == steps + marks;
      }
    } else {
      assert steps + [] == steps;
    }
  }

  lemma NextStepsRun(env: Settings, s: State, e: Event, steps: seq<Revocation.Step>)
    requires env.Valid() && s.store == Revocation.Run(steps)
    ensures Revocation.Run(steps + CacheStepsOf(env, s, e)) == Next(env, s, e).store
  {
    match e
    case Ask(at, req) => AskStepsRun(env, s, req, at, steps);
    case _ => OtherStepsRun(env, s, e, steps);
  }

  lemma OtherStepsRun(env: Settings, s: State, e: Event, steps: seq<Revocation.Step>)
    requires env.Valid() && !e.Ask? && s.store == Revocation.Run(steps)
    ensures Revocation.Run(steps + CacheStepsOf(env, s, e)) == Next(env, s, e).store
  {
    assert steps + [] == steps;
    match e
    case Webhook(at, ev) => Revocation.RunSnoc(steps, Revocation.Revoked(at, ev));
    case CleanCache(at) => Revocation.RunSnoc(steps, Revocation.Cleaned(at));
    case _ =>
  }

  /** After every run, the guard's cache is the result of the cache steps of its events. */
  lemma {:induction false} StoreIsCacheRun(env: Settings, config: Option<PolicyEngine.Config>, es: seq<Event>)
    requires env.Valid()
    ensures Run(env, config, es).store == Revocation.Run(CacheSteps(env, config, es))
    ensures Revocation.WellFormed(CacheSteps(env, config, es))
  {
    if es != [] {
      var (init, e) := (es[..|es| - 1], es[|es| - 1]);
      StoreIsCacheRun(env, config, init);
      var (s, steps) := (Run(env, config, init), CacheSteps(env, config, init));
      NextStepsRun(env, s, e, steps);
      StepsAreSound(env, s, e);
    }
  }

  lemma {:induction false} CacheStepsOrdered(env: Settings, config: Option<PolicyEngine.Config>, es: seq<Event>, now: int)
    requires env.Valid() && Ordered(es) && forall i | 0 <= i < |es| :: es[i].at <= now
    ensures Revocation.Ordered(CacheSteps(env, config, es), now)
  {
    if es != [] {
      var (init, e) := (es[..|es| - 1], es[|es| - 1]);
      CacheStepsOrdered(env, config, init, e.at);
      StepsAreSound(env, Run(env, config, init), e);
      MoreIsOrdered(CacheSteps(env, config, init), CacheStepsOf(env, Run(env, config, init), e), e.at, now);
    }
  }

  lemma MoreIsOrdered(steps: seq<Revocation.Step>, more: seq<Revocation.Step>, at: int, now: int)
    requires Revocation.Ordered(steps, at) && at <= now && forall i | 0 <= i < |more| :: more[i].at == at
    ensures Revocation.Ordered(steps + more, now)
  {
  }

  lemma StepsAreSound(env: Settings, s: State, e: Event)
    requires env.Valid()
    ensures Revocation.WellFormed(CacheStepsOf(env, s, e))
    ensures forall i | 0 <= i < |CacheStepsOf(env, s, e)| :: CacheStepsOf(env, s, e)[i].at == e.at
  {
  }

  /**
   Group revocation inside the guard.  In every run, the lists of subjects and sessions
   are sound; and if the run meets the duty on lifetimes for an owner, revoking that
   owner leaves none of its tokens in the cache.
   */
  lemma GuardRevokesGroups(env: Settings, config: Option<PolicyEngine.Config>, es: seq<Event>, s: Space, x: string, now: int)
    requires env.Valid() && Revocation.Group(s) && x != ""
    requires Ordered(es) && forall i | 0 <= i < |es| :: es[i].at <= now
    ensures
      var (m, steps) := (Run(env, config, es).store, CacheSteps(env, config, es));
      && Revocation.IndexSound(steps, m, s, x)
      && (Revocation.Dutiful(steps, s, x) ==> Revocation.RevocationComplete(m, s, x, now))
  {
    var steps := CacheSteps(env, config, es);
    StoreIsCacheRun(env, config, es);
    CacheStepsOrdered(env, config, es, now);
    Revocation.IndexStaysSound(steps, s, x);
    if Revocation.Dutiful(steps, s, x) {
      Revocation.DutifulRunsRevokeAll(steps, s, x, now);
    }
  }

  /**
   A webhook with the jti of a cached token reaches that token, unless another token with
   the jti was cached or the entry deleted before; no request is forwarded for it any more
   once the providers answer inactive.
   */
  lemma JtiWebhookEndsForwarding(env: Settings, config: Option<PolicyEngine.Config>, es: seq<Event>, w: nat, n: nat, i: nat, k: string)
    requires env.Valid() && env.caching && Ordered(es) && w < i < |es| && es[w].Webhook? && es[w].event.tokenHash == ""
    requires
      var steps := CacheSteps(env, config, es[..w]);
      Revocation.Linked(steps, n, es[w].event.jti, es[w].at) && steps[n].hash == k
    requires AsksWith(env, es[i], k) && forall j, c | w <= j < |es| :: !AnsweredWith(env, es[j], k, c)
    ensures RevokedAt(env, config, es, w, k) && !ForwardedAt(env, config, es, i)
  {
    var (steps, ev, now) := (CacheSteps(env, config, es[..w]), es[w].event, es[w].at);
    StoreIsCacheRun(env, config, es[..w]);
    CacheStepsOrdered(env, config, es[..w], now);
    Revocation.JtiEventReachesInRuns(steps, n, ev.jti, ev, now);
    RevokedIsNeverForwarded(env, config, es, w, i, k);
  }

  // ----- The duty in runs of the guard

  /** No provider in the run answers for the owner `x` with a token that carries an expiry. */
  ghost predicate WithoutExpiry(es: seq<Event>, s: Space, x: string)
    requires Revocation.Group(s)
  {
    forall i, c | 0 <= i < |es| && es[i].Ask? && es[i].req.provider.Some? && es[i].req.provider.value.answer == Some(c)
                  && Revocation.Owner(s, c) == x :: c.expiresAt.None?
  }

  lemma {:induction false} StepsAreUniform(env: Settings, config: Option<PolicyEngine.Config>, es: seq<Event>, s: Space, x: string)
    requires env.Valid() && Revocation.Group(s) && WithoutExpiry(es, s, x)
    ensures Revocation.Uniform(CacheSteps(env, config, es), s, x, CACHE_TTL)
  {
    if es != [] {
      var (init, e) := (es[..|es| - 1], es[|es| - 1]);
      assert WithoutExpiry(init, s, x) by {
        assert forall i | 0 <= i < |init| :: init[i] == es[i];
      }
      StepsAreUniform(env, config, init, s, x);
      EventIsUniform(env, Run(env, config, init), e, s, x);
    }
  }

  lemma EventIsUniform(env: Settings, st: State, e: Event, s: Space, x: string)
    requires env.Valid() && Revocation.Group(s)
    requires forall c | e.Ask? && e.req.provider.Some? && e.req.provider.value.answer == Some(c)
                        && Revocation.Owner(s, c) == x :: c.expiresAt.None?
    ensures Revocation.Uniform(CacheStepsOf(env, st, e), s, x, CACHE_TTL)
  {
  }

  /** After the first `n` events, revoking `x` at any later moment leaves no token of `x` cached. */
  ghost predicate CompleteAfter(env: Settings, config: Option<PolicyEngine.Config>, es: seq<Event>, n: nat, s: Space, x: string)
    requires env.Valid() && Revocation.Group(s) && 0 < n <= |es|
  {
    forall t | t >= es[n - 1].at :: Revocation.RevocationComplete(Run(env, config, es[..n]).store, s, x, t)
  }

  ghost predicate AlwaysComplete(env: Settings, config: Option<PolicyEngine.Config>, es: seq<Event>, s: Space, x: string)
    requires env.Valid() && Revocation.Group(s)
  {
    forall n | 0 < n <= |es| :: CompleteAfter(env, config, es, n, s, x)
  }

  /** After the first `n` events the list covers the live tokens. */
  ghost predicate CoveredAfter(env: Settings, config: Option<PolicyEngine.Config>, es: seq<Event>, n: nat, s: Space, x: string)
    requires env.Valid() && Revocation.Group(s) && 0 < n <= |es|
  {
    Revocation.Covered(Run(env, config, es[..n]).store, s, x, es[n - 1].at)
  }

  ghost predicate AlwaysCovered(env: Settings, config: Option<PolicyEngine.Config>, es: seq<Event>, s: Space, x: string)
    requires env.Valid() && Revocation.Group(s)
  {
    forall n | 0 < n <= |es| :: CoveredAfter(env, config, es, n, s, x)
  }

  lemma CoveredAfterIff(env: Settings, config: Option<PolicyEngine.Config>, es: seq<Event>, n: nat, s: Space, x: string)
    requires env.Valid() && Revocation.Group(s) && 0 < n <= |es|
    ensures CoveredAfter(env, config, es, n, s, x) <==> CompleteAfter(env, config, es, n, s, x)
  {
    Revocation.CoveredIff(Run(env, config, es[..n]).store, s, x, es[n - 1].at);
  }

  /** The steps of one event, of which only the last one can cache or delete anything but a proof's record. */
  ghost predicate OneEvent(more: seq<Revocation.Step>, at: int) {
    && |more| <= 2 && Revocation.WellFormed(more) && (|more| == 2 ==> more[0].Marked?)
    && forall i | 0 <= i < |more| :: more[i].at == at
  }

  lemma StepsAreOneEvent(env: Settings, s: State, e: Event)
    requires env.Valid()
    ensures OneEvent(CacheStepsOf(env, s, e), e.at)
  {
    StepsAreSound(env, s, e);
  }

  /** One event keeps a run dutiful if and only if the list covers the live tokens after it. */
  lemma EventCoversIff(steps: seq<Revocation.Step>, more: seq<Revocation.Step>, s: Space, x: string, at: int)
    requires Revocation.Group(s) && x != "" && Revocation.WellFormed(steps) && Revocation.Ordered(steps, at) && OneEvent(more, at)
    ensures Revocation.Dutiful(steps + more, s, x) <==>
            Revocation.Dutiful(steps, s, x) && Revocation.Covered(Revocation.Run(steps + more), s, x, at)
  {
    if more == [] {
      assert steps + more == steps;
      Revocation.CoverIff(steps, s, x, at);
    } else if |more| == 1 {
      assert more == [more[0]];
      StepCoversRun(steps, more[0], s, x);
    } else {
      var marked := steps + [more[0]];
      assert steps + more == marked + [more[1]];
      Revocation.DutifulNext(steps, more[0], s, x);
      StepCoversRun(marked, more[1], s, x);
    }
  }

  lemma StepCoversRun(steps: seq<Revocation.Step>, e: Revocation.Step, s: Space, x: string)
    requires Revocation.Group(s) && x != "" && Revocation.WellFormed(steps) && Revocation.WellFormed([e]) && Revocation.Ordered(steps, e.at)
    ensures Revocation.Dutiful(steps + [e], s, x) <==>
            Revocation.Dutiful(steps, s, x) && Revocation.Covered(Revocation.Run(steps + [e]), s, x, e.at)
  {
    Revocation.RunSnoc(steps, e);
    Revocation.DutifulNextIff(steps, e, s, x);
  }

  /** The last event of a run keeps it dutiful if and only if the list covers the live tokens after it. */
  lemma LastEventCoversIff(env: Settings, config: Option<PolicyEngine.Config>, es: seq<Event>, s: Space, x: string)
    requires env.Valid() && Revocation.Group(s) && x != "" && Ordered(es) && es != []
    ensures Revocation.Dutiful(CacheSteps(env, config, es), s, x) <==>
            && Revocation.Dutiful(CacheSteps(env, config, es[..|es| - 1]), s, x)
            && Revocation.Covered(Run(env, config, es).store, s, x, es[|es| - 1].at)
  {
    var (init, e) := (es[..|es| - 1], es[|es| - 1]);
    StoreIsCacheRun(env, config, init);
    StoreIsCacheRun(env, config, es);
    CacheStepsOrdered(env, config, init, e.at);
    StepsAreOneEvent(env, Run(env, config, init), e);
    EventCoversIff(CacheSteps(env, config, init), CacheStepsOf(env, Run(env, config, init), e), s, x, e.at);
  }

  lemma {:induction false} AlwaysCoveredIff(env: Settings, config: Option<PolicyEngine.Config>, es: seq<Event>, s: Space, x: string)
    requires env.Valid() && Revocation.Group(s) && x != "" && Ordered(es)
    ensures AlwaysCovered(env, config, es, s, x) <==> Revocation.Dutiful(CacheSteps(env, config, es), s, x)
  {
    if es != [] {
      AlwaysCoveredIff(env, config, es[..|es| - 1], s, x);
      AlwaysCoveredNext(env, config, es, s, x);
      CoveredLast(env, config, es, s, x);
      LastEventCoversIff(env, config, es, s, x);
    }
  }

  lemma CoveredLast(env: Settings, config: Option<PolicyEngine.Config>, es: seq<Event>, s: Space, x: string)
    requires env.Valid() && Revocation.Group(s) && es != []
    ensures CoveredAfter(env, config, es, |es|, s, x) <==> Revocation.Covered(Run(env, config, es).store, s, x, es[|es| - 1].at)
  {
    assert es[..|es|] == es;
  }

  lemma AlwaysCoveredNext(env: Settings, config: Option<PolicyEngine.Config>, es: seq<Event>, s: Space, x: string)
    requires env.Valid() && Revocation.Group(s) && es != []
    ensures AlwaysCovered(env, config, es, s, x) <==>
            AlwaysCovered(env, config, es[..|es| - 1], s, x) && CoveredAfter(env, config, es, |es|, s, x)
  {
    var init := es[..|es| - 1];
    if AlwaysCovered(env, config, es, s, x) {
      assert CoveredAfter(env, config, es, |es|, s, x);
      forall n | 0 < n <= |init| ensures CoveredAfter(env, config, init, n, s, x) {
        CoveredEarlier(env, config, es, n, s, x);
      }
    }
    if AlwaysCovered(env, config, init, s, x) && CoveredAfter(env, config, es, |es|, s, x) {
      forall n | 0 < n <= |es| ensures CoveredAfter(env, config, es, n, s, x) {
        if n < |es| {
          CoveredEarlier(env, config, es, n, s, x);
        }
      }
    }
  }

  lemma CoveredEarlier(env: Settings, config: Option<PolicyEngine.Config>, es: seq<Event>, n: nat, s: Space, x: string)
    requires env.Valid() && Revocation.Group(s) && 0 < n < |es|
    ensures CoveredAfter(env, config, es[..|es| - 1], n, s, x) <==> CoveredAfter(env, config, es, n, s, x)
  {
    assert es[..|es| - 1][..n] == es[..n];
  }

  /**
   In every run of the guard, revoking an owner is complete at every moment after every
   event if and only if every cache step keeps to its duty.
   */
  lemma GuardCompleteIff(env: Settings, config: Option<PolicyEngine.Config>, es: seq<Event>, s: Space, x: string)
    requires env.Valid() && Revocation.Group(s) && x != "" && Ordered(es)
    ensures AlwaysComplete(env, config, es, s, x) <==> Revocation.Dutiful(CacheSteps(env, config, es), s, x)
  {
    AlwaysCoveredIff(env, config, es, s, x);
    forall n | 0 < n <= |es| ensures CoveredAfter(env, config, es, n, s, x) <==> CompleteAfter(env, config, es, n, s, x) {
      CoveredAfterIff(env, config, es, n, s, x);
    }
  }

  /**
   When every token of an owner lives for the full 30 s, revoking the owner is complete
   after every event if and only if no token of it is cached again while the live list
   still names it, and no webhook deletes that list by its raw key while a token is live.
   */
  lemma GuardDutyIff(env: Settings, config: Option<PolicyEngine.Config>, es: seq<Event>, s: Space, x: string)
    requires env.Valid() && Revocation.Group(s) && x != "" && WithoutExpiry(es, s, x) && Ordered(es)
    ensures
      var steps := CacheSteps(env, config, es);
      AlwaysComplete(env, config, es, s, x) <==>
        Revocation.NeverRecached(steps, s, x) && Revocation.NeverUnlisted(steps, s, x)
  {
    var steps := CacheSteps(env, config, es);
    var now := if es == [] then 0 else es[|es| - 1].at;
    StoreIsCacheRun(env, config, es);
    CacheStepsOrdered(env, config, es, now);
    StepsAreUniform(env, config, es, s, x);
    GuardCompleteIff(env, config, es, s, x);
    Revocation.CompleteIff(steps, s, x, now);
    Revocation.UniformDutyIff(steps, s, x, CACHE_TTL, now);
  }

  // ----- A run of the guard that does not meet it

  /** A request with a token of alice, whose provider confirms it. */
  predicate AliceAsks(r: Request, token: string) {
    Unidentified(r).None? && r.token == Some(token) && r.provider.value.answer == Some(Revocation.ALICE)
  }

  lemma AliceFills(env: Settings, s: State, r: Request, token: string, at: nat)
    requires env.Valid() && env.caching && env.dpop.None? && env.limits.None? && AliceAsks(r, token)
    requires Lookup(s.store, HashToken(env.sha, token), at).None?
    ensures CacheStepsOf(env, s, Ask(at, r))
         == [Revocation.Cached(at, HashToken(env.sha, token), Revocation.ALICE, CACHE_TTL)]
  {
  }

  /** One more request with a token of alice that the cache does not hold. */
  lemma OneMoreFill(env: Settings, config: Option<PolicyEngine.Config>, es: seq<Event>, r: Request, token: string, at: nat, steps: seq<Revocation.Step>)
    requires env.Valid() && env.caching && env.dpop.None? && env.limits.None? && AliceAsks(r, token)
    requires CacheSteps(env, config, es) == steps && Lookup(Revocation.Run(steps), HashToken(env.sha, token), at).None?
    ensures CacheSteps(env, config, es + [Ask(at, r)])
         == steps + [Revocation.Cached(at, HashToken(env.sha, token), Revocation.ALICE, CACHE_TTL)]
  {
    StoreIsCacheRun(env, config, es);
    AliceFills(env, Run(env, config, es), r, token, at);
    assert (es + [Ask(at, r)])[..|es|] == es;
  }

  /** The first `k` events make the first `k` steps. */
  ghost predicate Makes(env: Settings, config: Option<PolicyEngine.Config>, es: seq<Event>, steps: seq<Revocation.Step>, k: nat)
    requires env.Valid() && k <= |es| && k <= |steps|
  {
    CacheSteps(env, config, es[..k]) == steps[..k]
  }

  lemma PrefixGrows<T>(s: seq<T>, k: nat)
    requires k < |s|
    ensures s[..k] + [s[k]] == s[..k + 1]
  {
  }

  /** Request `k` presents a token of alice that the first `k` steps do not leave in the cache, and step `k` caches it. */
  predicate FillsAt(env: Settings, es: seq<Event>, steps: seq<Revocation.Step>, k: nat, token: string)
    requires env.Valid() && k < |es| && k < |steps|
  {
    && es[k].Ask? && AliceAsks(es[k].req, token)
    && steps[k] == Revocation.Cached(es[k].at, HashToken(env.sha, token), Revocation.ALICE, CACHE_TTL)
    && Lookup(Revocation.Run(steps[..k]), HashToken(env.sha, token), es[k].at).None?
  }

  lemma MakesNext(env: Settings, config: Option<PolicyEngine.Config>, es: seq<Event>, steps: seq<Revocation.Step>, k: nat, token: string)
    requires env.Valid() && env.caching && env.dpop.None? && env.limits.None?
    requires k < |es| && k < |steps| && FillsAt(env, es, steps, k, token)
    requires Makes(env, config, es, steps, k)
    ensures Makes(env, config, es, steps, k + 1)
  {
    PrefixGrows(es, k);
    PrefixGrows(steps, k);
    OneMoreFill(env, config, es[..k], es[k].req, token, es[k].at, steps[..k]);
  }

  /** Requests that each present such a token make exactly these steps. */
  lemma {:induction false} MakesAll(env: Settings, config: Option<PolicyEngine.Config>, es: seq<Event>, steps: seq<Revocation.Step>, tokens: seq<string>, k: nat)
    requires env.Valid() && env.caching && env.dpop.None? && env.limits.None?
    requires |es| == |steps| == |tokens| && k <= |es| && Makes(env, config, es, steps, k)
    requires forall i | 0 <= i < |es| :: FillsAt(env, es, steps, i, tokens[i])
    ensures CacheSteps(env, config, es) == steps
    decreases |es| - k
  {
    if k == |es| {
      MakesEnds(env, config, es, steps);
    } else {
      MakesNext(env, config, es, steps, k, tokens[k]);
      MakesAll(env, config, es, steps, tokens, k + 1);
    }
  }

  lemma MakesEnds(env: Settings, config: Option<PolicyEngine.Config>, es: seq<Event>, steps: seq<Revocation.Step>)
    requires env.Valid() && |es| == |steps|
    ensures Makes(env, config, es, steps, 0)
    ensures Makes(env, config, es, steps, |es|) ==> CacheSteps(env, config, es) == steps
  {
    assert es[..|es|] == es && steps[..|es|] == steps;
  }

  /** Two tokens of alice are presented at 0 s and 10 s, and the first one again at 35 s. */
  predicate Recaching(env: Settings, es: seq<Event>, ta: string, tb: string)
    requires env.Valid()
  {
    && |es| == 3 && env.sha(ta) != env.sha(tb)
    && es[0].at == 0 && es[1].at == 10 * SECOND && es[2].at == 35 * SECOND
    && forall i | 0 <= i < 3 :: es[i].Ask? && AliceAsks(es[i].req, [ta, tb, ta][i])
  }

  lemma RecachingFills(env: Settings, es: seq<Event>, ta: string, tb: string, i: nat)
    requires env.Valid() && Recaching(env, es, ta, tb) && i < 3
    ensures HashToken(env.sha, ta) != HashToken(env.sha, tb)
    ensures FillsAt(env, es, Revocation.RecachedRun(HashToken(env.sha, ta), HashToken(env.sha, tb)), i, [ta, tb, ta][i])
  {
    var (a, b) := (HashToken(env.sha, ta), HashToken(env.sha, tb));
    if a == b {
      SameKeySameDigest(env.sha, ta, tb);
    }
    Revocation.AfterOne(a, b);
    Revocation.AfterTwo(a, b);
  }

  /**
   In a guard that caches, such requests make the cache run after which the first token
   of alice survives her revocation at 50 s.
   */
  lemma GuardRecachedTokenSurvives(env: Settings, config: Option<PolicyEngine.Config>, es: seq<Event>, ta: string, tb: string)
    requires env.Valid() && env.caching && env.dpop.None? && env.limits.None? && Recaching(env, es, ta, tb)
    ensures CacheSteps(env, config, es) == Revocation.RecachedRun(HashToken(env.sha, ta), HashToken(env.sha, tb))
    ensures !Revocation.RevocationComplete(Run(env, config, es).store, SubjectIndex, "alice", 50 * SECOND)
  {
    var steps := Revocation.RecachedRun(HashToken(env.sha, ta), HashToken(env.sha, tb));
    forall i: nat | i < 3 ensures FillsAt(env, es, steps, i, [ta, tb, ta][i]) {
      RecachingFills(env, es, ta, tb, i);
    }
    RecachingFills(env, es, ta, tb, 0);
    MakesEnds(env, config, es, steps);
    MakesAll(env, config, es, steps, [ta, tb, ta], 0);
    StoreIsCacheRun(env, config, es);
    Revocation.RecachedTokenSurvives(HashToken(env.sha, ta), HashToken(env.sha, tb));
  }
}
