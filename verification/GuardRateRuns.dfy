/** The rate limiter inside whole runs of the guard. */
module GuardRateRuns {
  import opened Options
  import opened Guard
  import opened GuardRuns
  import PolicyEngine
  import RateLimiter

  /** What the limiter sees of an event and of a run. */
  function LimiterView(e: Event): seq<RateLimiter.Event> {
    match e
    case Ask(at, req) => [RateLimiter.Call(req.client, at)]
    case CleanLimiter(at) => [RateLimiter.Cleanup(at)]
    case _ => []
  }

  function LimiterEvents(es: seq<Event>): seq<RateLimiter.Event> {
    if es == [] then [] else LimiterEvents(es[..|es| - 1]) + LimiterView(es[|es| - 1])
  }

  lemma ServeBuckets(env: Settings, s: State, r: Request, now: nat)
    requires env.Valid() && env.limits.Some?
    ensures Serve(env, s, r, now).0.buckets == RateLimiter.AllowStep(env.limits.value, s.buckets, r.client, now).0
    ensures Serve(env, s, r, now).1.Forwarded? ==> RateLimiter.AllowStep(env.limits.value, s.buckets, r.client, now).1
  {
  }

  lemma NextBuckets(env: Settings, s: State, e: Event)
    requires env.Valid() && env.limits.Some?
    ensures Next(env, s, e).buckets
         == if LimiterView(e) == [] then s.buckets else RateLimiter.Step(env.limits.value, s.buckets, LimiterView(e)[0])
  {
    if e.Ask? {
      ServeBuckets(env, s, e.req, e.at);
    }
  }

  lemma {:induction false} LimiterRun(env: Settings, config: Option<PolicyEngine.Config>, es: seq<Event>)
    requires env.Valid() && env.limits.Some?
    ensures Run(env, config, es).buckets == RateLimiter.Run(env.limits.value, LimiterEvents(es))
  {
    if es != [] {
      var (init, e) := (es[..|es| - 1], es[|es| - 1]);
      LimiterRun(env, config, init);
      NextBuckets(env, Run(env, config, init), e);
      var les := LimiterEvents(init);
      if LimiterView(e) == [] {
        assert LimiterEvents(es) == les;
      } else {
        RateLimiter.RunSnoc(env.limits.value, les, LimiterView(e)[0]);
        assert LimiterEvents(es) == les + [LimiterView(e)[0]];
      }
    }
  }

  /** The times of a client's requests that the limiter let through in the first `n` events. */
  function LetThrough(env: Settings, es: seq<Event>, n: nat, client: string): seq<int>
    requires env.limits.Some? && n <= |es|
  {
    RateLimiter.Admitted(env.limits.value, LimiterEvents(es[..n]), client)
  }

  /** The positions of a client's forwarded requests. */
  ghost function Forwards(env: Settings, config: Option<PolicyEngine.Config>, es: seq<Event>, client: string): set<nat>
    requires env.Valid()
  {
    set i: nat | i < |es| && ForwardedAt(env, config, es, i) && es[i].req.client == client
  }

  /** How many positions of a set lie from `i` up to, not including, `j`. */
  ghost function Count(positions: set<nat>, i: nat, j: nat): nat
    requires i <= j
    decreases j - i
  {
    if i == j then 0 else Count(positions, i, j - 1) + if j - 1 in positions then 1 else 0
  }

  lemma LetThroughGrows(env: Settings, es: seq<Event>, client: string, i: nat)
    requires env.limits.Some? && i < |es|
    ensures LetThrough(env, es, i, client) <= LetThrough(env, es, i + 1, client)
  {
    assert es[..i + 1][..i] == es[..i];
    if LimiterView(es[i]) == [] {
      assert LimiterEvents(es[..i + 1]) == LimiterEvents(es[..i]);
    } else {
      RateLimiter.AdmittedSnoc(env.limits.value, LimiterEvents(es[..i]), LimiterView(es[i])[0], client);
    }
  }

  /** The histories after 0, 1, ... events. */
  ghost function Histories(env: Settings, es: seq<Event>, client: string): (hs: seq<seq<int>>)
    requires env.limits.Some?
    ensures |hs| == |es| + 1 && forall n | 0 <= n <= |es| :: hs[n] == LetThrough(env, es, n, client)
  {
    seq(|es| + 1, n requires 0 <= n <= |es| => LetThrough(env, es, n, client))
  }

  /** Histories that grow, and at each of the positions by exactly one entry. */
  ghost predicate Growing(hs: seq<seq<int>>, positions: set<nat>) {
    && (forall n | 0 < n < |hs| :: hs[n - 1] <= hs[n])
    && (forall n | n in positions :: n + 1 < |hs| && |hs[n + 1]| == |hs[n]| + 1)
  }

  lemma {:induction false} CountGrowth(hs: seq<seq<int>>, positions: set<nat>, i: nat, j: nat)
    requires Growing(hs, positions) && i <= j < |hs|
    ensures hs[i] <= hs[j] && Count(positions, i, j) <= |hs[j]| - |hs[i]|
    decreases j - i
  {
    if i < j {
      CountGrowth(hs, positions, i, j - 1);
      assert hs[j - 1] <= hs[j];
    }
  }

  /** Every position is that of a request which the limiter let through. */
  ghost predicate AllLetThrough(env: Settings, es: seq<Event>, positions: set<nat>, client: string)
    requires env.limits.Some?
  {
    forall i | i in positions ::
      i < |es| && LetThrough(env, es, i + 1, client) == LetThrough(env, es, i, client) + [es[i].at]
  }

  lemma ForwardsWereLetThrough(env: Settings, config: Option<PolicyEngine.Config>, es: seq<Event>, client: string)
    requires env.Valid() && env.limits.Some?
    ensures AllLetThrough(env, es, Forwards(env, config, es, client), client)
  {
    forall i | i in Forwards(env, config, es, client)
      ensures LetThrough(env, es, i + 1, client) == LetThrough(env, es, i, client) + [es[i].at]
    {
      assert es[..i + 1][..i] == es[..i];
      LimiterRun(env, config, es[..i]);
      ServeBuckets(env, Run(env, config, es[..i]), es[i].req, es[i].at);
      RateLimiter.AdmittedSnoc(env.limits.value, LimiterEvents(es[..i]), LimiterView(es[i])[0], client);
    }
  }

  lemma {:induction false} LimiterEventsOrdered(es: seq<Event>, now: int)
    requires Ordered(es) && forall i | 0 <= i < |es| :: es[i].at <= now
    ensures RateLimiter.Ordered(LimiterEvents(es))
    ensures forall i | 0 <= i < |LimiterEvents(es)| :: LimiterEvents(es)[i].at <= now
  {
    if es != [] {
      LimiterEventsOrdered(es[..|es| - 1], es[|es| - 1].at);
    }
  }

  lemma HistoriesGrow(env: Settings, es: seq<Event>, client: string, positions: set<nat>, hs: seq<seq<int>>)
    requires env.limits.Some? && AllLetThrough(env, es, positions, client)
    requires |hs| == |es| + 1 && forall n | 0 <= n <= |es| :: hs[n] == LetThrough(env, es, n, client)
    ensures Growing(hs, positions)
  {
    forall n | 0 < n < |hs| ensures hs[n - 1] <= hs[n] {
      LetThroughGrows(env, es, client, n - 1);
    }
    forall n | n in positions ensures n + 1 < |hs| && |hs[n + 1]| == |hs[n]| + 1 {
      GrowsAt(env, es, client, positions, n);
    }
  }

  lemma GrowsAt(env: Settings, es: seq<Event>, client: string, positions: set<nat>, n: nat)
    requires env.limits.Some? && AllLetThrough(env, es, positions, client) && n in positions
    ensures n < |es| && LetThrough(env, es, n + 1, client) == LetThrough(env, es, n, client) + [es[n].at]
  {
  }

  /** Counted positions from `i` to `j` are let-through requests from that at `i` to that at `j`. */
  lemma CountSpan(env: Settings, es: seq<Event>, client: string, positions: set<nat>, i: nat, j: nat) returns (a: nat, b: nat)
    requires env.limits.Some? && AllLetThrough(env, es, positions, client) && i in positions && j in positions && i <= j
    ensures
      var h := LetThrough(env, es, j + 1, client);
      a <= b < |h| && h[a] == es[i].at && h[b] == es[j].at && Count(positions, i, j + 1) <= b - a + 1
  {
    var hs := Histories(env, es, client);
    HistoriesGrow(env, es, client, positions, hs);
    a, b := |hs[i]|, |hs[j]|;
    CountGrowth(hs, positions, i, j + 1);
    CountGrowth(hs, positions, i + 1, j + 1);
    CountGrowth(hs, positions, i, j);
    assert hs[i + 1] == hs[i] + [es[i].at] && hs[j + 1] == hs[j] + [es[j].at];
    assert hs[j + 1][a] == hs[i + 1][a];
  }

  lemma SpanBound(env: Settings, es: seq<Event>, client: string, n: nat, a: nat, b: nat)
    requires env.limits.Some? && env.limits.value.Valid() && RateLimiter.IdleFills(env.limits.value)
    requires Ordered(es) && n < |es| && a <= b < |LetThrough(env, es, n + 1, client)|
    ensures
      var (l, h) := (env.limits.value, LetThrough(env, es, n + 1, client));
      (b - a + 1) as real <= l.burst as real + l.Gain(h[b] - h[a])
  {
    LimiterEventsOrdered(es[..n + 1], es[n].at);
    RateLimiter.WindowBoundWithCleanups(env.limits.value, LimiterEvents(es[..n + 1]), client);
  }

  lemma CountBound(env: Settings, es: seq<Event>, client: string, positions: set<nat>, i: nat, j: nat)
    requires env.limits.Some? && env.limits.value.Valid() && RateLimiter.IdleFills(env.limits.value)
    requires Ordered(es) && AllLetThrough(env, es, positions, client) && i in positions && j in positions && i <= j
    ensures
      var l := env.limits.value;
      Count(positions, i, j + 1) as real <= l.burst as real + l.Gain(es[j].at - es[i].at)
  {
    var a, b := CountSpan(env, es, client, positions, i, j);
    SpanBound(env, es, client, j, a, b);
  }

  /** Two forwarded requests of one client in an ordered run. */
  ghost predicate ForwardPair(env: Settings, config: Option<PolicyEngine.Config>, es: seq<Event>, client: string, i: nat, j: nat)
    requires env.Valid()
  {
    Ordered(es) && i <= j && i in Forwards(env, config, es, client) && j in Forwards(env, config, es, client)
  }

  /** From one to the other, both included, at most burst + rps * (time between them) requests are forwarded. */
  ghost predicate RateKept(env: Settings, config: Option<PolicyEngine.Config>, es: seq<Event>, client: string, i: nat, j: nat)
    requires env.Valid() && env.limits.Some? && i <= j < |es|
  {
    RateLimiter.KeepsRate(env.limits.value, Count(Forwards(env, config, es, client), i, j + 1), es[j].at - es[i].at)
  }

  /** The rate of forwarded requests is bounded, if the idle time before eviction refills the burst. */
  lemma ForwardRateBound(env: Settings, config: Option<PolicyEngine.Config>, es: seq<Event>, client: string, i: nat, j: nat)
    requires env.Valid() && env.limits.Some? && RateLimiter.IdleFills(env.limits.value)
    requires ForwardPair(env, config, es, client, i, j)
    ensures RateKept(env, config, es, client, i, j)
  {
    ForwardsWereLetThrough(env, config, es, client);
    CountBound(env, es, client, Forwards(env, config, es, client), i, j);
    RateLimiter.KeepsRateIff(env.limits.value, Count(Forwards(env, config, es, client), i, j + 1), es[j].at - es[i].at);
  }
}
