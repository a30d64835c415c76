/**
 The per-client token bucket of internal/gateway/ratelimit.go.

 A bucket holds `tokens` and the time `lastSeen`; a call refills it at `rps`
 tokens a second up to `burst` and takes one token.  Two reference definitions
 stand beside it:

 - the sliding window: a call at `t` is admitted exactly when, for every earlier
   admitted call at `s`, the calls admitted since then and this one number at
   most burst + rps * (t - s);
 - the limiter that never evicts a bucket.

 Times are nanoseconds, `float64` is `real`, and one `Allow` or one cleanup is
 one atomic step, in the order in which they take the lock.
 */
module RateLimiter {
  import opened Clock

  /** How long a bucket must be idle before the cleanup loop drops it. */
  const IDLE := 300 * SECOND

  function Seconds(d: int): real {
    d as real / SECOND as real
  }

  datatype Limits = Limits(rps: real, burst: int) {
    predicate Valid() {
      rps > 0.0 && burst >= 1
    }

    /** Tokens gained in a duration. */
    function Gain(d: int): real {
      rps * Seconds(d)
    }
  }

  datatype Bucket = Bucket(tokens: real, lastSeen: int)
  type Buckets = map<string, Bucket>

  /** The configured limits: a burst that is not positive defaults to the rate, at least 1. */
  function NewLimits(rps: real, burst: int): (l: Limits)
    requires rps > 0.0
    ensures l.Valid()
    ensures burst > 0 ==> l == Limits(rps, burst)
    ensures burst <= 0 ==> l.rps == rps && l.burst == (if rps.Floor < 1 then 1 else rps.Floor)
  {
    if burst > 0 then Limits(rps, burst)
    else if rps.Floor < 1 then Limits(rps, 1)
    else Limits(rps, rps.Floor)
  }

  function Refill(l: Limits, b: Bucket, now: int): Bucket {
    var t := b.tokens + l.Gain(now - b.lastSeen);
    Bucket(if t > l.burst as real then l.burst as real else t, now)
  }

  /** One call of `allow`: the buckets afterwards and the decision. */
  function AllowStep(l: Limits, bs: Buckets, key: string, now: int): (Buckets, bool) {
    if key !in bs then (bs[key := Bucket(l.burst as real - 1.0, now)], true)
    else
      var b := Refill(l, bs[key], now);
      if b.tokens < 1.0 then (bs[key := b], false)
      else (bs[key := b.(tokens := b.tokens - 1.0)], true)
  }

  /** One round of the cleanup loop. */
  function Evict(bs: Buckets, now: int): Buckets {
    map k | k in bs && !(bs[k].lastSeen < now - IDLE) :: bs[k]
  }

  /** The limiter as the source has it: one mutable map, changed in place. */
  class Limiter {
    const limits: Limits
    var buckets: Buckets

    constructor (rps: real, burst: int)
      requires rps > 0.0
      ensures limits == NewLimits(rps, burst) && buckets == map[]
    {
      limits := NewLimits(rps, burst);
      buckets := map[];
    }

    method Allow(key: string, now: int) returns (ok: bool)
      modifies this
      ensures (buckets, ok) == AllowStep(limits, old(buckets), key, now)
    {
      if key !in buckets {
        buckets := buckets[key := Bucket(limits.burst as real - 1.0, now)];
        return true;
      }
      var b := buckets[key];
      var tokens := b.tokens + limits.Gain(now - b.lastSeen);
      if tokens > limits.burst as real {
        tokens := limits.burst as real;
      }
      buckets := buckets[key := Bucket(tokens, now)];
      if tokens < 1.0 {
        return false;
      }
      buckets := buckets[key := Bucket(tokens - 1.0, now)];
      assert buckets == old(buckets)[key := Bucket(tokens - 1.0, now)];
      return true;
    }

    method Cleanup(now: int)
      modifies this
      ensures buckets == Evict(old(buckets), now)
    {
      var cutoff := now - IDLE;
      var todo := buckets.Keys;
      while todo != {}
        invariant todo <= old(buckets).Keys
        invariant buckets == map k | k in old(buckets) && (k in todo || !(old(buckets)[k].lastSeen < cutoff)) :: old(buckets)[k]
        decreases todo
      {
        var k :| k in todo;
        if buckets[k].lastSeen < cutoff {
          buckets := buckets - {k};
        }
        todo := todo - {k};
      }
    }
  }

  // ----- Runs

  datatype Event = Call(key: string, at: int) | Cleanup(at: int)

  function Step(l: Limits, bs: Buckets, e: Event): Buckets {
    match e
    case Call(key, at) => AllowStep(l, bs, key, at).0
    case Cleanup(at) => Evict(bs, at)
  }

  /** The buckets after a run that starts with none. */
  function Run(l: Limits, es: seq<Event>): Buckets {
    if es == [] then map[] else Step(l, Run(l, es[..|es| - 1]), es[|es| - 1])
  }

  /** What the limiter answers to a call made after the run `es`. */
  predicate Decision(l: Limits, es: seq<Event>, key: string, t: int) {
    AllowStep(l, Run(l, es), key, t).1
  }

  /** The times of the calls on `key` that the run admitted, in lock order. */
  function Admitted(l: Limits, es: seq<Event>, key: string): seq<int> {
    if es == [] then []
    else
      var (init, e) := (es[..|es| - 1], es[|es| - 1]);
      Admitted(l, init, key) +
      if e.Call? && e.key == key && Decision(l, init, key, e.at) then [e.at] else []
  }

  predicate CallsOnly(es: seq<Event>) {
    forall e | e in es :: e.Call?
  }

  /** `n` calls within `d` nanoseconds keep to the rate. */
  ghost predicate KeepsRate(l: Limits, n: int, d: int) {
    n as real <= l.burst as real + l.rps * (d as real / 1_000_000_000.0)
  }

  lemma GainInSeconds(l: Limits, d: int)
    ensures l.Gain(d) == l.rps * (d as real / 1_000_000_000.0)
  {
  }

  lemma KeepsRateIff(l: Limits, n: int, d: int)
    ensures KeepsRate(l, n, d) <==> n as real <= l.burst as real + l.Gain(d)
  {
    GainInSeconds(l, d);
  }

  /** The sliding window: `h` are the calls admitted so far, `t` the time of the next one. */
  predicate WindowAdmits(l: Limits, h: seq<int>, t: int) {
    forall i | 0 <= i < |h| :: (|h| - i + 1) as real <= l.burst as real + l.Gain(t - h[i])
  }

  /** Every window between two calls of the history is within burst + rps * length. */
  ghost predicate Within(l: Limits, h: seq<int>) {
    forall i, j | 0 <= i <= j < |h| :: (j - i + 1) as real <= l.burst as real + l.Gain(h[j] - h[i])
  }

  /** What the sliding window admits of a sequence of call times. */
  function WindowGreedy(l: Limits, ts: seq<int>): seq<int> {
    if ts == [] then []
    else
      var h := WindowGreedy(l, ts[..|ts| - 1]);
      if WindowAdmits(l, h, ts[|ts| - 1]) then h + [ts[|ts| - 1]] else h
  }

  /** The times of the calls on one key. */
  function TimesOf(es: seq<Event>, key: string): seq<int> {
    if es == [] then []
    else
      var e := es[|es| - 1];
      TimesOf(es[..|es| - 1], key) + if e.Call? && e.key == key then [e.at] else []
  }

  lemma RunSnoc(l: Limits, es: seq<Event>, e: Event)
    ensures Run(l, es + [e]) == Step(l, Run(l, es), e)
  {
    assert (es + [e])[..|es|] == es;
  }

  lemma AdmittedSnoc(l: Limits, es: seq<Event>, e: Event, key: string)
    ensures Admitted(l, es + [e], key)
         == Admitted(l, es, key) + if e.Call? && e.key == key && Decision(l, es, key, e.at) then [e.at] else []
  {
    assert (es + [e])[..|es|] == es;
  }

  // ----- The potential tokens - rps * lastSeen

  function Potential(l: Limits, b: Bucket): real {
    b.tokens - l.Gain(b.lastSeen)
  }

  /** What the i-th admitted call leaves of the burst after `n` admitted calls. */
  function Allowance(l: Limits, h: seq<int>, i: int): real
    requires 0 <= i < |h|
  {
    (l.burst - (|h| - i)) as real - l.Gain(h[i])
  }

  /** The potential is the least allowance over the admitted calls. */
  ghost predicate LeastAllowance(l: Limits, h: seq<int>, p: real) {
    && (forall i | 0 <= i < |h| :: p <= Allowance(l, h, i))
    && (exists i | 0 <= i < |h| :: p == Allowance(l, h, i))
  }

  ghost predicate Tracks(l: Limits, h: seq<int>, bs: Buckets, key: string) {
    if h == [] then key !in bs
    else key in bs && LeastAllowance(l, h, Potential(l, bs[key]))
  }

  lemma GainSplits(l: Limits, a: int, b: int)
    ensures l.Gain(a - b) == l.Gain(a) - l.Gain(b)
  {
    assert Seconds(a - b) == Seconds(a) - Seconds(b);
  }

  /** A refill keeps the potential unless the bucket is full. */
  lemma RefillPotential(l: Limits, b: Bucket, now: int)
    ensures
      var r := Refill(l, b, now);
      if Potential(l, b) + l.Gain(now) > l.burst as real
      then r.tokens == l.burst as real
      else r.tokens == Potential(l, b) + l.Gain(now)
  {
    GainSplits(l, now, b.lastSeen);
  }

  lemma WindowByPotential(l: Limits, h: seq<int>, p: real, t: int)
    requires LeastAllowance(l, h, p)
    ensures WindowAdmits(l, h, t) <==> p + l.Gain(t) >= 1.0
  {
    forall i | 0 <= i < |h|
      ensures (|h| - i + 1) as real <= l.burst as real + l.Gain(t - h[i])
         <==> Allowance(l, h, i) + l.Gain(t) >= 1.0
    {
      GainSplits(l, t, h[i]);
    }
  }

  lemma AdmitKeepsLeast(l: Limits, h: seq<int>, p: real, t: int)
    requires LeastAllowance(l, h, p)
    ensures
      var full := l.burst as real - l.Gain(t);
      LeastAllowance(l, h + [t], (if p > full then full else p) - 1.0)
  {
    var h' := h + [t];
    assert Allowance(l, h', |h|) == l.burst as real - l.Gain(t) - 1.0;
    forall i | 0 <= i < |h| ensures Allowance(l, h', i) == Allowance(l, h, i) - 1.0 {
      assert h'[i] == h[i];
    }
    var i :| 0 <= i < |h| && p == Allowance(l, h, i);
    assert Allowance(l, h', i) == p - 1.0;
  }

  /** One call: the decision is the window's, and the potential goes on tracking the history. */
  lemma CallTracks(l: Limits, h: seq<int>, bs: Buckets, key: string, t: int)
    requires l.Valid() && Tracks(l, h, bs, key)
    ensures
      var (bs', ok) := AllowStep(l, bs, key, t);
      && ok == WindowAdmits(l, h, t)
      && Tracks(l, if ok then h + [t] else h, bs', key)
  {
    if h == [] {
      var b := Bucket(l.burst as real - 1.0, t);
      assert Allowance(l, [t], 0) == Potential(l, b);
      assert h + [t] == [t];
    } else {
      var p := Potential(l, bs[key]);
      RefillPotential(l, bs[key], t);
      WindowByPotential(l, h, p, t);
      AdmitKeepsLeast(l, h, p, t);
    }
  }

  lemma OtherKeyUntouched(l: Limits, bs: Buckets, key: string, t: int, other: string)
    requires other != key
    ensures
      var bs' := AllowStep(l, bs, key, t).0;
      (other in bs' <==> other in bs) && (other in bs ==> bs'[other] == bs[other])
  {
  }

  lemma {:induction false} RunTracks(l: Limits, es: seq<Event>, key: string)
    requires l.Valid() && CallsOnly(es)
    ensures Tracks(l, Admitted(l, es, key), Run(l, es), key)
  {
    if es != [] {
      var (init, e) := (es[..|es| - 1], es[|es| - 1]);
      RunTracks(l, init, key);
      var h := Admitted(l, init, key);
      if e.key == key {
        CallTracks(l, h, Run(l, init), key, e.at);
        assert h + [] == h;
      } else {
        OtherKeyUntouched(l, Run(l, init), e.key, e.at, key);
        assert Admitted(l, es, key) == h;
      }
    }
  }

  lemma {:induction false} RunIsGreedy(l: Limits, es: seq<Event>, key: string)
    requires l.Valid() && CallsOnly(es)
    ensures Admitted(l, es, key) == WindowGreedy(l, TimesOf(es, key))
  {
    if es != [] {
      var (init, e) := (es[..|es| - 1], es[|es| - 1]);
      RunIsGreedy(l, init, key);
      if e.key == key {
        RunTracks(l, init, key);
        CallTracks(l, Admitted(l, init, key), Run(l, init), key, e.at);
        assert TimesOf(es, key)[..|TimesOf(es, key)| - 1] == TimesOf(init, key);
      } else {
        assert TimesOf(es, key) == TimesOf(init, key);
      }
    }
  }

  // ----- Main results

  /**
   The bucket is the sliding window.  For any timestamps in any order, a call is
   admitted if and only if it keeps every window that starts at an admitted call
   within burst + rps * length.  Only the calls on this key enter.
   */
  lemma BucketIsSlidingWindow(l: Limits, es: seq<Event>, key: string, t: int)
    requires l.Valid() && CallsOnly(es)
    ensures Decision(l, es, key, t) <==> WindowAdmits(l, Admitted(l, es, key), t)
    ensures Admitted(l, es, key) == WindowGreedy(l, TimesOf(es, key))
  {
    RunTracks(l, es, key);
    RunIsGreedy(l, es, key);
    CallTracks(l, Admitted(l, es, key), Run(l, es), key, t);
  }

  lemma WindowAdmitsIff(l: Limits, h: seq<int>, t: int)
    ensures WindowAdmits(l, h, t) <==> forall i | 0 <= i < |h| :: KeepsRate(l, |h| - i + 1, t - h[i])
  {
    forall i | 0 <= i < |h|
      ensures KeepsRate(l, |h| - i + 1, t - h[i]) <==> (|h| - i + 1) as real <= l.burst as real + l.Gain(t - h[i])
    {
      KeepsRateIff(l, |h| - i + 1, t - h[i]);
    }
  }

  /** A call is admitted exactly when it keeps to the rate since every admitted call. */
  lemma AdmittedIffRateKept(l: Limits, es: seq<Event>, key: string, t: int)
    requires l.Valid() && CallsOnly(es)
    ensures
      var h := Admitted(l, es, key);
      Decision(l, es, key, t) <==> forall i | 0 <= i < |h| :: KeepsRate(l, |h| - i + 1, t - h[i])
  {
    BucketIsSlidingWindow(l, es, key, t);
    WindowAdmitsIff(l, Admitted(l, es, key), t);
  }

  lemma WindowExtends(l: Limits, h: seq<int>, t: int)
    requires l.Valid() && Within(l, h) && WindowAdmits(l, h, t)
    ensures Within(l, h + [t])
  {
    var h' := h + [t];
    forall i, j | 0 <= i <= j < |h'| ensures (j - i + 1) as real <= l.burst as real + l.Gain(h'[j] - h'[i]) {
      if j < |h| {
        assert h'[i] == h[i] && h'[j] == h[j];
      } else if i < |h| {
        assert h'[i] == h[i] && h'[j] == t;
      } else {
        assert l.Gain(t - t) == 0.0;
      }
    }
  }

  /** The bound, with the rate written out. */
  lemma WithinKeepsRate(l: Limits, h: seq<int>)
    ensures Within(l, h) <==> forall i, j | 0 <= i <= j < |h| :: KeepsRate(l, j - i + 1, h[j] - h[i])
  {
    forall i, j | 0 <= i <= j < |h|
      ensures KeepsRate(l, j - i + 1, h[j] - h[i]) <==> (j - i + 1) as real <= l.burst as real + l.Gain(h[j] - h[i])
    {
      KeepsRateIff(l, j - i + 1, h[j] - h[i]);
    }
  }

  lemma AdmittedKeepsRate(l: Limits, es: seq<Event>, key: string, i: nat, j: nat)
    requires l.Valid() && CallsOnly(es) && i <= j < |Admitted(l, es, key)|
    ensures
      var h := Admitted(l, es, key);
      KeepsRate(l, j - i + 1, h[j] - h[i])
  {
    WindowBound(l, es, key);
    WithinKeepsRate(l, Admitted(l, es, key));
  }

  /** Between two admitted calls at most burst + rps * (difference of their times) calls are admitted. */
  lemma {:induction false} WindowBound(l: Limits, es: seq<Event>, key: string)
    requires l.Valid() && CallsOnly(es)
    ensures Within(l, Admitted(l, es, key))
  {
    if es != [] {
      var (init, e) := (es[..|es| - 1], es[|es| - 1]);
      WindowBound(l, init, key);
      AdmittedSnoc(l, init, e, key);
      assert es == init + [e];
      if e.key == key && Decision(l, init, key, e.at) {
        BucketIsSlidingWindow(l, init, key, e.at);
        WindowExtends(l, Admitted(l, init, key), e.at);
      } else {
        assert Admitted(l, es, key) == Admitted(l, init, key);
      }
    }
  }

  /** A refused call has a witness: an admitted call whose window it would overfill. */
  lemma RefusalHasWitness(l: Limits, es: seq<Event>, key: string, t: int)
    requires l.Valid() && CallsOnly(es) && !Decision(l, es, key, t)
    ensures
      var h := Admitted(l, es, key);
      exists i | 0 <= i < |h| :: (|h| - i + 1) as real > l.burst as real + l.Gain(t - h[i])
  {
    BucketIsSlidingWindow(l, es, key, t);
  }

  // ----- Eviction

  predicate Ordered(es: seq<Event>) {
    forall i, j | 0 <= i < j < |es| :: es[i].at <= es[j].at
  }

  /** The clock has not passed `now`. */
  predicate Until(es: seq<Event>, now: int) {
    es != [] ==> es[|es| - 1].at <= now
  }

  function WithoutCleanup(es: seq<Event>): seq<Event> {
    if es == [] then []
    else WithoutCleanup(es[..|es| - 1]) + if es[|es| - 1].Call? then [es[|es| - 1]] else []
  }

  /** `kept` never evicts; `bs` may miss buckets that have been idle long enough. */
  ghost predicate Alike(l: Limits, bs: Buckets, kept: Buckets, now: int) {
    && (forall k | k in bs :: k in kept && bs[k] == kept[k])
    && (forall k | k in kept :: 0.0 <= kept[k].tokens <= l.burst as real && kept[k].lastSeen <= now)
    && (forall k | k in kept && k !in bs :: kept[k].lastSeen < now - IDLE)
  }

  /** An evicted bucket is exactly a full one, provided IDLE is long enough to fill it. */
  predicate IdleFills(l: Limits) {
    l.burst as real <= l.Gain(IDLE + 1)
  }

  lemma GainMonotone(l: Limits, a: int, b: int)
    requires l.Valid() && a <= b
    ensures l.Gain(a) <= l.Gain(b)
  {
    assert Seconds(a) <= Seconds(b);
    assert l.rps * Seconds(a) <= l.rps * Seconds(b);
  }

  lemma CallAlike(l: Limits, bs: Buckets, kept: Buckets, key: string, now: int, t: int)
    requires l.Valid() && IdleFills(l) && Alike(l, bs, kept, now) && now <= t
    ensures AllowStep(l, bs, key, t).1 == AllowStep(l, kept, key, t).1
    ensures Alike(l, AllowStep(l, bs, key, t).0, AllowStep(l, kept, key, t).0, t)
  {
    if key in kept {
      var d := t - kept[key].lastSeen;
      GainMonotone(l, 0, d);
      assert l.Gain(0) == 0.0;
      if key !in bs {
        GainMonotone(l, IDLE + 1, d);
      }
    }
  }

  lemma WithoutCleanupSnoc(es: seq<Event>, e: Event)
    ensures WithoutCleanup(es + [e]) == WithoutCleanup(es) + if e.Call? then [e] else []
  {
    assert (es + [e])[..|es|] == es;
  }

  lemma UntilPrefix(es: seq<Event>, e: Event)
    requires Ordered(es + [e])
    ensures Ordered(es) && Until(es, e.at)
  {
    var all := es + [e];
    forall i, j | 0 <= i < j < |es| ensures es[i].at <= es[j].at {
      assert all[i] == es[i] && all[j] == es[j];
    }
    if es != [] {
      assert all[|es| - 1].at <= all[|es|].at;
    }
  }

  lemma AlikeLater(l: Limits, bs: Buckets, kept: Buckets, now: int, t: int)
    requires Alike(l, bs, kept, now) && now <= t
    ensures Alike(l, bs, kept, t)
  {
  }

  lemma EvictAlike(l: Limits, bs: Buckets, kept: Buckets, now: int)
    requires Alike(l, bs, kept, now)
    ensures Alike(l, Evict(bs, now), kept, now)
  {
  }

  lemma {:induction false} RunAlike(l: Limits, es: seq<Event>, now: int)
    requires l.Valid() && IdleFills(l) && Ordered(es) && Until(es, now)
    ensures Alike(l, Run(l, es), Run(l, WithoutCleanup(es)), now)
  {
    if es != [] {
      var (init, e) := (es[..|es| - 1], es[|es| - 1]);
      assert es == init + [e];
      UntilPrefix(init, e);
      RunAlike(l, init, e.at);
      var (bs, kept) := (Run(l, init), Run(l, WithoutCleanup(init)));
      RunSnoc(l, init, e);
      WithoutCleanupSnoc(init, e);
      if e.Call? {
        RunSnoc(l, WithoutCleanup(init), e);
        CallAlike(l, bs, kept, e.key, e.at, e.at);
      } else {
        assert WithoutCleanup(es) == WithoutCleanup(init);
        EvictAlike(l, bs, kept, e.at);
      }
      AlikeLater(l, Run(l, es), Run(l, WithoutCleanup(es)), e.at, now);
    }
  }

  /** The same calls are admitted with and without the cleanups of the run. */
  lemma {:induction false} AdmittedAlike(l: Limits, es: seq<Event>, key: string)
    requires l.Valid() && IdleFills(l) && Ordered(es)
    ensures Admitted(l, es, key) == Admitted(l, WithoutCleanup(es), key)
  {
    if es != [] {
      var (init, e) := (es[..|es| - 1], es[|es| - 1]);
      assert es == init + [e];
      UntilPrefix(init, e);
      AdmittedAlike(l, init, key);
      AdmittedSnoc(l, init, e, key);
      WithoutCleanupSnoc(init, e);
      if e.Call? {
        AdmittedSnoc(l, WithoutCleanup(init), e, key);
        RunAlike(l, init, e.at);
        CallAlike(l, Run(l, init), Run(l, WithoutCleanup(init)), e.key, e.at, e.at);
      } else {
        assert WithoutCleanup(es) == WithoutCleanup(init);
      }
    }
  }

  /** Same answer with and without the cleanups of the run. */
  predicate EvictionHidden(l: Limits, es: seq<Event>, key: string, t: int) {
    Decision(l, es, key, t) == Decision(l, WithoutCleanup(es), key, t)
  }

  lemma EvictionUnobservable(l: Limits, es: seq<Event>, key: string, t: int)
    requires l.Valid() && IdleFills(l) && Ordered(es) && Until(es, t)
    ensures EvictionHidden(l, es, key, t)
    ensures Admitted(l, es, key) == WindowGreedy(l, TimesOf(WithoutCleanup(es), key))
  {
    RunAlike(l, es, t);
    AdmittedAlike(l, es, key);
    CallAlike(l, Run(l, es), Run(l, WithoutCleanup(es)), key, t, t);
    WithoutCleanupCalls(es);
    RunIsGreedy(l, WithoutCleanup(es), key);
  }

  /** The window bound with cleanups at any points of the run. */
  lemma WindowBoundWithCleanups(l: Limits, es: seq<Event>, key: string)
    requires l.Valid() && IdleFills(l) && Ordered(es)
    ensures Within(l, Admitted(l, es, key))
  {
    AdmittedAlike(l, es, key);
    WithoutCleanupCalls(es);
    WindowBound(l, WithoutCleanup(es), key);
  }

  lemma {:induction false} WithoutCleanupCalls(es: seq<Event>)
    ensures CallsOnly(WithoutCleanup(es))
  {
    if es != [] {
      WithoutCleanupCalls(es[..|es| - 1]);
    }
  }

  /** `n` calls on one key at one time. */
  function Volley(key: string, at: int, n: nat): seq<Event> {
    seq(n, _ => Call(key, at))
  }

  /**
   A run that drains a bucket, lets it idle just long enough to be evicted, and
   then makes as many calls as the idle time alone pays for.
   */
  function DrainEvictDrain(l: Limits): seq<Event>
    requires l.Valid()
  {
    Drain(l) + [Cleanup(IDLE + 1)] + Volley("k", IDLE + 1, Paid(l))
  }

  function Drain(l: Limits): seq<Event>
    requires l.Valid()
  {
    Volley("k", 0, l.burst)
  }

  /** Whole tokens gained in the shortest idle time that leads to an eviction. */
  function Paid(l: Limits): nat
    requires l.Valid()
  {
    GainMonotone(l, 0, IDLE + 1);
    assert l.Gain(0) == 0.0;
    l.Gain(IDLE + 1).Floor
  }

  lemma NoTimeNoGain(l: Limits, bs: Buckets, key: string, t: int)
    requires key in bs && bs[key].lastSeen == t && bs[key].tokens <= l.burst as real
    ensures
      var tokens := bs[key].tokens;
      AllowStep(l, bs, key, t)
      == if tokens < 1.0 then (bs[key := Bucket(tokens, t)], false) else (bs[key := Bucket(tokens - 1.0, t)], true)
  {
    assert l.Gain(t - t) == 0.0;
  }

  /** Calls at one instant take one token each. */
  lemma {:induction false} VolleyTokens(l: Limits, es: seq<Event>, key: string, at: int, n: nat)
    requires l.Valid()
    requires key in Run(l, es) && Run(l, es)[key].lastSeen == at
    requires n as real <= Run(l, es)[key].tokens <= l.burst as real
    ensures
      var r := Run(l, es + Volley(key, at, n));
      key in r && r[key] == Bucket(Run(l, es)[key].tokens - n as real, at)
  {
    if n == 0 {
      assert es + Volley(key, at, 0) == es;
    } else {
      VolleyTokens(l, es, key, at, n - 1);
      var mid := es + Volley(key, at, n - 1);
      assert es + Volley(key, at, n) == mid + [Call(key, at)];
      RunSnoc(l, mid, Call(key, at));
      NoTimeNoGain(l, Run(l, mid), key, at);
    }
  }

  /** Draining a bucket that is not there yet takes the whole burst. */
  lemma FreshVolley(l: Limits, es: seq<Event>, key: string, at: int, n: nat)
    requires l.Valid() && key !in Run(l, es) && 1 <= n <= l.burst
    ensures
      var r := Run(l, es + Volley(key, at, n));
      key in r && r[key] == Bucket((l.burst - n) as real, at)
  {
    RunSnoc(l, es, Call(key, at));
    VolleyTokens(l, es + [Call(key, at)], key, at, n - 1);
    assert es + Volley(key, at, n) == es + [Call(key, at)] + Volley(key, at, n - 1);
  }

  lemma {:induction false} WithoutCleanupOfCalls(es: seq<Event>, n: nat, key: string, at: int)
    ensures WithoutCleanup(es + Volley(key, at, n)) == WithoutCleanup(es) + Volley(key, at, n)
  {
    if n == 0 {
      assert es + Volley(key, at, 0) == es;
      assert WithoutCleanup(es) + Volley(key, at, 0) == WithoutCleanup(es);
    } else {
      WithoutCleanupOfCalls(es, n - 1, key, at);
      WithoutCleanupSnoc(es + Volley(key, at, n - 1), Call(key, at));
      OneMore(es, [], key, at, n - 1);
      OneMore(WithoutCleanup(es), [], key, at, n - 1);
    }
  }

  lemma DrainedAndEvicted(l: Limits)
    requires l.Valid()
    ensures Run(l, Drain(l))["k" := Bucket(0.0, 0)] == Run(l, Drain(l))
    ensures "k" !in Run(l, Drain(l) + [Cleanup(IDLE + 1)])
    ensures WithoutCleanup(Drain(l) + [Cleanup(IDLE + 1)]) == Drain(l)
  {
    assert [] + Drain(l) == Drain(l);
    FreshVolley(l, [], "k", 0, l.burst);
    RunSnoc(l, Drain(l), Cleanup(IDLE + 1));
    WithoutCleanupOfCalls([], l.burst, "k", 0);
    assert (Drain(l) + [Cleanup(IDLE + 1)])[..l.burst] == Drain(l);
    assert WithoutCleanup([]) + Drain(l) == Drain(l);
  }

  /** A drained bucket that was kept has earned Gain(IDLE + 1) tokens, less than a burst. */
  lemma KeptBucket(l: Limits, bs: Buckets)
    requires l.Valid() && !IdleFills(l) && "k" in bs && bs["k"] == Bucket(0.0, 0)
    ensures
      var g := l.Gain(IDLE + 1);
      AllowStep(l, bs, "k", IDLE + 1)
      == if g < 1.0 then (bs["k" := Bucket(g, IDLE + 1)], false) else (bs["k" := Bucket(g - 1.0, IDLE + 1)], true)
  {
    assert IDLE + 1 - 0 == IDLE + 1;
  }

  /** It answers Paid(l) calls after the idle time and no more. */
  lemma KeptRefuses(l: Limits)
    requires l.Valid() && !IdleFills(l)
    ensures !Decision(l, Drain(l) + Volley("k", IDLE + 1, Paid(l)), "k", IDLE + 1)
  {
    DrainedAndEvicted(l);
    KeptBucket(l, Run(l, Drain(l)));
    var n := Paid(l);
    if n == 0 {
      assert Drain(l) + Volley("k", IDLE + 1, 0) == Drain(l);
    } else {
      RunSnoc(l, Drain(l), Call("k", IDLE + 1));
      KeptRefusesAfter(l, Drain(l) + [Call("k", IDLE + 1)], n);
      assert Drain(l) + Volley("k", IDLE + 1, n) == Drain(l) + [Call("k", IDLE + 1)] + Volley("k", IDLE + 1, n - 1);
    }
  }

  lemma KeptRefusesAfter(l: Limits, first: seq<Event>, n: nat)
    requires l.Valid() && !IdleFills(l) && n == Paid(l) && n > 0
    requires "k" in Run(l, first) && Run(l, first)["k"] == Bucket(l.Gain(IDLE + 1) - 1.0, IDLE + 1)
    ensures !Decision(l, first + Volley("k", IDLE + 1, n - 1), "k", IDLE + 1)
  {
    VolleyTokens(l, first, "k", IDLE + 1, n - 1);
    NoTimeNoGain(l, Run(l, first + Volley("k", IDLE + 1, n - 1)), "k", IDLE + 1);
  }

  lemma PaidBelowBurst(l: Limits)
    requires l.Valid() && !IdleFills(l)
    ensures Paid(l) < l.burst
  {
  }

  lemma EvictedAdmits(l: Limits)
    requires l.Valid() && !IdleFills(l)
    ensures Decision(l, DrainEvictDrain(l), "k", IDLE + 1)
  {
    DrainedAndEvicted(l);
    PaidBelowBurst(l);
    var es := Drain(l) + [Cleanup(IDLE + 1)];
    if Paid(l) == 0 {
      assert DrainEvictDrain(l) == es;
    } else {
      FreshVolley(l, es, "k", IDLE + 1, Paid(l));
      NoTimeNoGain(l, Run(l, DrainEvictDrain(l)), "k", IDLE + 1);
    }
  }

  lemma DrainEvictDrainOrdered(l: Limits)
    requires l.Valid()
    ensures Ordered(DrainEvictDrain(l)) && Until(DrainEvictDrain(l), IDLE + 1)
  {
  }

  /** When the idle time does not refill the burst, eviction shows. */
  lemma EvictionObservable(l: Limits)
    requires l.Valid() && !IdleFills(l)
    ensures Ordered(DrainEvictDrain(l)) && Until(DrainEvictDrain(l), IDLE + 1)
    ensures !EvictionHidden(l, DrainEvictDrain(l), "k", IDLE + 1)
  {
    DrainEvictDrainOrdered(l);
    DrainedAndEvicted(l);
    WithoutCleanupOfCalls(Drain(l) + [Cleanup(IDLE + 1)], Paid(l), "k", IDLE + 1);
    KeptRefuses(l);
    EvictedAdmits(l);
  }

  /**
   Eviction can never be noticed, whatever the run, if and only if the burst is
   at most what the shortest evictable idle time earns.  (burst <= 300 * rps is
   enough; a nanosecond of slack comes from the strict comparison.)
   */
  lemma EvictionUnobservableIff(l: Limits)
    requires l.Valid()
    ensures IdleFills(l) <==>
            forall es, key, t | Ordered(es) && Until(es, t) :: EvictionHidden(l, es, key, t)
    ensures IdleFills(l) <==> l.burst as real <= l.rps * 300.000000001
    ensures l.burst as real <= 300.0 * l.rps ==> IdleFills(l)
  {
    GainInSeconds(l, IDLE + 1);
    if IdleFills(l) {
      forall es, key, t | Ordered(es) && Until(es, t) ensures EvictionHidden(l, es, key, t) {
        EvictionUnobservable(l, es, key, t);
      }
    } else {
      EvictionObservable(l);
    }
    FiveMinutesSuffice(l);
  }

  lemma FiveMinutesSuffice(l: Limits)
    requires l.Valid()
    ensures l.burst as real <= 300.0 * l.rps ==> IdleFills(l)
  {
    GainMonotone(l, IDLE, IDLE + 1);
  }

  // ----- The window bound with cleanups, exactly

  function Repeat(t: int, n: nat): seq<int> {
    seq(n, _ => t)
  }

  lemma FreshVolleyNext(l: Limits, es: seq<Event>, key: string, at: int, n: nat)
    requires l.Valid() && key !in Run(l, es) && n < l.burst
    ensures Decision(l, es + Volley(key, at, n), key, at)
  {
    if n == 0 {
      assert es + Volley(key, at, 0) == es;
    } else {
      FreshVolley(l, es, key, at, n);
      NoTimeNoGain(l, Run(l, es + Volley(key, at, n)), key, at);
    }
  }

  /** A volley on a bucket that is not there is admitted as long as the burst lasts. */
  lemma {:induction false} FreshVolleyAdmitted(l: Limits, es: seq<Event>, key: string, at: int, n: nat)
    requires l.Valid() && key !in Run(l, es) && n <= l.burst
    ensures Admitted(l, es + Volley(key, at, n), key) == Admitted(l, es, key) + Repeat(at, n)
  {
    if n == 0 {
      assert es + Volley(key, at, 0) == es;
    } else {
      FreshVolleyAdmitted(l, es, key, at, n - 1);
      FreshVolleyNext(l, es, key, at, n - 1);
      AdmittedSnoc(l, es + Volley(key, at, n - 1), Call(key, at), key);
      OneMore(es, Admitted(l, es, key), key, at, n - 1);
    }
  }

  lemma OneMore(es: seq<Event>, h: seq<int>, key: string, at: int, n: nat)
    ensures es + Volley(key, at, n) + [Call(key, at)] == es + Volley(key, at, n + 1)
    ensures h + Repeat(at, n) + [at] == h + Repeat(at, n + 1)
  {
  }

  /** Drained, evicted, and drained by one call more than the idle time pays for. */
  function Overdraw(l: Limits): seq<Event>
    requires l.Valid()
  {
    Drain(l) + [Cleanup(IDLE + 1)] + Volley("k", IDLE + 1, Paid(l) + 1)
  }

  lemma DrainAdmitted(l: Limits)
    requires l.Valid()
    ensures Admitted(l, Drain(l), "k") == Repeat(0, l.burst)
  {
    FreshVolleyAdmitted(l, [], "k", 0, l.burst);
    assert [] + Drain(l) == Drain(l) && [] + Repeat(0, l.burst) == Repeat(0, l.burst);
  }

  lemma DrainEvictAdmitted(l: Limits)
    requires l.Valid()
    ensures Admitted(l, Drain(l) + [Cleanup(IDLE + 1)], "k") == Repeat(0, l.burst)
  {
    DrainAdmitted(l);
    AdmittedSnoc(l, Drain(l), Cleanup(IDLE + 1), "k");
  }

  lemma OverdrawAdmitted(l: Limits)
    requires l.Valid() && !IdleFills(l)
    ensures Admitted(l, Overdraw(l), "k") == Repeat(0, l.burst) + Repeat(IDLE + 1, Paid(l) + 1)
  {
    DrainEvictAdmitted(l);
    DrainedAndEvicted(l);
    PaidBelowBurst(l);
    FreshVolleyAdmitted(l, Drain(l) + [Cleanup(IDLE + 1)], "k", IDLE + 1, Paid(l) + 1);
  }

  /** When the idle time does not refill the burst, an ordered run exceeds the window bound. */
  lemma OverdrawExceeds(l: Limits)
    requires l.Valid() && !IdleFills(l)
    ensures Ordered(Overdraw(l)) && !Within(l, Admitted(l, Overdraw(l), "k"))
  {
    OverdrawAdmitted(l);
    TooMany(l, Repeat(0, l.burst) + Repeat(IDLE + 1, Paid(l) + 1));
  }

  lemma PaidIsAlmostAll(l: Limits)
    requires l.Valid()
    ensures (Paid(l) + 1) as real > l.Gain(IDLE + 1)
  {
  }

  lemma TooManyForRate(l: Limits)
    requires l.Valid()
    ensures !KeepsRate(l, l.burst + Paid(l) + 1, IDLE + 1)
  {
    PaidIsAlmostAll(l);
    KeepsRateIff(l, l.burst + Paid(l) + 1, IDLE + 1);
  }

  lemma TooMany(l: Limits, h: seq<int>)
    requires l.Valid() && |h| == l.burst + Paid(l) + 1 && h[0] == 0 && h[|h| - 1] == IDLE + 1
    ensures !Within(l, h)
  {
    var last := |h| - 1;
    PaidIsAlmostAll(l);
    assert !((last - 0 + 1) as real <= l.burst as real + l.Gain(h[last] - h[0]));
  }

  /** The window bound holds in all ordered runs with cleanups if and only if the idle time refills the burst. */
  lemma WindowBoundWithCleanupsIff(l: Limits)
    requires l.Valid()
    ensures IdleFills(l) <==> forall es, key | Ordered(es) :: Within(l, Admitted(l, es, key))
  {
    if IdleFills(l) {
      forall es, key | Ordered(es) ensures Within(l, Admitted(l, es, key)) {
        WindowBoundWithCleanups(l, es, key);
      }
    } else {
      OverdrawExceeds(l);
    }
  }
}
