/**
 How permissive the rate limiter is, among all ways of admitting some of the calls on
 one key so that every window stays within burst + rps * length.
 */
module LimiterOptimality {
  import opened Clock
  import opened RateLimiter

  /** The times of the selected calls. */
  function Pick(ts: seq<int>, sel: seq<bool>): seq<int>
    requires |sel| == |ts|
  {
    if ts == [] then []
    else Pick(ts[..|ts| - 1], sel[..|ts| - 1]) + if sel[|ts| - 1] then [ts[|ts| - 1]] else []
  }

  /** The calls that the sliding window admits. */
  function GreedyMask(l: Limits, ts: seq<int>): (sel: seq<bool>)
    ensures |sel| == |ts|
  {
    if ts == [] then []
    else
      var init := ts[..|ts| - 1];
      GreedyMask(l, init) + [WindowAdmits(l, WindowGreedy(l, init), ts[|ts| - 1])]
  }

  ghost predicate Includes(sel: seq<bool>, other: seq<bool>) {
    |sel| == |other| && forall i | 0 <= i < |sel| && other[i] :: sel[i]
  }

  ghost predicate OrderedTimes(ts: seq<int>) {
    forall i, j | 0 <= i < j < |ts| :: ts[i] <= ts[j]
  }

  lemma {:induction false} GreedyPicks(l: Limits, ts: seq<int>)
    ensures Pick(ts, GreedyMask(l, ts)) == WindowGreedy(l, ts)
  {
    if ts != [] {
      var init := ts[..|ts| - 1];
      GreedyPicks(l, init);
      assert GreedyMask(l, ts)[..|ts| - 1] == GreedyMask(l, init);
    }
  }

  lemma WithinPrefix(l: Limits, h: seq<int>, t: int)
    requires Within(l, h + [t])
    ensures Within(l, h) && WindowAdmits(l, h, t)
  {
    var h' := h + [t];
    forall i, j | 0 <= i <= j < |h| ensures (j - i + 1) as real <= l.burst as real + l.Gain(h[j] - h[i]) {
      assert h'[i] == h[i] && h'[j] == h[j];
    }
    forall i | 0 <= i < |h| ensures (|h| - i + 1) as real <= l.burst as real + l.Gain(t - h[i]) {
      assert h'[i] == h[i] && h'[|h|] == t;
    }
  }

  lemma IncludesInit(l: Limits, ts: seq<int>, sel: seq<bool>)
    requires ts != [] && Includes(sel, GreedyMask(l, ts))
    ensures Includes(sel[..|ts| - 1], GreedyMask(l, ts[..|ts| - 1]))
  {
    var (n, mask) := (|ts| - 1, GreedyMask(l, ts));
    assert mask[..n] == GreedyMask(l, ts[..n]);
    forall i | 0 <= i < n && mask[..n][i] ensures sel[..n][i] {
      assert mask[i] && sel[i];
    }
  }

  /** No selection within the bound admits everything the limiter admits and a call more. */
  lemma {:induction false} GreedyIsMaximal(l: Limits, ts: seq<int>, sel: seq<bool>)
    requires Includes(sel, GreedyMask(l, ts)) && Within(l, Pick(ts, sel))
    ensures sel == GreedyMask(l, ts)
  {
    if ts != [] {
      var n := |ts| - 1;
      IncludesInit(l, ts, sel);
      PrefixesWithin(l, ts, sel, n);
      GreedyIsMaximal(l, ts[..n], sel[..n]);
      LastIsGreedy(l, ts, sel);
      assert sel == sel[..n] + [sel[n]];
    }
  }

  lemma LastIsGreedy(l: Limits, ts: seq<int>, sel: seq<bool>)
    requires ts != [] && Includes(sel, GreedyMask(l, ts)) && Within(l, Pick(ts, sel))
    requires sel[..|ts| - 1] == GreedyMask(l, ts[..|ts| - 1])
    ensures sel[|ts| - 1] == WindowAdmits(l, WindowGreedy(l, ts[..|ts| - 1]), ts[|ts| - 1])
  {
    var n := |ts| - 1;
    GreedyPicks(l, ts[..n]);
    assert GreedyMask(l, ts)[n] == WindowAdmits(l, WindowGreedy(l, ts[..n]), ts[n]);
    if sel[n] {
      WithinPrefix(l, Pick(ts[..n], sel[..n]), ts[n]);
    }
  }

  /** The call that put the i-th entry into the window's history. */
  lemma {:induction false} GreedyEntry(l: Limits, ts: seq<int>, i: nat) returns (n: nat)
    requires i < |WindowGreedy(l, ts)|
    ensures n < |ts| && ts[n] == WindowGreedy(l, ts)[i] && |WindowGreedy(l, ts[..n])| == i
  {
    var init := ts[..|ts| - 1];
    if i < |WindowGreedy(l, init)| {
      n := GreedyEntry(l, init, i);
      assert init[..n] == ts[..n];
    } else {
      n := |ts| - 1;
    }
  }

  /** Entries of a selection beyond those of the first `n` calls are no earlier than the n-th call. */
  lemma {:induction false} LaterEntries(ts: seq<int>, sel: seq<bool>, n: nat, i: nat)
    requires |sel| == |ts| && OrderedTimes(ts) && n < |ts|
    requires |Pick(ts[..n], sel[..n])| <= i < |Pick(ts, sel)|
    ensures Pick(ts, sel)[i] >= ts[n]
  {
    var m := |ts| - 1;
    var h := Pick(ts[..m], sel[..m]);
    if i < |h| {
      assert n < m;
      assert ts[..m][..n] == ts[..n] && sel[..m][..n] == sel[..n];
      LaterEntries(ts[..m], sel[..m], n, i);
    }
  }

  lemma GainOrder(l: Limits, t: int, a: int, b: int)
    requires l.Valid() && a <= b
    ensures l.Gain(t - b) <= l.Gain(t - a)
  {
    GainMonotone(l, t - b, t - a);
  }

  /** The window from the i-th entry to the last one. */
  lemma LastWindow(l: Limits, h: seq<int>, i: nat)
    requires Within(l, h) && i < |h|
    ensures (|h| - i) as real <= l.burst as real + l.Gain(h[|h| - 1] - h[i])
  {
    var j := |h| - 1;
    assert (j - i + 1) as real <= l.burst as real + l.Gain(h[j] - h[i]);
  }

  /** The call, and its position in the window's history, whose window a refused call would overfill. */
  lemma RefusingEntry(l: Limits, ts: seq<int>, t: int) returns (n: nat, i: nat)
    requires !WindowAdmits(l, WindowGreedy(l, ts), t)
    ensures n < |ts| && i < |WindowGreedy(l, ts)| && |WindowGreedy(l, ts[..n])| == i
    ensures (|WindowGreedy(l, ts)| - i + 1) as real > l.burst as real + l.Gain(t - ts[n])
  {
    var g := WindowGreedy(l, ts);
    i :| 0 <= i < |g| && (|g| - i + 1) as real > l.burst as real + l.Gain(t - g[i]);
    n := GreedyEntry(l, ts, i);
  }

  /** A selection that takes a call which would overfill a window of `g` entries has no more than `g` itself. */
  lemma RefusedCallCosts(l: Limits, ts: seq<int>, sel: seq<bool>, n: nat, i: nat, g: nat)
    requires l.Valid() && |sel| == |ts| && OrderedTimes(ts) && n < |ts| && sel[|ts| - 1]
    requires |Pick(ts[..n], sel[..n])| <= i < |Pick(ts, sel)|
    requires
      var h := Pick(ts, sel);
      (|h| - i) as real <= l.burst as real + l.Gain(h[|h| - 1] - h[i])
    requires (g - i + 1) as real > l.burst as real + l.Gain(ts[|ts| - 1] - ts[n])
    ensures |Pick(ts, sel)| <= g
  {
    var h := Pick(ts, sel);
    LaterEntries(ts, sel, n, i);
    assert h[|h| - 1] == ts[|ts| - 1];
    GainOrder(l, ts[|ts| - 1], ts[n], h[i]);
  }

  /** Under an ordered clock no selection within the bound is longer than the limiter's. */
  lemma {:induction false} NoneLonger(l: Limits, ts: seq<int>, sel: seq<bool>)
    requires l.Valid() && |sel| == |ts| && OrderedTimes(ts) && Within(l, Pick(ts, sel))
    ensures |Pick(ts, sel)| <= |WindowGreedy(l, ts)|
    decreases |ts|
  {
    if ts != [] {
      var m := |ts| - 1;
      var (init, t) := (ts[..m], ts[m]);
      PrefixesWithin(l, ts, sel, m);
      NoneLonger(l, init, sel[..m]);
      var g := WindowGreedy(l, init);
      if sel[m] && !WindowAdmits(l, g, t) && |g| < |Pick(ts, sel)| {
        var n, i := RefusingEntry(l, init, t);
        assert init[..n] == ts[..n];
        PrefixesWithin(l, ts, sel, n);
        NoneLonger(l, ts[..n], sel[..n]);
        LastWindow(l, Pick(ts, sel), i);
        RefusedCallCosts(l, ts, sel, n, i, |g|);
      }
    }
  }

  lemma {:induction false} PrefixesWithin(l: Limits, ts: seq<int>, sel: seq<bool>, n: nat)
    requires |sel| == |ts| && n <= |ts| && Within(l, Pick(ts, sel))
    ensures Within(l, Pick(ts[..n], sel[..n]))
  {
    if n == |ts| {
      assert ts[..n] == ts && sel[..n] == sel;
    } else {
      var m := |ts| - 1;
      if sel[m] {
        WithinPrefix(l, Pick(ts[..m], sel[..m]), ts[m]);
      } else {
        assert Pick(ts, sel) == Pick(ts[..m], sel[..m]);
      }
      PrefixesWithin(l, ts[..m], sel[..m], n);
      assert ts[..m][..n] == ts[..n] && sel[..m][..n] == sel[..n];
    }
  }

  /**
   The limiter is as permissive as its bound lets it be.  Its admitted calls satisfy the
   bound; no selection of the calls on the key that satisfies it contains them and one
   more; and if the calls come in the order of their times, none is longer.
   */
  lemma MostPermissive(l: Limits, es: seq<Event>, key: string, sel: seq<bool>)
    requires l.Valid() && CallsOnly(es) && |sel| == |TimesOf(es, key)| && Within(l, Pick(TimesOf(es, key), sel))
    ensures
      var (ts, mask) := (TimesOf(es, key), GreedyMask(l, TimesOf(es, key)));
      && Admitted(l, es, key) == Pick(ts, mask) && Within(l, Admitted(l, es, key))
      && (Includes(sel, mask) ==> sel == mask)
      && (OrderedTimes(ts) ==> |Pick(ts, sel)| <= |Admitted(l, es, key)|)
  {
    RunIsGreedy(l, es, key);
    WindowBound(l, es, key);
    GreedyIsBest(l, TimesOf(es, key), sel);
  }

  lemma GreedyIsBest(l: Limits, ts: seq<int>, sel: seq<bool>)
    requires l.Valid() && |sel| == |ts| && Within(l, Pick(ts, sel))
    ensures WindowGreedy(l, ts) == Pick(ts, GreedyMask(l, ts))
    ensures Includes(sel, GreedyMask(l, ts)) ==> sel == GreedyMask(l, ts)
    ensures OrderedTimes(ts) ==> |Pick(ts, sel)| <= |WindowGreedy(l, ts)|
  {
    GreedyPicks(l, ts);
    if Includes(sel, GreedyMask(l, ts)) {
      GreedyIsMaximal(l, ts, sel);
    }
    if OrderedTimes(ts) {
      NoneLonger(l, ts, sel);
    }
  }

  // ----- Calls out of order

  /** A burst stamped `late`, a burst stamped 0 and a call stamped `d`, in this order. */
  function OutOfOrder(l: Limits, late: int, d: int): seq<int>
    requires l.Valid()
  {
    Repeat(late, l.burst) + EarlyCalls(l, d)
  }

  function EarlyCalls(l: Limits, d: int): seq<int>
    requires l.Valid()
  {
    Repeat(0, l.burst) + [d]
  }

  /** All calls but the first `n`. */
  function AllBut(n: nat, m: nat): seq<bool> {
    seq(n, _ => false) + seq(m, _ => true)
  }

  lemma {:induction false} PickAllBut(first: seq<int>, rest: seq<int>)
    ensures Pick(first + rest, AllBut(|first|, |rest|)) == rest
  {
    var (ts, sel) := (first + rest, AllBut(|first|, |rest|));
    if rest != [] {
      var init := rest[..|rest| - 1];
      PickAllBut(first, init);
      assert ts[..|ts| - 1] == first + init && sel[..|ts| - 1] == AllBut(|first|, |init|);
    } else if first != [] {
      var init := first[..|first| - 1];
      PickAllBut(init, []);
      assert ts[..|ts| - 1] == init + [] && sel[..|ts| - 1] == AllBut(|init|, 0);
    }
  }

  lemma EarlyCallsWithin(l: Limits, d: int)
    requires l.Valid() && l.Gain(d) >= 1.0
    ensures Within(l, EarlyCalls(l, d))
  {
    assert l.Gain(0) == 0.0;
  }

  lemma BurstAdmits(l: Limits, t: int, n: nat)
    requires l.Valid() && n < l.burst
    ensures WindowAdmits(l, Repeat(t, n), t)
  {
    assert l.Gain(0) == 0.0;
  }

  lemma RepeatSnoc(t: int, n: nat)
    ensures Repeat(t, n + 1) == Repeat(t, n) + [t] && Repeat(t, n + 1)[..n] == Repeat(t, n)
  {
  }

  lemma {:induction false} BurstAdmitted(l: Limits, t: int, n: nat)
    requires l.Valid() && n <= l.burst
    ensures WindowGreedy(l, Repeat(t, n)) == Repeat(t, n)
  {
    if n > 0 {
      BurstAdmitted(l, t, n - 1);
      RepeatSnoc(t, n - 1);
      BurstAdmits(l, t, n - 1);
    }
  }

  lemma EarlierRefused(l: Limits, late: int, t: int)
    requires l.Valid() && t <= late
    ensures !WindowAdmits(l, Repeat(late, l.burst), t)
  {
    var h := Repeat(late, l.burst);
    GainMonotone(l, t - late, 0);
    assert l.Gain(0) == 0.0 && h[0] == late;
    assert !((|h| - 0 + 1) as real <= l.burst as real + l.Gain(t - h[0]));
  }

  lemma {:induction false} EarlierAllRefused(l: Limits, late: int, ts: seq<int>)
    requires l.Valid() && forall i | 0 <= i < |ts| :: ts[i] <= late
    ensures WindowGreedy(l, Repeat(late, l.burst) + ts) == Repeat(late, l.burst)
  {
    var all := Repeat(late, l.burst) + ts;
    if ts == [] {
      assert all == Repeat(late, l.burst);
      BurstAdmitted(l, late, l.burst);
    } else {
      EarlierAllRefused(l, late, ts[..|ts| - 1]);
      assert all[..|all| - 1] == Repeat(late, l.burst) + ts[..|ts| - 1];
      EarlierRefused(l, late, ts[|ts| - 1]);
    }
  }

  /** Some time earns a call. */
  lemma SomeTimeEarns(l: Limits) returns (d: nat)
    requires l.Valid()
    ensures l.Gain(d) >= 1.0
  {
    d := (SECOND as real / l.rps).Floor + 1;
    assert l.rps * d as real >= SECOND as real by {
      assert l.rps * (SECOND as real / l.rps) == SECOND as real;
    }
  }

  /**
   Out of order, the limiter takes the late burst and nothing else, while the early calls
   keep the bound and are one more.
   */
  lemma LateBurstCrowdsOut(l: Limits, late: int, d: nat)
    requires l.Valid() && l.Gain(d) >= 1.0 && d <= late
    ensures
      var (ts, sel) := (OutOfOrder(l, late, d), AllBut(l.burst, l.burst + 1));
      && |sel| == |ts| && Pick(ts, sel) == EarlyCalls(l, d) && Within(l, Pick(ts, sel))
      && |WindowGreedy(l, ts)| == l.burst && |Pick(ts, sel)| == l.burst + 1
  {
    PickAllBut(Repeat(late, l.burst), EarlyCalls(l, d));
    EarlyCallsWithin(l, d);
    EarlierAllRefused(l, late, EarlyCalls(l, d));
  }

  /** For every limit there are calls, out of order, of which a longer selection within the bound exists. */
  lemma UnorderedCanBeLonger(l: Limits)
    requires l.Valid()
    ensures exists ts, sel | |sel| == |ts| :: Within(l, Pick(ts, sel)) && |Pick(ts, sel)| > |WindowGreedy(l, ts)|
  {
    var d := SomeTimeEarns(l);
    LateBurstCrowdsOut(l, d, d);
  }
}
