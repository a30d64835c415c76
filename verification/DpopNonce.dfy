/**
 Server-issued DPoP nonces, pkg/core/token/dpop.go and section 8 of RFC 9449.
 A nonce is the base64url of a MAC over the number of a time window; the MAC is
 a parameter, and that no other window number has the same MAC as the issuing
 one is a hypothesis where it is needed.  Times are nanoseconds since 1970.
 */
module DpopNonce {
  import opened Base64Url
  import opened Clock

  const DEFAULT_WINDOW := 300 * SECOND

  /** `mac` stands for HMAC-SHA256 under the secret, over the decimal window number. */
  datatype NonceProvider = NonceProvider(mac: int -> Bytes, window: int) {

    predicate Valid() {
      window > 0
    }

    function ForWindow(w: int): Bytes {
      Encoded(mac(w))
    }

    function Current(now: nat): Bytes
      requires Valid()
    {
      ForWindow(now / window)
    }

    predicate Accepts(nonce: Bytes, now: nat)
      requires Valid()
    {
      nonce != [] && (nonce == ForWindow(now / window) || nonce == ForWindow(now / window - 1))
    }

    /** The MAC of window `w` is not empty and not the MAC of any other window. */
    ghost predicate Distinguishes(w: int) {
      mac(w) != [] && forall v | v != w :: mac(v) != mac(w)
    }
  }

  function NewNonceProvider(mac: int -> Bytes, window: int): (n: NonceProvider)
    ensures n.Valid() && n.mac == mac
    ensures window > 0 ==> n.window == window
    ensures window <= 0 ==> n.window == DEFAULT_WINDOW
  {
    NonceProvider(mac, if window <= 0 then DEFAULT_WINDOW else window)
  }

  lemma SameNonceSameWindow(n: NonceProvider, w: int, v: int)
    requires n.Distinguishes(w)
    ensures n.ForWindow(w) == n.ForWindow(v) <==> w == v
    ensures n.ForWindow(w) != []
  {
    if n.ForWindow(w) == n.ForWindow(v) {
      EncodedInjective(n.mac(w), n.mac(v));
    }
  }

  lemma MulMonotone(a: int, b: int, w: int)
    requires a <= b && w > 0
    ensures a * w <= b * w
  {
    assert (b - a) * w >= 0;
  }

  lemma DivBounds(w: int, t: int)
    requires w > 0
    ensures (t / w) * w <= t < (t / w) * w + w
  {
  }

  lemma WindowOf(w: int, t: int, k: int)
    requires w > 0
    ensures t / w == k <==> k * w <= t < k * w + w
  {
    var q := t / w;
    DivBounds(w, t);
    if q < k {
      MulMonotone(q + 1, k, w);
    } else if q > k {
      MulMonotone(k + 1, q, w);
    }
  }

  /** `t` lies in the window of `now` or in the one before. */
  predicate Lately(t: int, now: nat, window: int)
    requires window > 0
  {
    now / window - 1 <= t / window <= now / window
  }

  /** A nonce is accepted exactly when it was current at some moment of this window or the last one. */
  lemma AcceptedWasIssued(n: NonceProvider, nonce: Bytes, now: nat)
    requires n.Valid()
    ensures n.Accepts(nonce, now) <==>
            nonce != [] && exists t :: Lately(t, now, n.window) && nonce == Encoded(n.mac(t / n.window))
  {
    var w := now / n.window;
    MultipleOf(w, n.window);
    MultipleOf(w - 1, n.window);
    if n.Accepts(nonce, now) {
      var t := if nonce == n.ForWindow(w) then w * n.window else (w - 1) * n.window;
      assert Lately(t, now, n.window) && nonce == Encoded(n.mac(t / n.window));
    }
  }

  lemma MultipleOf(w: int, x: int)
    requires x > 0
    ensures w * x / x == w
  {
    WindowOf(x, w * x, w);
  }

  /** The nonce of the window `w` is accepted exactly from the start of that window to the end of the next. */
  lemma WindowLifetime(n: NonceProvider, w: int, u: nat)
    requires n.Valid() && n.Distinguishes(w)
    ensures n.Accepts(n.ForWindow(w), u) <==> w * n.window <= u < (w + 2) * n.window
  {
    var v := u / n.window;
    SameNonceSameWindow(n, w, v);
    SameNonceSameWindow(n, w, v - 1);
    WindowOf(n.window, u, w);
    WindowOf(n.window, u, w + 1);
    Distribute(w, n.window);
  }

  lemma Distribute(w: int, x: int)
    ensures (w + 1) * x == w * x + x && (w + 2) * x == w * x + 2 * x
  {
  }

  /**
   A nonce issued at `t` is accepted at `u` exactly from the start of the window
   it was issued in to the end of the next one; hence everywhere in
   [t, t + window], and nowhere from t + 2 * window on.
   */
  lemma NonceLifetime(n: NonceProvider, t: nat, u: nat)
    requires n.Valid() && n.Distinguishes(t / n.window)
    ensures n.Accepts(n.Current(t), u) <==> (t / n.window) * n.window <= u < (t / n.window + 2) * n.window
    ensures t <= u <= t + n.window ==> n.Accepts(n.Current(t), u)
    ensures u >= t + 2 * n.window ==> !n.Accepts(n.Current(t), u)
  {
    WindowLifetime(n, t / n.window, u);
    DivBounds(n.window, t);
    Distribute(t / n.window, n.window);
  }
}
