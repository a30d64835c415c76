/**
 DPoP proofs (RFC 9449), pkg/core/token/dpop.go: freshness, token hash and nonce
 checks, replay detection by the proof's jti, and key binding.  Parsing the proof,
 verifying its signature and comparing htm and htu happen before; a proof that
 fails there is presented as None.
 */
module Dpop {
  import opened Options
  import opened Clock
  import opened Base64Url
  import opened TokenCache
  import opened DpopNonce

  const SKEW := 5 * SECOND
  const DEFAULT_MAX_AGE := 60 * SECOND

  /** `thumbprint` is None when the embedded key has none (RFC 7638). */
  datatype Proof = Proof(jti: string, iat: int, ath: Bytes, nonce: Bytes, thumbprint: Option<string>)

  datatype Failure =
    | Unusable | TooOld | FromTheFuture | MissingAth | AthMismatch | NonceRequired | MissingJti | Replayed

  datatype Rules = Rules(maxAge: int, nonces: Option<NonceProvider>) {
    predicate Valid() {
      maxAge > 0 && (nonces.Some? ==> nonces.value.Valid())
    }
  }

  /** A maximum age that is not positive becomes 60 s. */
  function NewRules(maxAge: int, nonces: Option<NonceProvider>): (r: Rules)
    requires nonces.Some? ==> nonces.value.Valid()
    ensures r.Valid() && r.nonces == nonces
    ensures maxAge > 0 ==> r.maxAge == maxAge
    ensures maxAge <= 0 ==> r.maxAge == DEFAULT_MAX_AGE
  {
    Rules(if maxAge <= 0 then DEFAULT_MAX_AGE else maxAge, nonces)
  }

  function TokenHash(sha: string -> Digest, token: string): Bytes {
    Encoded(sha(token))
  }

  predicate Fresh(p: Proof, maxAge: int, now: int) {
    now - p.iat <= maxAge && p.iat <= now + SKEW
  }

  /** The checks that do not touch the cache, in the order of the source; None is success. */
  function Defect(rules: Rules, sha: string -> Digest, presented: Option<Proof>, token: string, now: nat): Option<Failure>
    requires rules.Valid()
  {
    if presented.None? then Some(Unusable)
    else
      var p := presented.value;
      if now - p.iat > rules.maxAge then Some(TooOld)
      else if p.iat > now + SKEW then Some(FromTheFuture)
      else if p.ath == [] then Some(MissingAth)
      else if p.ath != TokenHash(sha, token) then Some(AthMismatch)
      else if rules.nonces.Some? && !rules.nonces.value.Accepts(p.nonce, now) then Some(NonceRequired)
      else None
  }

  /** Full validation: the store afterwards and the failure, if any. */
  function Validated(rules: Rules, sha: string -> Digest, m: Store, presented: Option<Proof>, token: string, now: nat)
    : (r: (Store, Option<Failure>))
    requires rules.Valid()
    ensures r.1.None? ==> presented.Some?
  {
    var defect := Defect(rules, sha, presented, token, now);
    if defect.Some? then (m, defect)
    else if presented.value.jti == "" then (m, Some(MissingJti))
    else
      var key := Key(ProofJti, presented.value.jti);
      if Lookup(m, key, now).Some? then (m, Some(Replayed))
      else (Put(m, key, BLANK, rules.maxAge, now), None)
  }

  class Validator {
    const rules: Rules
    const sha: string -> Digest
    const cache: MemoryCache

    constructor (maxAge: int, nonces: Option<NonceProvider>, sha: string -> Digest, cache: MemoryCache)
      requires nonces.Some? ==> nonces.value.Valid()
      ensures rules == NewRules(maxAge, nonces) && this.sha == sha && this.cache == cache
    {
      this.rules := NewRules(maxAge, nonces);
      this.sha := sha;
      this.cache := cache;
    }

    method Validate(presented: Option<Proof>, token: string, now: nat) returns (failure: Option<Failure>)
      requires rules.Valid()
      modifies cache
      ensures (cache.entries, failure) == Validated(rules, sha, old(cache.entries), presented, token, now)
    {
      failure := Defect(rules, sha, presented, token, now);
      if failure.Some? {
        return;
      }
      var p := presented.value;
      if p.jti == "" {
        return Some(MissingJti);
      }
      var key := Key(ProofJti, p.jti);
      var seen := cache.Get(key, now);
      if seen.Some? {
        return Some(Replayed);
      }
      cache.Set(key, BLANK, rules.maxAge, now);
      return None;
    }
  }

  /** Key binding, section 6.1 of RFC 9449. */
  predicate Bound(p: Proof, c: Claims) {
    c.jkt != "" && p.thumbprint == Some(c.jkt)
  }

  // ----- Replay

  predicate Accepts(rules: Rules, sha: string -> Digest, m: Store, p: Proof, token: string, now: nat)
    requires rules.Valid()
  {
    Validated(rules, sha, m, Some(p), token, now).1.None?
  }

  /** Exactly which proofs are accepted: fresh, made for this token, with a current nonce and an unused jti. */
  lemma AcceptsIff(rules: Rules, sha: string -> Digest, m: Store, p: Proof, token: string, now: nat)
    requires rules.Valid()
    ensures Accepts(rules, sha, m, p, token, now) <==>
            && now - p.iat <= rules.maxAge && p.iat <= now + 5 * SECOND
            && Decode(p.ath) == Some(sha(token)) && p.ath == Encoded(sha(token))
            && (rules.nonces.Some? ==> rules.nonces.value.Accepts(p.nonce, now))
            && p.jti != ""
            && Lookup(m, Key(ProofJti, p.jti), now).None?
  {
    RoundTrip(sha(token));
  }

  /** Why a proof is refused: the first of these checks that fails; nothing is recorded then. */
  lemma FailureIff(rules: Rules, sha: string -> Digest, m: Store, p: Proof, token: string, now: nat)
    requires rules.Valid()
    ensures
      var (m', why) := Validated(rules, sha, m, Some(p), token, now);
      var late := now - p.iat > rules.maxAge;
      var future := p.iat > now + 5 * SECOND;
      var mismatch := p.ath != Encoded(sha(token));
      var nonceless := rules.nonces.Some? && !rules.nonces.value.Accepts(p.nonce, now);
      var seen := Key(ProofJti, p.jti) in m && now <= m[Key(ProofJti, p.jti)].expiresAt;
      && (why == Some(TooOld) <==> late)
      && (why == Some(FromTheFuture) <==> !late && future)
      && (why == Some(MissingAth) <==> !late && !future && p.ath == [])
      && (why == Some(AthMismatch) <==> !late && !future && p.ath != [] && mismatch)
      && (why == Some(NonceRequired) <==> !late && !future && p.ath != [] && !mismatch && nonceless)
      && (why == Some(MissingJti) <==> !late && !future && p.ath != [] && !mismatch && !nonceless && p.jti == "")
      && (why == Some(Replayed) <==> !late && !future && p.ath != [] && !mismatch && !nonceless && p.jti != "" && seen)
      && (why.Some? ==> m' == m)
      && (why.None? ==> m' == m[Key(ProofJti, p.jti) := Entry(BLANK, now + rules.maxAge)])
    ensures Validated(rules, sha, m, None, token, now) == (m, Some(Unusable))
  {
  }

  /** While the record of a jti is live, no proof with that jti is accepted. */
  lemma RecordedJtiBlocks(rules: Rules, sha: string -> Digest, m: Store, p: Proof, token: string, t: int, u: nat)
    requires rules.Valid() && Accepts(rules, sha, m, p, token, u)
    requires Key(ProofJti, p.jti) in m && t + rules.maxAge <= m[Key(ProofJti, p.jti)].expiresAt
    ensures u > t + rules.maxAge
  {
  }

  /** Any proof accepted more than its maximum age after `t` was issued after `t`, and no later than the skew allows. */
  lemma LateAcceptance(rules: Rules, sha: string -> Digest, m: Store, p: Proof, token: string, t: int, u: nat)
    requires rules.Valid() && Accepts(rules, sha, m, p, token, u) && u > t + rules.maxAge
    ensures p.iat > t
    ensures p.iat <= t + SKEW ==> u <= t + rules.maxAge + SKEW
  {
  }

  /** When nonces are on, the proof carries the nonce of the window `w`, and no other window has it. */
  ghost predicate NonceOf(rules: Rules, p: Proof, w: int) {
    rules.nonces.Some? ==> p.nonce == rules.nonces.value.ForWindow(w) && rules.nonces.value.Distinguishes(w)
  }

  /** The nonce of the window `w`, if one is needed, is still accepted at `u`. */
  predicate NonceLasts(rules: Rules, w: int, u: int) {
    rules.nonces.Some? ==> u < (w + 2) * rules.nonces.value.window
  }

  /**
   A proof accepted at `t` can be accepted again, the store left to itself, if and only
   if it was dated in the future at `t` and its nonce, if nonces are on, outlives the
   record of its jti.
   */
  lemma AcceptedAgainIff(rules: Rules, sha: string -> Digest, m: Store, p: Proof, token: string, t: nat, w: int)
    requires rules.Valid() && NonceOf(rules, p, w) && Accepts(rules, sha, m, p, token, t)
    ensures
      var m' := Validated(rules, sha, m, Some(p), token, t).0;
      && p.iat > t && NonceLasts(rules, w, t + rules.maxAge + 1)
      <==> exists u: nat :: u >= t && Accepts(rules, sha, m', p, token, u)
  {
    var m' := Validated(rules, sha, m, Some(p), token, t).0;
    var next: nat := t + rules.maxAge + 1;
    NonceStillGood(rules, p, w, t, next);
    if p.iat > t && NonceLasts(rules, w, next) {
      assert Accepts(rules, sha, m', p, token, next);
    }
    forall u: nat | u >= t && Accepts(rules, sha, m', p, token, u) ensures p.iat > t && NonceLasts(rules, w, next) {
      RecordedJtiBlocks(rules, sha, m', p, token, t, u);
      LateAcceptance(rules, sha, m', p, token, t, u);
      NonceStillGood(rules, p, w, t, u);
    }
  }

  lemma NonceStillGood(rules: Rules, p: Proof, w: int, t: nat, u: nat)
    requires rules.Valid() && NonceOf(rules, p, w) && t <= u
    requires rules.nonces.Some? ==> rules.nonces.value.Accepts(p.nonce, t)
    ensures rules.nonces.Some? ==> (rules.nonces.value.Accepts(p.nonce, u) <==> NonceLasts(rules, w, u))
  {
    if rules.nonces.Some? {
      WindowLifetime(rules.nonces.value, w, t);
      WindowLifetime(rules.nonces.value, w, u);
    }
  }
}
