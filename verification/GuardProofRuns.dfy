/** DPoP replay over whole runs of the guard. */
module GuardProofRuns {
  import opened Options
  import opened Clock
  import opened TokenCache
  import opened Guard
  import opened GuardRequests
  import opened GuardRuns
  import PolicyEngine
  import opened GuardCacheRuns
  import Revocation
  import Dpop

  /** The i-th request passed proof validation with the proof `p`. */
  ghost predicate ProvedAt(env: Settings, config: Option<PolicyEngine.Config>, es: seq<Event>, i: nat, p: Dpop.Proof)
    requires env.Valid() && env.dpop.Some?
  {
    && i < |es| && es[i].Ask? && es[i].req.proof == Some(p)
    && var s := Run(env, config, es[..i]);
       && Limit(env, s, es[i].req, es[i].at).1 && Unidentified(es[i].req).None?
       && Prove(env, s.store, es[i].req, es[i].at).1.None?
  }

  /** The jti is still recorded with an expiry no earlier than `until`, or that moment has passed. */
  ghost predicate Recorded(m: Store, jti: string, until: int, now: int) {
    now > until || (Key(ProofJti, jti) in m && until <= m[Key(ProofJti, jti)].expiresAt)
  }

  /** The n-th event is a webhook that deletes the record of a jti. */
  ghost predicate RecordRevokedAt(env: Settings, config: Option<PolicyEngine.Config>, es: seq<Event>, n: nat, jti: string)
    requires env.Valid()
  {
    RevokedAt(env, config, es, n, Key(ProofJti, jti))
  }

  lemma CachingKeepsRecord(m: Store, hash: string, c: Claims, ttl: int, now: int, jti: string)
    requires IsTokenKey(hash) && ttl > 0
    ensures
      var (m', k) := (Revocation.CachedStore(m, hash, c, ttl, now), Key(ProofJti, jti));
      (k in m' <==> k in m) && (k in m ==> m'[k] == m[k])
  {
    NoSpaceHoldsTokenKeys(ProofJti, jti);
    var m0 := Put(m, hash, c, ttl, now);
    Revocation.JtiIndexedAt(m0, c.jti, hash, ttl, now, ProofJti, jti);
    var m1 := Revocation.JtiIndexed(m0, c.jti, hash, ttl, now);
    Revocation.GroupIndexedAt(m1, SubjectIndex, c.subject, hash, ttl, now, ProofJti, jti);
    var m2 := Revocation.GroupIndexed(m1, SubjectIndex, c.subject, hash, ttl, now);
    Revocation.GroupIndexedAt(m2, SessionIndex, c.sessionId, hash, ttl, now, ProofJti, jti);
  }

  lemma ProvedKeepsRecord(env: Settings, m: Store, r: Request, now: nat, jti: string, until: int)
    requires env.Valid() && Unidentified(r).None? && Recorded(m, jti, until, now)
    ensures Recorded(ProvedStore(env, m, r, now), jti, until, now)
  {
    if r.proof.Some? {
      KeySpacesDisjoint(ProofJti, jti, ProofJti, r.proof.value.jti);
    }
  }

  lemma IntrospectedKeepsRecord(env: Settings, m: Store, r: Request, now: nat, jti: string, until: int)
    requires Unidentified(r).None? && Recorded(m, jti, until, now)
    ensures Recorded(IntrospectedStore(env, m, r, now), jti, until, now)
  {
    var answer := r.provider.value.answer;
    if answer.Some? && Lifetime(answer.value, CACHE_TTL, now) > 0 {
      CachingKeepsRecord(m, HashToken(env.sha, r.token.value), answer.value, Lifetime(answer.value, CACHE_TTL, now), now, jti);
    }
  }

  lemma ServeKeepsRecord(env: Settings, s: State, r: Request, now: nat, jti: string, until: int)
    requires env.Valid() && Recorded(s.store, jti, until, now)
    ensures Recorded(Serve(env, s, r, now).0.store, jti, until, now)
  {
    ServeStore(env, s, r, now);
    if Unidentified(r).None? {
      ProvedKeepsRecord(env, s.store, r, now, jti, until);
      IntrospectedKeepsRecord(env, ProvedStore(env, s.store, r, now), r, now, jti, until);
    }
  }

  lemma NextKeepsRecord(env: Settings, s: State, e: Event, jti: string, until: int, before: int)
    requires env.Valid() && Recorded(s.store, jti, until, before) && before <= e.at
    requires e.Webhook? && env.caching ==> Key(ProofJti, jti) !in Revocation.Targets(s.store, e.event, e.at)
    ensures Recorded(Next(env, s, e).store, jti, until, e.at)
  {
    match e
    case Ask(at, req) => ServeKeepsRecord(env, s, req, at, jti, until);
    case Webhook(at, ev) => WebhookKeepsRecord(s.store, ev, at, jti, until);
    case _ =>
  }

  lemma WebhookKeepsRecord(m: Store, ev: Revocation.RevocationEvent, now: int, jti: string, until: int)
    requires Recorded(m, jti, until, now)
    ensures Key(ProofJti, jti) !in Revocation.Targets(m, ev, now) ==>
            Recorded(Revocation.Processed(m, ev, now).0, jti, until, now)
  {
  }

  lemma RecordStarts(env: Settings, config: Option<PolicyEngine.Config>, es: seq<Event>, i: nat, p: Dpop.Proof)
    requires env.Valid() && env.dpop.Some? && ProvedAt(env, config, es, i, p)
    ensures Recorded(Run(env, config, es[..i + 1]).store, p.jti, es[i].at + env.dpop.value.maxAge, es[i].at)
  {
    RunStep(env, config, es, i);
    ProofIsRecorded(env, Run(env, config, es[..i]), es[i].req, es[i].at, p);
  }

  lemma RecordStep(env: Settings, config: Option<PolicyEngine.Config>, es: seq<Event>, j: nat, jti: string, until: int)
    requires env.Valid() && Ordered(es) && 0 < j < |es| && !RecordRevokedAt(env, config, es, j, jti)
    requires Recorded(Run(env, config, es[..j]).store, jti, until, es[j - 1].at)
    ensures Recorded(Run(env, config, es[..j + 1]).store, jti, until, es[j].at)
  {
    RunStep(env, config, es, j);
    NextKeepsRecord(env, Run(env, config, es[..j]), es[j], jti, until, es[j - 1].at);
  }

  lemma {:induction false} RecordLasts(env: Settings, config: Option<PolicyEngine.Config>, es: seq<Event>, i: nat, j: nat, p: Dpop.Proof)
    requires env.Valid() && env.dpop.Some? && Ordered(es) && i < j <= |es| && ProvedAt(env, config, es, i, p)
    requires forall n: nat | i < n < j :: !RecordRevokedAt(env, config, es, n, p.jti)
    ensures Recorded(Run(env, config, es[..j]).store, p.jti, es[i].at + env.dpop.value.maxAge, es[j - 1].at)
  {
    if j == i + 1 {
      RecordStarts(env, config, es, i, p);
    } else {
      RecordLasts(env, config, es, i, j - 1, p);
      RecordStep(env, config, es, j - 1, p.jti, es[i].at + env.dpop.value.maxAge);
    }
  }

  lemma ProofIsRecorded(env: Settings, s: State, r: Request, now: nat, p: Dpop.Proof)
    requires env.Valid() && env.dpop.Some? && r.proof == Some(p)
    requires Limit(env, s, r, now).1 && Unidentified(r).None? && Prove(env, s.store, r, now).1.None?
    ensures Recorded(Serve(env, s, r, now).0.store, p.jti, now + env.dpop.value.maxAge, now)
  {
    var m1 := ProvedStore(env, s.store, r, now);
    assert Recorded(m1, p.jti, now + env.dpop.value.maxAge, now);
    IntrospectedKeepsRecord(env, m1, r, now, p.jti, now + env.dpop.value.maxAge);
    assert Serve(env, s, r, now).0.store == IntrospectedStore(env, m1, r, now);
  }

  /**
   Two accepted proofs with one jti lie more than the maximum age apart, unless a webhook
   deleted the record between them.  If it is the same proof, it was dated in the future
   at the first acceptance, and the second falls within the skew allowance; section 11.1
   of RFC 9449.
   */
  lemma SameJtiFarApart(env: Settings, config: Option<PolicyEngine.Config>, es: seq<Event>, i: nat, j: nat, p: Dpop.Proof, q: Dpop.Proof)
    requires env.Valid() && env.dpop.Some? && Ordered(es) && i < j
    requires ProvedAt(env, config, es, i, p) && ProvedAt(env, config, es, j, q) && p.jti == q.jti
    ensures
      || (exists n: nat | i < n < j :: RecordRevokedAt(env, config, es, n, p.jti))
      || (&& es[j].at > es[i].at + env.dpop.value.maxAge
          && (p == q ==> p.iat > es[i].at && es[j].at <= es[i].at + env.dpop.value.maxAge + 5 * SECOND))
  {
    if forall n: nat | i < n < j :: !RecordRevokedAt(env, config, es, n, p.jti) {
      RecordLasts(env, config, es, i, j, p);
      var (rules, m, r) := (env.dpop.value, Run(env, config, es[..j]).store, es[j].req);
      assert es[j - 1].at <= es[j].at;
      assert Dpop.Accepts(rules, env.sha, m, q, r.token.value, es[j].at);
      if es[j].at <= es[i].at + rules.maxAge {
        Dpop.RecordedJtiBlocks(rules, env.sha, m, q, r.token.value, es[i].at, es[j].at);
      }
      Dpop.LateAcceptance(rules, env.sha, m, q, r.token.value, es[i].at, es[j].at);
      assert Dpop.Accepts(rules, env.sha, Run(env, config, es[..i]).store, p, es[i].req.token.value, es[i].at);
    }
  }

  /** A forwarded request passed proof validation. */
  lemma ForwardedIsProved(env: Settings, config: Option<PolicyEngine.Config>, es: seq<Event>, i: nat)
    requires env.Valid() && env.dpop.Some? && ForwardedAt(env, config, es, i)
    ensures es[i].req.proof.Some? && ProvedAt(env, config, es, i, es[i].req.proof.value)
  {
    ForwardedExactly(env, Run(env, config, es[..i]), es[i].req, es[i].at);
    ProvenIff(env, Run(env, config, es[..i]).store, es[i].req, es[i].at);
  }

  /**
   Two forwarded requests whose proofs share a jti lie more than the maximum age apart,
   unless a webhook deleted the record between them; with the same proof, the second falls
   within the skew allowance.
   */
  lemma ForwardedFarApart(env: Settings, config: Option<PolicyEngine.Config>, es: seq<Event>, i: nat, j: nat)
    requires env.Valid() && env.dpop.Some? && Ordered(es) && i < j
    requires ForwardedAt(env, config, es, i) && ForwardedAt(env, config, es, j)
    ensures es[i].req.proof.Some? && es[j].req.proof.Some?
    ensures
      var (p, q) := (es[i].req.proof.value, es[j].req.proof.value);
      p.jti == q.jti ==>
        || (exists n: nat | i < n < j :: RecordRevokedAt(env, config, es, n, p.jti))
        || (&& es[j].at > es[i].at + env.dpop.value.maxAge
            && (p == q ==> p.iat > es[i].at && es[j].at <= es[i].at + env.dpop.value.maxAge + 5 * SECOND))
  {
    ForwardedIsProved(env, config, es, i);
    ForwardedIsProved(env, config, es, j);
    var (p, q) := (es[i].req.proof.value, es[j].req.proof.value);
    if p.jti == q.jti {
      SameJtiFarApart(env, config, es, i, j, p, q);
    }
  }

  /**
   When a webhook deletes a record: exactly when it names the record's raw key, as the
   token hash, or as a jti that no index entry resolves.
   */
  lemma RecordRevokedIff(env: Settings, config: Option<PolicyEngine.Config>, es: seq<Event>, n: nat, jti: string)
    requires env.Valid() && n < |es| && es[n].Webhook?
    ensures
      var (m, ev, k) := (Run(env, config, es[..n]).store, es[n].event, "dpop:jti:" + jti);
      RecordRevokedAt(env, config, es, n, jti) <==>
        env.caching && (ev.tokenHash == k
                        || (ev.tokenHash == "" && ev.jti == k && Revocation.IndexHashes(m, "idx:jti:" + k, es[n].at) == []))
  {
    var (m, ev, now) := (Run(env, config, es[..n]).store, es[n].event, es[n].at);
    StoreIsCacheRun(env, config, es[..n]);
    Revocation.RunListsTokens(CacheSteps(env, config, es[..n]));
    RecordIsNoTarget(m, ev, now, jti);
  }

  lemma RecordIsNoTarget(m: Store, ev: Revocation.RevocationEvent, now: int, jti: string)
    requires Revocation.ListsTokens(m)
    ensures
      var k := Key(ProofJti, jti);
      k in Revocation.Targets(m, ev, now) <==>
        ev.tokenHash == k || (ev.tokenHash == "" && ev.jti == k && Revocation.IndexHashes(m, Key(JtiIndex, k), now) == [])
  {
    NoSpaceHoldsTokenKeys(ProofJti, jti);
    KeySpacesDisjoint(ProofJti, jti, JtiIndex, ev.jti);
    KeySpacesDisjoint(ProofJti, jti, SubjectIndex, ev.subject);
    KeySpacesDisjoint(ProofJti, jti, SessionIndex, ev.sessionId);
    Revocation.ListedAreTokens(m, JtiIndex, ev.jti, now);
    Revocation.ListedAreTokens(m, SubjectIndex, ev.subject, now);
    Revocation.ListedAreTokens(m, SessionIndex, ev.sessionId, now);
    assert Key(ProofJti, jti) != "";
  }

  /** The exception is real: once its record is deleted, the same proof is accepted again at once. */
  lemma RevokedRecordReopens(rules: Dpop.Rules, sha: string -> Digest, m: Store, p: Dpop.Proof, token: string, t: nat, ev: Revocation.RevocationEvent)
    requires rules.Valid() && Dpop.Accepts(rules, sha, m, p, token, t)
    requires Key(ProofJti, p.jti) in Revocation.Targets(Dpop.Validated(rules, sha, m, Some(p), token, t).0, ev, t)
    ensures
      var m' := Dpop.Validated(rules, sha, m, Some(p), token, t).0;
      Dpop.Accepts(rules, sha, Revocation.Processed(m', ev, t).0, p, token, t)
  {
    var m' := Dpop.Validated(rules, sha, m, Some(p), token, t).0;
    Revocation.RevocationIsTargeted(m', ev, t, Key(ProofJti, p.jti), t);
  }

  // ----- Where records come from

  /** The event is a request whose proof carries the jti. */
  ghost predicate Carries(e: Event, jti: string) {
    e.Ask? && e.req.proof.Some? && e.req.proof.value.jti == jti
  }

  lemma ProvedAtRecord(env: Settings, m: Store, r: Request, now: nat, jti: string)
    requires env.Valid() && Unidentified(r).None? && Key(ProofJti, jti) in ProvedStore(env, m, r, now)
    ensures Key(ProofJti, jti) in m || Carries(Ask(now, r), jti)
  {
    if r.proof.Some? {
      KeySpacesDisjoint(ProofJti, jti, ProofJti, r.proof.value.jti);
    }
  }

  lemma IntrospectedAtRecord(env: Settings, m: Store, r: Request, now: nat, jti: string)
    requires Unidentified(r).None? && Key(ProofJti, jti) in IntrospectedStore(env, m, r, now)
    ensures Key(ProofJti, jti) in m
  {
    var answer := r.provider.value.answer;
    if answer.Some? && Lifetime(answer.value, CACHE_TTL, now) > 0 {
      CachingKeepsRecord(m, HashToken(env.sha, r.token.value), answer.value, Lifetime(answer.value, CACHE_TTL, now), now, jti);
    }
  }

  lemma ServeAtRecord(env: Settings, s: State, r: Request, now: nat, jti: string)
    requires env.Valid() && Key(ProofJti, jti) in Serve(env, s, r, now).0.store
    ensures Key(ProofJti, jti) in s.store || Carries(Ask(now, r), jti)
  {
    ServeStore(env, s, r, now);
    if Limit(env, s, r, now).1 && Unidentified(r).None? {
      if Prove(env, s.store, r, now).1.None? {
        IntrospectedAtRecord(env, ProvedStore(env, s.store, r, now), r, now, jti);
      }
      ProvedAtRecord(env, s.store, r, now, jti);
    }
  }

  /** Every recorded jti was carried by the proof of an earlier request. */
  lemma {:induction false} RecordsAreTraced(env: Settings, config: Option<PolicyEngine.Config>, es: seq<Event>, jti: string)
    requires env.Valid()
    ensures Key(ProofJti, jti) in Run(env, config, es).store ==> exists i | 0 <= i < |es| :: Carries(es[i], jti)
  {
    if es != [] && Key(ProofJti, jti) in Run(env, config, es).store {
      var (init, e) := (es[..|es| - 1], es[|es| - 1]);
      RecordsAreTraced(env, config, init, jti);
      NextAtRecord(env, Run(env, config, init), e, jti);
      if Carries(e, jti) {
        assert es[|es| - 1] == e;
      } else {
        var i :| 0 <= i < |init| && Carries(init[i], jti);
        assert es[i] == init[i];
      }
    }
  }

  lemma NextAtRecord(env: Settings, s: State, e: Event, jti: string)
    requires env.Valid() && Key(ProofJti, jti) in Next(env, s, e).store
    ensures Key(ProofJti, jti) in s.store || Carries(e, jti)
  {
    match e
    case Ask(at, req) => ServeAtRecord(env, s, req, at, jti);
    case Webhook(at, ev) => Revocation.ProcessedOnlyDeletes(s.store, ev, at);
    case _ =>
  }
}
