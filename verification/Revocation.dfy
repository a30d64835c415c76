/**
 The secondary index (token identifier, subject, session -> token hashes) and the
 revocation webhook, pkg/core/token/revocation.go.  The index lives in the token
 cache itself; one read-modify-write of it is one atomic step.
 */
module Revocation {
  import opened Options
  import opened Clock
  import opened TokenCache

  // ----- The operations

  function IndexEntry(hashes: seq<string>): Claims {
    BLANK.(hashes := Some(hashes))
  }

  function IndexHashes(m: Store, key: string, now: int): seq<string> {
    match Lookup(m, key, now)
    case Some(c) => if c.hashes.Some? then c.hashes.value else []
    case None => []
  }

  function Appended(m: Store, key: string, hash: string, ttl: int, now: int): Store {
    var hashes := IndexHashes(m, key, now);
    if hash in hashes then m else Put(m, key, IndexEntry(hashes + [hash]), ttl, now)
  }

  /** The entry of a token's own identifier names that token alone. */
  function JtiIndexed(m: Store, jti: string, hash: string, ttl: int, now: int): Store {
    if jti != "" then Put(m, Key(JtiIndex, jti), IndexEntry([hash]), ttl, now) else m
  }

  /** The list of a subject or session collects the hashes of its tokens. */
  function GroupIndexed(m: Store, s: Space, owner: string, hash: string, ttl: int, now: int): Store {
    if owner != "" then Appended(m, Key(s, owner), hash, ttl, now) else m
  }

  function Indexed(m: Store, hash: string, c: Claims, ttl: int, now: int): Store {
    if hash == "" || ttl <= 0 then m
    else
      var m1 := JtiIndexed(m, c.jti, hash, ttl, now);
      var m2 := GroupIndexed(m1, SubjectIndex, c.subject, hash, ttl, now);
      GroupIndexed(m2, SessionIndex, c.sessionId, hash, ttl, now)
  }

  function WithoutIndexed(m: Store, key: string, now: int): Store {
    m - (set h | h in IndexHashes(m, key, now)) - {key}
  }

  datatype RevocationEvent = RevocationEvent(
    tokenHash: string, jti: string, subject: string, sessionId: string, revokeAll: bool)

  /** The store after an event; false when the event names no token. */
  function Processed(m: Store, ev: RevocationEvent, now: int): (Store, bool) {
    if ev.tokenHash != "" then (m - {ev.tokenHash}, true)
    else if ev.jti != "" then
      var hashes := IndexHashes(m, Key(JtiIndex, ev.jti), now);
      if hashes != [] then (m - {Key(JtiIndex, ev.jti)} - {hashes[0]}, true) else (m - {ev.jti}, true)
    else if ev.sessionId != "" then (WithoutIndexed(m, Key(SessionIndex, ev.sessionId), now), true)
    else if ev.revokeAll && ev.subject != "" then (WithoutIndexed(m, Key(SubjectIndex, ev.subject), now), true)
    else (m, false)
  }

  method AppendIndexHash(cache: MemoryCache, key: string, hash: string, ttl: int, now: int)
    modifies cache
    ensures cache.entries == Appended(old(cache.entries), key, hash, ttl, now)
  {
    var hashes := ReadIndex(cache, key, now);
    for i := 0 to |hashes|
      invariant hash !in hashes[..i]
      invariant cache.entries == old(cache.entries)
    {
      if hashes[i] == hash {
        return;
      }
    }
    assert hashes[..|hashes|] == hashes;
    hashes := hashes + [hash];
    cache.Set(key, IndexEntry(hashes), ttl, now);
  }

  method ReadIndex(cache: MemoryCache, key: string, now: int) returns (hashes: seq<string>)
    ensures hashes == IndexHashes(cache.entries, key, now)
  {
    var entry := cache.Get(key, now);
    if entry.None? || entry.value.hashes.None? {
      return [];
    }
    return entry.value.hashes.value;
  }

  method IndexClaims(cache: MemoryCache, hash: string, c: Claims, ttl: int, now: int)
    modifies cache
    ensures cache.entries == Indexed(old(cache.entries), hash, c, ttl, now)
  {
    if hash == "" || ttl <= 0 {
      return;
    }
    if c.jti != "" {
      cache.Set(Key(JtiIndex, c.jti), IndexEntry([hash]), ttl, now);
    }
    if c.subject != "" {
      AppendIndexHash(cache, Key(SubjectIndex, c.subject), hash, ttl, now);
    }
    if c.sessionId != "" {
      AppendIndexHash(cache, Key(SessionIndex, c.sessionId), hash, ttl, now);
    }
  }

  method DeleteIndexedTokens(cache: MemoryCache, key: string, now: int)
    modifies cache
    ensures cache.entries == WithoutIndexed(old(cache.entries), key, now)
  {
    var hashes := ReadIndex(cache, key, now);
    for i := 0 to |hashes|
      invariant cache.entries == old(cache.entries) - set h | h in hashes[..i]
    {
      cache.Delete(hashes[i]);
      assert hashes[..i + 1] == hashes[..i] + [hashes[i]];
    }
    assert hashes[..|hashes|] == hashes;
    cache.Delete(key);
  }

  method Process(cache: MemoryCache, ev: RevocationEvent, now: int) returns (ok: bool)
    modifies cache
    ensures (cache.entries, ok) == Processed(old(cache.entries), ev, now)
  {
    if ev.tokenHash != "" {
      cache.Delete(ev.tokenHash);
      return true;
    }
    if ev.jti != "" {
      var hashes := ReadIndex(cache, Key(JtiIndex, ev.jti), now);
      if |hashes| > 0 {
        cache.Delete(Key(JtiIndex, ev.jti));
        cache.Delete(hashes[0]);
        return true;
      }
      cache.Delete(ev.jti);
      return true;
    }
    if ev.sessionId != "" {
      DeleteIndexedTokens(cache, Key(SessionIndex, ev.sessionId), now);
      return true;
    }
    if ev.revokeAll && ev.subject != "" {
      DeleteIndexedTokens(cache, Key(SubjectIndex, ev.subject), now);
      return true;
    }
    return false;
  }

  // ----- Targeted eviction

  /** The index key an event goes through, if it revokes a whole session or subject. */
  function GroupKey(ev: RevocationEvent): Option<string> {
    if ev.tokenHash != "" || ev.jti != "" then None
    else if ev.sessionId != "" then Some(Key(SessionIndex, ev.sessionId))
    else if ev.revokeAll && ev.subject != "" then Some(Key(SubjectIndex, ev.subject))
    else None
  }

  /** The keys an event deletes. */
  ghost function Targets(m: Store, ev: RevocationEvent, now: int): set<string> {
    if ev.tokenHash != "" then {ev.tokenHash}
    else if ev.jti != "" then
      var listed := IndexHashes(m, Key(JtiIndex, ev.jti), now);
      if listed == [] then {ev.jti} else {Key(JtiIndex, ev.jti), listed[0]}
    else if GroupKey(ev).Some? then
      {GroupKey(ev).value} + set h | h in IndexHashes(m, GroupKey(ev).value, now)
    else {}
  }

  /**
   Eviction is targeted.  A session or subject event deletes exactly the hashes of the
   live list and the list; a hash or jti event at most two keys; every other lookup, at
   any later time, is unchanged.
   */
  lemma RevocationIsTargeted(m: Store, ev: RevocationEvent, now: int, k: string, t: int)
    ensures Lookup(Processed(m, ev, now).0, k, t) == if k in Targets(m, ev, now) then None else Lookup(m, k, t)
    ensures Processed(m, ev, now).1 <==> ev.tokenHash != "" || ev.jti != "" || GroupKey(ev).Some?
  {
  }

  /**
   Which field of an event counts, and what is deleted for it: a token hash before a jti
   before a session, and a subject only when everything is to be revoked.
   */
  lemma EventPrecedence(m: Store, ev: RevocationEvent, now: int, k: string, t: int)
    ensures
      var deleted :=
        if ev.tokenHash != "" then k == ev.tokenHash
        else if ev.jti != "" then
          var listed := IndexHashes(m, "idx:jti:" + ev.jti, now);
          if listed == [] then k == ev.jti else k == "idx:jti:" + ev.jti || k == listed[0]
        else if ev.sessionId != "" then
          k == "idx:sid:" + ev.sessionId || k in IndexHashes(m, "idx:sid:" + ev.sessionId, now)
        else
          && ev.subject != "" && ev.revokeAll
          && (k == "idx:sub:" + ev.subject || k in IndexHashes(m, "idx:sub:" + ev.subject, now));
      Lookup(Processed(m, ev, now).0, k, t) == if deleted then None else Lookup(m, k, t)
    ensures !Processed(m, ev, now).1 <==>
            ev.tokenHash == "" && ev.jti == "" && ev.sessionId == "" && (ev.subject == "" || !ev.revokeAll)
  {
  }

  /** No event ever adds an entry or changes one. */
  lemma ProcessedOnlyDeletes(m: Store, ev: RevocationEvent, now: int)
    ensures
      var m' := Processed(m, ev, now).0;
      forall k | k in m' :: k in m && m'[k] == m[k]
  {
  }

  // ----- Runs of the index

  /** One step of the shared cache: claims cached and indexed, a proof's jti marked as seen, an event processed, a cleanup. */
  datatype Step =
    | Cached(at: int, hash: string, claims: Claims, ttl: int)
    | Marked(at: int, jti: string, ttl: int)
    | Revoked(at: int, event: RevocationEvent)
    | Cleaned(at: int)

  function Next(m: Store, e: Step): Store {
    match e
    case Cached(at, hash, c, ttl) => CachedStore(m, hash, c, ttl, at)
    case Marked(at, jti, ttl) => Put(m, Key(ProofJti, jti), BLANK, ttl, at)
    case Revoked(at, ev) => Processed(m, ev, at).0
    case Cleaned(at) => Purge(m, at)
  }

  /** What `introspect` does with an active token: cache the claims, then index them. */
  function CachedStore(m: Store, hash: string, c: Claims, ttl: int, now: int): Store {
    Indexed(Put(m, hash, c, ttl, now), hash, c, ttl, now)
  }

  function Run(es: seq<Step>): Store {
    if es == [] then map[] else Next(Run(es[..|es| - 1]), es[|es| - 1])
  }

  /** Token hashes have the shape of token hashes, and lifetimes are positive. */
  ghost predicate WellFormed(es: seq<Step>) {
    forall i | 0 <= i < |es| && es[i].Cached? :: IsTokenKey(es[i].hash) && es[i].ttl > 0
  }

  ghost predicate Ordered(es: seq<Step>, now: int) {
    (forall i, j | 0 <= i < j < |es| :: es[i].at <= es[j].at) && forall i | 0 <= i < |es| :: es[i].at <= now
  }

  /** The two spaces whose entries collect several hashes. */
  predicate Group(s: Space) {
    s.SubjectIndex? || s.SessionIndex?
  }

  function Owner(s: Space, c: Claims): string
    requires Group(s)
  {
    if s.SubjectIndex? then c.subject else c.sessionId
  }

  ghost predicate NoDuplicates(hs: seq<string>) {
    forall i, j | 0 <= i < j < |hs| :: hs[i] != hs[j]
  }

  /** Some step cached token `h` for the owner `x`. */
  ghost predicate WasCachedFor(es: seq<Step>, s: Space, x: string, h: string)
    requires Group(s)
  {
    exists i | 0 <= i < |es| :: es[i].Cached? && es[i].hash == h && Owner(s, es[i].claims) == x
  }

  ghost predicate SoundList(es: seq<Step>, s: Space, x: string, c: Claims)
    requires Group(s)
  {
    && c.hashes.Some? && NoDuplicates(c.hashes.value)
    && forall h | h in c.hashes.value :: WasCachedFor(es, s, x, h)
  }

  ghost predicate IndexSound(es: seq<Step>, m: Store, s: Space, x: string)
    requires Group(s)
  {
    Key(s, x) in m ==> SoundList(es, s, x, m[Key(s, x)].claims)
  }

  lemma SoundListGrows(es: seq<Step>, e: Step, s: Space, x: string, c: Claims)
    requires Group(s) && SoundList(es, s, x, c)
    ensures SoundList(es + [e], s, x, c)
  {
    forall h | h in c.hashes.value ensures WasCachedFor(es + [e], s, x, h) {
      var i :| 0 <= i < |es| && es[i].Cached? && es[i].hash == h && Owner(s, es[i].claims) == x;
      assert (es + [e])[i] == es[i];
    }
  }

  /** What one store has under a key, another has too. */
  ghost predicate SameAt(m: Store, m': Store, k: string) {
    (k in m' <==> k in m) && (k in m ==> m'[k] == m[k])
  }

  /** The entry under `k` is `m`'s, with `hash` appended unless it is listed. */
  ghost predicate AppendedAt(m: Store, m': Store, k: string, hash: string, ttl: int, now: int) {
    && k in m'
    && m'[k] == if k in m && hash in IndexHashes(m, k, now) then m[k]
                else Entry(IndexEntry(IndexHashes(m, k, now) + [hash]), now + ttl)
  }

  /** Indexing under one owner leaves every other key of every space alone. */
  lemma GroupIndexedAt(m: Store, g: Space, owner: string, hash: string, ttl: int, now: int, s: Space, x: string)
    ensures
      var (m', k) := (GroupIndexed(m, g, owner, hash, ttl, now), Key(s, x));
      if g == s && owner == x && x != "" then AppendedAt(m, m', k, hash, ttl, now) else SameAt(m, m', k)
  {
    KeySpacesDisjoint(s, x, g, owner);
  }

  lemma JtiIndexedAt(m: Store, jti: string, hash: string, ttl: int, now: int, s: Space, x: string)
    requires !s.JtiIndex?
    ensures SameAt(m, JtiIndexed(m, jti, hash, ttl, now), Key(s, x))
  {
    KeySpacesDisjoint(s, x, JtiIndex, jti);
  }

  /** Caching for `c` touches the list of `x` only if `x` owns the token, and then only by appending. */
  lemma CachedStoreAt(m: Store, hash: string, c: Claims, ttl: int, now: int, s: Space, x: string)
    requires Group(s) && IsTokenKey(hash) && ttl > 0
    ensures
      var (m', k) := (CachedStore(m, hash, c, ttl, now), Key(s, x));
      if x != "" && x == Owner(s, c) then AppendedAt(m, m', k, hash, ttl, now) else SameAt(m, m', k)
  {
    var k := Key(s, x);
    NoSpaceHoldsTokenKeys(s, x);
    var m0 := Put(m, hash, c, ttl, now);
    assert SameAt(m, m0, k);
    JtiIndexedAt(m0, c.jti, hash, ttl, now, s, x);
    var m1 := JtiIndexed(m0, c.jti, hash, ttl, now);
    GroupIndexedAt(m1, SubjectIndex, c.subject, hash, ttl, now, s, x);
    var m2 := GroupIndexed(m1, SubjectIndex, c.subject, hash, ttl, now);
    GroupIndexedAt(m2, SessionIndex, c.sessionId, hash, ttl, now, s, x);
  }

  lemma CachedStoreTokens(m: Store, hash: string, c: Claims, ttl: int, now: int, h: string)
    requires IsTokenKey(hash) && ttl > 0 && IsTokenKey(h)
    ensures
      var m' := CachedStore(m, hash, c, ttl, now);
      if h == hash then h in m' && m'[h] == Entry(c, now + ttl)
      else (h in m' <==> h in m) && (h in m ==> m'[h] == m[h])
  {
    NoSpaceHoldsTokenKeys(JtiIndex, c.jti);
    NoSpaceHoldsTokenKeys(SubjectIndex, c.subject);
    NoSpaceHoldsTokenKeys(SessionIndex, c.sessionId);
  }

  lemma CachingKeepsSound(es: seq<Step>, m: Store, e: Step, s: Space, x: string)
    requires Group(s) && e.Cached? && IsTokenKey(e.hash) && e.ttl > 0 && e in es && IndexSound(es, m, s, x)
    ensures IndexSound(es, Next(m, e), s, x)
  {
    CachedStoreAt(m, e.hash, e.claims, e.ttl, e.at, s, x);
    if x == Owner(s, e.claims) {
      assert WasCachedFor(es, s, x, e.hash);
    }
  }

  lemma OtherStepsKeepSound(es: seq<Step>, m: Store, e: Step, s: Space, x: string)
    requires Group(s) && !e.Cached? && IndexSound(es, m, s, x)
    ensures IndexSound(es, Next(m, e), s, x)
  {
    match e
    case Marked(_, jti, _) => KeySpacesDisjoint(s, x, ProofJti, jti);
    case Revoked(at, ev) => ProcessedOnlyDeletes(m, ev, at);
    case Cleaned(_) =>
  }

  /**
   In every run, the list of a subject or session is free of duplicates and names
   only hashes that were cached for that subject or session.
   */
  lemma {:induction false} IndexStaysSound(es: seq<Step>, s: Space, x: string)
    requires WellFormed(es) && Group(s)
    ensures IndexSound(es, Run(es), s, x)
  {
    if es != [] {
      var (init, e) := (es[..|es| - 1], es[|es| - 1]);
      IndexStaysSound(init, s, x);
      assert es == init + [e];
      var (m, k) := (Run(init), Key(s, x));
      if k in m {
        SoundListGrows(init, e, s, x, m[k].claims);
      }
      if e.Cached? {
        CachingKeepsSound(es, m, e, s, x);
      } else {
        OtherStepsKeepSound(es, m, e, s, x);
      }
    }
  }

  // ----- What an event reaches

  /** A token just cached is out of the cache after an event for its subject, unless an older list dies first. */
  lemma SubjectEventReaches(m: Store, hash: string, c: Claims, ttl: int, now: int, ev: RevocationEvent, t: int)
    requires IsTokenKey(hash) && ttl > 0 && now <= t <= now + ttl
    requires ev.tokenHash == "" && ev.jti == "" && ev.sessionId == "" && ev.revokeAll && ev.subject == c.subject != ""
    requires
      var k := Key(SubjectIndex, c.subject);
      k in m && hash in IndexHashes(m, k, now) ==> t <= m[k].expiresAt
    ensures hash !in Processed(CachedStore(m, hash, c, ttl, now), ev, t).0
  {
    CachedStoreAt(m, hash, c, ttl, now, SubjectIndex, c.subject);
  }

  lemma SessionEventReaches(m: Store, hash: string, c: Claims, ttl: int, now: int, ev: RevocationEvent, t: int)
    requires IsTokenKey(hash) && ttl > 0 && now <= t <= now + ttl
    requires ev.tokenHash == "" && ev.jti == "" && ev.sessionId == c.sessionId != ""
    requires
      var k := Key(SessionIndex, c.sessionId);
      k in m && hash in IndexHashes(m, k, now) ==> t <= m[k].expiresAt
    ensures hash !in Processed(CachedStore(m, hash, c, ttl, now), ev, t).0
  {
    CachedStoreAt(m, hash, c, ttl, now, SessionIndex, c.sessionId);
  }

  /** Caching writes the entry of the token's own identifier and no other one's. */
  lemma CachedJtiAt(m: Store, hash: string, c: Claims, ttl: int, now: int, jti: string)
    requires IsTokenKey(hash) && ttl > 0
    ensures
      var (m', k) := (CachedStore(m, hash, c, ttl, now), Key(JtiIndex, jti));
      if jti != "" && jti == c.jti then k in m' && m'[k] == Entry(IndexEntry([hash]), now + ttl) else SameAt(m, m', k)
  {
    var k := Key(JtiIndex, jti);
    NoSpaceHoldsTokenKeys(JtiIndex, jti);
    KeySpacesDisjoint(JtiIndex, jti, JtiIndex, c.jti);
    var m1 := JtiIndexed(Put(m, hash, c, ttl, now), c.jti, hash, ttl, now);
    GroupIndexedAt(m1, SubjectIndex, c.subject, hash, ttl, now, JtiIndex, jti);
    var m2 := GroupIndexed(m1, SubjectIndex, c.subject, hash, ttl, now);
    GroupIndexedAt(m2, SessionIndex, c.sessionId, hash, ttl, now, JtiIndex, jti);
  }

  /** A token just cached is out of the cache after an event with its jti. */
  lemma JtiEventReaches(m: Store, hash: string, c: Claims, ttl: int, now: int, ev: RevocationEvent, t: int)
    requires IsTokenKey(hash) && ttl > 0 && c.jti != "" && now <= t <= now + ttl
    requires ev.tokenHash == "" && ev.jti == c.jti
    ensures hash !in Processed(CachedStore(m, hash, c, ttl, now), ev, t).0
  {
    CachedJtiAt(m, hash, c, ttl, now, c.jti);
  }

  /** The step caches another token with the jti, or deletes the entry of the jti. */
  ghost predicate Unlinks(m: Store, e: Step, jti: string) {
    match e
    case Cached(_, _, c, _) => c.jti == jti
    case Revoked(at, ev) => Key(JtiIndex, jti) in Targets(m, ev, at)
    case _ => false
  }

  /** The n-th step cached a token with the jti for at least until `now`, and no later step unlinked it. */
  ghost predicate Linked(es: seq<Step>, n: nat, jti: string, now: int) {
    && n < |es| && es[n].Cached? && es[n].claims.jti == jti && jti != "" && now <= es[n].at + es[n].ttl
    && forall i | n < i < |es| :: !Unlinks(Run(es[..i]), es[i], jti)
  }

  lemma StepKeepsJti(m: Store, e: Step, jti: string)
    requires WellFormed([e]) && !Unlinks(m, e, jti)
    requires Key(JtiIndex, jti) in m && e.at <= m[Key(JtiIndex, jti)].expiresAt
    ensures SameAt(m, Next(m, e), Key(JtiIndex, jti))
  {
    assert [e][0] == e;
    match e
    case Cached(at, hash, c, ttl) => CachedJtiAt(m, hash, c, ttl, at, jti);
    case Marked(_, id, _) => KeySpacesDisjoint(JtiIndex, jti, ProofJti, id);
    case Revoked(at, ev) => RevocationKeeps(m, ev, at, Key(JtiIndex, jti));
    case Cleaned(_) =>
  }

  lemma RevocationKeeps(m: Store, ev: RevocationEvent, now: int, k: string)
    requires k !in Targets(m, ev, now)
    ensures SameAt(m, Processed(m, ev, now).0, k)
  {
  }

  lemma {:induction false} JtiEntryLasts(es: seq<Step>, n: nat, jti: string, now: int)
    requires WellFormed(es) && Ordered(es, now) && Linked(es, n, jti, now)
    ensures
      var (m, k) := (Run(es), Key(JtiIndex, jti));
      k in m && m[k] == Entry(IndexEntry([es[n].hash]), es[n].at + es[n].ttl)
  {
    var (init, e) := (es[..|es| - 1], es[|es| - 1]);
    if n == |es| - 1 {
      CachedJtiAt(Run(init), e.hash, e.claims, e.ttl, e.at, jti);
    } else {
      LinkedBefore(es, n, jti, now);
      JtiEntryLasts(init, n, jti, now);
      StepKeepsJti(Run(init), e, jti);
    }
  }

  lemma LinkedBefore(es: seq<Step>, n: nat, jti: string, now: int)
    requires Linked(es, n, jti, now) && n < |es| - 1
    ensures Linked(es[..|es| - 1], n, jti, now) && !Unlinks(Run(es[..|es| - 1]), es[|es| - 1], jti)
  {
    var init := es[..|es| - 1];
    forall i | n < i < |init| ensures !Unlinks(Run(init[..i]), init[i], jti) {
      assert init[..i] == es[..i];
    }
  }

  /**
   In every ordered run, an event with the jti of a cached token evicts that token, unless
   another token with the jti was cached or the entry deleted in between.
   */
  lemma JtiEventReachesInRuns(es: seq<Step>, n: nat, jti: string, ev: RevocationEvent, now: int)
    requires WellFormed(es) && Ordered(es, now) && Linked(es, n, jti, now)
    requires ev.tokenHash == "" && ev.jti == jti
    ensures es[n].hash in Targets(Run(es), ev, now) && es[n].hash !in Processed(Run(es), ev, now).0
  {
    JtiEntryLasts(es, n, jti, now);
  }

  /** The exception is real: of two tokens cached with one jti, an event with it evicts only the second. */
  lemma SharedJtiSurvives(m: Store, a: string, b: string, c: Claims, ttl: int, now: int, ev: RevocationEvent)
    requires IsTokenKey(a) && IsTokenKey(b) && a != b && ttl > 0 && c.jti != "" && ev.tokenHash == "" && ev.jti == c.jti
    ensures
      var m' := Processed(CachedStore(CachedStore(m, a, c, ttl, now), b, c, ttl, now), ev, now).0;
      Lookup(m', a, now) == Some(c) && b !in m'
  {
    var m1 := CachedStore(m, a, c, ttl, now);
    CachedStoreTokens(m, a, c, ttl, now, a);
    CachedStoreTokens(m1, b, c, ttl, now, a);
    CachedJtiAt(m1, b, c, ttl, now, c.jti);
    NoSpaceHoldsTokenKeys(JtiIndex, c.jti);
  }

  // ----- When a group revocation leaves nothing behind

  /** Token `h` is cached for the owner `x` and not yet expired. */
  ghost predicate LiveFor(m: Store, s: Space, x: string, h: string, now: int)
    requires Group(s)
  {
    IsTokenKey(h) && h in m && now <= m[h].expiresAt && Owner(s, m[h].claims) == x
  }

  ghost predicate NoneLive(m: Store, s: Space, x: string, now: int)
    requires Group(s)
  {
    forall h :: !LiveFor(m, s, x, h, now)
  }

  /** After the list of `x` is revoked at `t`, no token of `x` hits any more. */
  ghost predicate RevocationComplete(m: Store, s: Space, x: string, t: int)
    requires Group(s)
  {
    NoneLive(WithoutIndexed(m, Key(s, x), t), s, x, t)
  }

  /** The live list of `x` names every live token of `x` and expires no earlier than any of them. */
  ghost predicate Covered(m: Store, s: Space, x: string, now: int)
    requires Group(s)
  {
    forall h | LiveFor(m, s, x, h, now) ::
      var k := Key(s, x);
      k in m && h in IndexHashes(m, k, now) && m[h].expiresAt <= m[k].expiresAt
  }

  /** Revocation is complete at every later moment if and only if the list covers the live tokens now. */
  lemma CoveredIff(m: Store, s: Space, x: string, now: int)
    requires Group(s)
    ensures Covered(m, s, x, now) <==> forall t | t >= now :: RevocationComplete(m, s, x, t)
  {
    var k := Key(s, x);
    if Covered(m, s, x, now) {
      forall t, h | t >= now ensures !LiveFor(WithoutIndexed(m, k, t), s, x, h, t) {
        if LiveFor(WithoutIndexed(m, k, t), s, x, h, t) {
          assert LiveFor(m, s, x, h, now);
        }
      }
    }
    if forall t | t >= now :: RevocationComplete(m, s, x, t) {
      forall h | LiveFor(m, s, x, h, now)
        ensures k in m && h in IndexHashes(m, k, now) && m[h].expiresAt <= m[k].expiresAt
      {
        var t := m[h].expiresAt;
        NoSpaceHoldsTokenKeys(s, x);
        assert RevocationComplete(m, s, x, t);
        assert !LiveFor(WithoutIndexed(m, k, t), s, x, h, t);
      }
    }
  }

  /**
   What the caller of `IndexClaims` has to see to: the list, as it stands or as
   the call will leave it, outlives the owner's live tokens and the new one.  A
   hash that is already listed does not prolong the list; a new one gives the
   whole list its own lifetime.
   */
  ghost predicate ListOutlives(m: Store, s: Space, x: string, hash: string, ttl: int, now: int)
    requires Group(s)
  {
    var k := Key(s, x);
    if k in m && hash in IndexHashes(m, k, now) then now + ttl <= m[k].expiresAt
    else forall h | LiveFor(m, s, x, h, now) && h != hash :: m[h].expiresAt <= now + ttl
  }

  /** Caching a token of `x` keeps the cover if and only if the list outlives the tokens. */
  lemma CachingCoversIff(m: Store, s: Space, x: string, hash: string, c: Claims, ttl: int, now: int)
    requires Group(s) && x != "" && Owner(s, c) == x && IsTokenKey(hash) && ttl > 0
    requires Covered(m, s, x, now)
    ensures Covered(CachedStore(m, hash, c, ttl, now), s, x, now) <==> ListOutlives(m, s, x, hash, ttl, now)
  {
    var (m', k) := (CachedStore(m, hash, c, ttl, now), Key(s, x));
    CachedStoreAt(m, hash, c, ttl, now, s, x);
    forall h | IsTokenKey(h)
      ensures if h == hash then h in m' && m'[h] == Entry(c, now + ttl)
              else (h in m' <==> h in m) && (h in m ==> m'[h] == m[h])
    {
      CachedStoreTokens(m, hash, c, ttl, now, h);
    }
    assert LiveFor(m', s, x, hash, now);
    if Covered(m', s, x, now) {
      assert hash in IndexHashes(m', k, now) && m'[hash].expiresAt <= m'[k].expiresAt;
      forall h | LiveFor(m, s, x, h, now) && h != hash ensures m[h].expiresAt <= m'[k].expiresAt {
        assert LiveFor(m', s, x, h, now);
      }
    }
    if ListOutlives(m, s, x, hash, ttl, now) {
      forall h | LiveFor(m', s, x, h, now)
        ensures k in m' && h in IndexHashes(m', k, now) && m'[h].expiresAt <= m'[k].expiresAt
      {
        if h != hash {
          assert LiveFor(m, s, x, h, now);
        }
      }
    }
  }

  lemma OtherCachingCovers(m: Store, s: Space, x: string, hash: string, c: Claims, ttl: int, now: int)
    requires Group(s) && x != "" && Owner(s, c) != x && IsTokenKey(hash) && ttl > 0
    requires Covered(m, s, x, now)
    ensures Covered(CachedStore(m, hash, c, ttl, now), s, x, now)
  {
    var (m', k) := (CachedStore(m, hash, c, ttl, now), Key(s, x));
    CachedStoreAt(m, hash, c, ttl, now, s, x);
    forall h | LiveFor(m', s, x, h, now)
      ensures k in m' && h in IndexHashes(m', k, now) && m'[h].expiresAt <= m'[k].expiresAt
    {
      CachedStoreTokens(m, hash, c, ttl, now, h);
      assert LiveFor(m, s, x, h, now);
    }
  }

  /** The event deletes the list under `k` by its raw key, leaving the tokens unlisted. */
  ghost predicate Unlists(m: Store, ev: RevocationEvent, k: string, now: int) {
    k in Targets(m, ev, now) && GroupKey(ev) != Some(k)
  }

  /** Every list names token hashes only. */
  ghost predicate ListsTokens(m: Store) {
    forall s: Space, x: string, h | !s.ProofJti? && Key(s, x) in m && m[Key(s, x)].claims.hashes.Some?
                                    && h in m[Key(s, x)].claims.hashes.value :: IsTokenKey(h)
  }

  lemma DeletingCovers(m: Store, m': Store, s: Space, x: string, now: int)
    requires Group(s) && Covered(m, s, x, now)
    requires forall h | h in m' :: h in m && m'[h] == m[h]
    requires Key(s, x) in m' || Key(s, x) !in m
    ensures Covered(m', s, x, now)
  {
    forall h | LiveFor(m', s, x, h, now) ensures LiveFor(m, s, x, h, now) {
    }
  }

  /** An event that does not unlist either clears the list of `x` together with all its tokens, or leaves it alone. */
  lemma RevokingCovers(m: Store, ev: RevocationEvent, s: Space, x: string, now: int)
    requires Group(s) && Covered(m, s, x, now) && !Unlists(m, ev, Key(s, x), now)
    ensures Covered(Processed(m, ev, now).0, s, x, now)
  {
    var (m', k) := (Processed(m, ev, now).0, Key(s, x));
    ProcessedOnlyDeletes(m, ev, now);
    if GroupKey(ev) == Some(k) {
      CoveredIff(m, s, x, now);
      assert RevocationComplete(m, s, x, now);
      assert NoneLive(m', s, x, now);
    } else {
      DeletingCovers(m, m', s, x, now);
    }
  }

  /** An event that unlists deletes the list and no token. */
  lemma UnlistingSparesTokens(m: Store, ev: RevocationEvent, s: Space, x: string, now: int)
    requires Group(s) && ListsTokens(m) && Unlists(m, ev, Key(s, x), now)
    ensures Processed(m, ev, now).0 == m - {Key(s, x)}
  {
    NoSpaceHoldsTokenKeys(s, x);
    KeySpacesDisjoint(s, x, JtiIndex, ev.jti);
    ListedAreTokens(m, JtiIndex, ev.jti, now);
    ListedAreTokens(m, SubjectIndex, ev.subject, now);
    ListedAreTokens(m, SessionIndex, ev.sessionId, now);
  }

  /** Processing an event keeps the cover if and only if it does not unlist live tokens. */
  lemma RevokingCoversIff(m: Store, ev: RevocationEvent, s: Space, x: string, now: int)
    requires Group(s) && Covered(m, s, x, now) && ListsTokens(m)
    ensures Covered(Processed(m, ev, now).0, s, x, now) <==>
            (Unlists(m, ev, Key(s, x), now) ==> NoneLive(m, s, x, now))
  {
    if Unlists(m, ev, Key(s, x), now) {
      UnlistingSparesTokens(m, ev, s, x, now);
      NoSpaceHoldsTokenKeys(s, x);
      WithoutListCoversIff(m, s, x, now);
    } else {
      RevokingCovers(m, ev, s, x, now);
    }
  }

  lemma WithoutListCoversIff(m: Store, s: Space, x: string, now: int)
    requires Group(s)
    ensures Covered(m - {Key(s, x)}, s, x, now) <==> NoneLive(m, s, x, now)
  {
    var m' := m - {Key(s, x)};
    NoSpaceHoldsTokenKeys(s, x);
    assert forall h :: LiveFor(m', s, x, h, now) <==> LiveFor(m, s, x, h, now);
  }

  lemma ListedAreTokens(m: Store, s: Space, x: string, now: int)
    requires ListsTokens(m) && !s.ProofJti?
    ensures forall h | h in IndexHashes(m, Key(s, x), now) :: IsTokenKey(h)
  {
  }

  lemma CoverOutlastsTime(m: Store, s: Space, x: string, now: int, t: int)
    requires Group(s) && Covered(m, s, x, now) && now <= t
    ensures Covered(m, s, x, t)
  {
    forall h | LiveFor(m, s, x, h, t) ensures LiveFor(m, s, x, h, now) {
    }
  }

  lemma PurgeCovers(m: Store, s: Space, x: string, now: int)
    requires Group(s) && Covered(m, s, x, now)
    ensures Covered(Purge(m, now), s, x, now)
  {
    forall h | LiveFor(Purge(m, now), s, x, h, now) ensures LiveFor(m, s, x, h, now) {
    }
  }

  lemma CachedStoreListsTokens(m: Store, hash: string, c: Claims, ttl: int, now: int)
    requires ListsTokens(m) && IsTokenKey(hash) && ttl > 0
    ensures ListsTokens(CachedStore(m, hash, c, ttl, now))
  {
    var m' := CachedStore(m, hash, c, ttl, now);
    forall s: Space, x: string, h | !s.ProofJti? && Key(s, x) in m' && m'[Key(s, x)].claims.hashes.Some?
                                    && h in m'[Key(s, x)].claims.hashes.value
      ensures IsTokenKey(h)
    {
      NoSpaceHoldsTokenKeys(s, x);
      if Group(s) {
        CachedStoreAt(m, hash, c, ttl, now, s, x);
      } else {
        KeySpacesDisjoint(s, x, JtiIndex, c.jti);
        KeySpacesDisjoint(s, x, SubjectIndex, c.subject);
        KeySpacesDisjoint(s, x, SessionIndex, c.sessionId);
      }
    }
  }

  lemma MarkingListsTokens(m: Store, jti: string, ttl: int, now: int)
    requires ListsTokens(m)
    ensures ListsTokens(Put(m, Key(ProofJti, jti), BLANK, ttl, now))
  {
    forall s: Space, x: string | !s.ProofJti? ensures Key(s, x) != Key(ProofJti, jti) {
      KeySpacesDisjoint(s, x, ProofJti, jti);
    }
  }

  lemma MarkingCovers(m: Store, jti: string, ttl: int, s: Space, x: string, now: int)
    requires Group(s) && Covered(m, s, x, now)
    ensures Covered(Put(m, Key(ProofJti, jti), BLANK, ttl, now), s, x, now)
  {
    var m' := Put(m, Key(ProofJti, jti), BLANK, ttl, now);
    KeySpacesDisjoint(s, x, ProofJti, jti);
    NoSpaceHoldsTokenKeys(ProofJti, jti);
    forall h | LiveFor(m', s, x, h, now) ensures LiveFor(m, s, x, h, now) {
    }
  }

  lemma {:induction false} RunListsTokens(es: seq<Step>)
    requires WellFormed(es)
    ensures ListsTokens(Run(es))
  {
    if es != [] {
      var (init, e) := (es[..|es| - 1], es[|es| - 1]);
      RunListsTokens(init);
      match e
      case Cached(at, hash, c, ttl) => CachedStoreListsTokens(Run(init), hash, c, ttl, at);
      case Marked(at, jti, ttl) => MarkingListsTokens(Run(init), jti, ttl, at);
      case Revoked(at, ev) => ProcessedOnlyDeletes(Run(init), ev, at);
      case Cleaned(_) =>
    }
  }

  // ----- Runs in which the cover is never lost

  /**
   What one step has to see to: caching a token of `x` keeps to the caller's duty, and an
   event deletes the list by its raw key only when no token of `x` is live.
   */
  ghost predicate Keeps(m: Store, e: Step, s: Space, x: string)
    requires Group(s)
  {
    match e
    case Cached(at, hash, c, ttl) => Owner(s, c) == x ==> ListOutlives(m, s, x, hash, ttl, at)
    case Revoked(at, ev) => Unlists(m, ev, Key(s, x), at) ==> NoneLive(m, s, x, at)
    case _ => true
  }

  lemma StepCoversIff(m: Store, e: Step, s: Space, x: string)
    requires Group(s) && x != "" && WellFormed([e]) && ListsTokens(m) && Covered(m, s, x, e.at)
    ensures Covered(Next(m, e), s, x, e.at) <==> Keeps(m, e, s, x)
  {
    assert [e][0] == e;
    match e
    case Cached(at, hash, c, ttl) =>
      if Owner(s, c) == x {
        CachingCoversIff(m, s, x, hash, c, ttl, at);
      } else {
        OtherCachingCovers(m, s, x, hash, c, ttl, at);
      }
    case Marked(at, jti, ttl) => MarkingCovers(m, jti, ttl, s, x, at);
    case Revoked(at, ev) => RevokingCoversIff(m, ev, s, x, at);
    case Cleaned(at) => PurgeCovers(m, s, x, at);
  }

  ghost predicate Dutiful(es: seq<Step>, s: Space, x: string)
    requires Group(s)
  {
    forall i | 0 <= i < |es| :: Keeps(Run(es[..i]), es[i], s, x)
  }

  /** After every step the list covers the live tokens. */
  ghost predicate AlwaysCovered(es: seq<Step>, s: Space, x: string)
    requires Group(s)
  {
    forall i | 0 <= i < |es| :: Covered(Next(Run(es[..i]), es[i]), s, x, es[i].at)
  }

  /** After every step, should it be the last, revoking `x` at any later moment leaves no token of `x`. */
  ghost predicate AlwaysComplete(es: seq<Step>, s: Space, x: string)
    requires Group(s)
  {
    forall i, t | 0 <= i < |es| && es[i].at <= t :: RevocationComplete(Next(Run(es[..i]), es[i]), s, x, t)
  }

  lemma AlwaysCoveredIff(es: seq<Step>, s: Space, x: string)
    requires Group(s)
    ensures AlwaysCovered(es, s, x) <==> AlwaysComplete(es, s, x)
  {
    forall i | 0 <= i < |es|
      ensures
        var m := Next(Run(es[..i]), es[i]);
        Covered(m, s, x, es[i].at) <==> forall t | es[i].at <= t :: RevocationComplete(m, s, x, t)
    {
      CoveredIff(Next(Run(es[..i]), es[i]), s, x, es[i].at);
    }
  }

  lemma SamePrefixes(es: seq<Step>, e: Step)
    ensures (es + [e])[..|es|] == es
    ensures forall i | 0 <= i < |es| :: (es + [e])[..i] == es[..i] && (es + [e])[i] == es[i]
  {
  }

  lemma DutifulNext(es: seq<Step>, e: Step, s: Space, x: string)
    requires Group(s)
    ensures Dutiful(es + [e], s, x) <==> Dutiful(es, s, x) && Keeps(Run(es), e, s, x)
  {
    SamePrefixes(es, e);
    assert (es + [e])[|es|] == e;
  }

  lemma AlwaysCoveredNext(es: seq<Step>, e: Step, s: Space, x: string)
    requires Group(s)
    ensures AlwaysCovered(es + [e], s, x) <==> AlwaysCovered(es, s, x) && Covered(Next(Run(es), e), s, x, e.at)
  {
    SamePrefixes(es, e);
    assert (es + [e])[|es|] == e;
  }

  lemma {:induction false} CoverIff(es: seq<Step>, s: Space, x: string, now: int)
    requires Group(s) && x != "" && WellFormed(es) && Ordered(es, now)
    ensures AlwaysCovered(es, s, x) <==> Dutiful(es, s, x)
    ensures Dutiful(es, s, x) ==> Covered(Run(es), s, x, now)
  {
    if es != [] {
      var (init, e) := (es[..|es| - 1], es[|es| - 1]);
      assert es == init + [e];
      CoverIff(init, s, x, e.at);
      DutifulNext(init, e, s, x);
      AlwaysCoveredNext(init, e, s, x);
      if Dutiful(init, s, x) {
        RunListsTokens(init);
        StepCoversIff(Run(init), e, s, x);
        if Keeps(Run(init), e, s, x) {
          CoverOutlastsTime(Run(es), s, x, e.at, now);
        }
      }
    }
  }

  /** One more step keeps a run dutiful if and only if the list covers the live tokens after it. */
  lemma DutifulNextIff(es: seq<Step>, e: Step, s: Space, x: string)
    requires Group(s) && x != "" && WellFormed(es) && WellFormed([e]) && Ordered(es, e.at)
    ensures Dutiful(es + [e], s, x) <==> Dutiful(es, s, x) && Covered(Next(Run(es), e), s, x, e.at)
  {
    CoverIff(es, s, x, e.at);
    DutifulNext(es, e, s, x);
    RunListsTokens(es);
    if Dutiful(es, s, x) {
      StepCoversIff(Run(es), e, s, x);
    }
  }

  /**
   In every ordered run, revoking a subject or session is complete at every moment after
   every step if and only if every step keeps to its duty.
   */
  lemma CompleteIff(es: seq<Step>, s: Space, x: string, now: int)
    requires Group(s) && x != "" && WellFormed(es) && Ordered(es, now)
    ensures AlwaysComplete(es, s, x) <==> Dutiful(es, s, x)
  {
    CoverIff(es, s, x, now);
    AlwaysCoveredIff(es, s, x);
  }

  /** In every dutiful run the list covers the live tokens, so revoking the group leaves none of them. */
  lemma DutifulRunsRevokeAll(es: seq<Step>, s: Space, x: string, now: int)
    requires Group(s) && x != "" && WellFormed(es) && Ordered(es, now) && Dutiful(es, s, x)
    ensures Covered(Run(es), s, x, now)
    ensures RevocationComplete(Run(es), s, x, now)
  {
    CoverIff(es, s, x, now);
    CoveredIff(Run(es), s, x, now);
  }

  // ----- Runs in which the duty is not met

  const ALICE := BLANK.(active := true, subject := "alice")

  /**
   Two tokens of one subject, cached for 30 s each as the gateway does.  The first
   is cached again after it expired, while the list, kept alive by the second,
   still names it; the list is not prolonged and dies first.
   */
  function RecachedRun(a: string, b: string): seq<Step> {
    [Cached(0, a, ALICE, 30 * SECOND),
     Cached(10 * SECOND, b, ALICE, 30 * SECOND),
     Cached(35 * SECOND, a, ALICE, 30 * SECOND)]
  }

  lemma RunSnoc(es: seq<Step>, e: Step)
    ensures Run(es + [e]) == Next(Run(es), e)
  {
    assert (es + [e])[..|es|] == es;
  }

  lemma RecachedPrefixes(a: string, b: string)
    ensures
      var es := RecachedRun(a, b);
      && Run(es[..1]) == CachedStore(map[], a, ALICE, 30 * SECOND, 0)
      && Run(es[..2]) == CachedStore(Run(es[..1]), b, ALICE, 30 * SECOND, 10 * SECOND)
  {
    var es := RecachedRun(a, b);
    RunSnoc([], es[0]);
    RunSnoc(es[..1], es[1]);
    assert [] + [es[0]] == es[..1] && es[..1] + [es[1]] == es[..2];
  }

  lemma ListAfterOne(a: string, b: string)
    requires IsTokenKey(a)
    ensures
      var (m, k) := (Run(RecachedRun(a, b)[..1]), Key(SubjectIndex, "alice"));
      k in m && m[k] == Entry(IndexEntry([a]), 30 * SECOND)
  {
    RecachedPrefixes(a, b);
    CachedStoreAt(map[], a, ALICE, 30 * SECOND, 0, SubjectIndex, "alice");
    assert [] + [a] == [a];
  }

  lemma ListAfterTwo(a: string, b: string)
    requires IsTokenKey(a) && IsTokenKey(b) && a != b
    ensures
      var (m, k) := (Run(RecachedRun(a, b)[..2]), Key(SubjectIndex, "alice"));
      k in m && m[k] == Entry(IndexEntry([a, b]), 40 * SECOND)
  {
    RecachedPrefixes(a, b);
    ListAfterOne(a, b);
    CachedStoreAt(Run(RecachedRun(a, b)[..1]), b, ALICE, 30 * SECOND, 10 * SECOND, SubjectIndex, "alice");
    assert [a] + [b] == [a, b];
  }

  /** After the first step the second token is not cached; after the second, the first one is gone at 35 s. */
  lemma AfterOne(a: string, b: string)
    requires IsTokenKey(a) && IsTokenKey(b) && a != b
    ensures b !in Run(RecachedRun(a, b)[..1])
  {
    RecachedPrefixes(a, b);
    CachedStoreTokens(map[], a, ALICE, 30 * SECOND, 0, b);
  }

  lemma AfterTwo(a: string, b: string)
    requires IsTokenKey(a) && IsTokenKey(b) && a != b
    ensures Lookup(Run(RecachedRun(a, b)[..2]), a, 35 * SECOND).None?
  {
    RecachedPrefixes(a, b);
    CachedStoreTokens(map[], a, ALICE, 30 * SECOND, 0, a);
    CachedStoreTokens(Run(RecachedRun(a, b)[..1]), b, ALICE, 30 * SECOND, 10 * SECOND, a);
  }

  lemma AfterThree(a: string, b: string)
    requires IsTokenKey(a) && IsTokenKey(b) && a != b
    ensures
      var (m, k) := (Run(RecachedRun(a, b)), Key(SubjectIndex, "alice"));
      && k in m && m[k] == Entry(IndexEntry([a, b]), 40 * SECOND)
      && a in m && m[a] == Entry(ALICE, 65 * SECOND)
  {
    var es := RecachedRun(a, b);
    ListAfterTwo(a, b);
    CachedStoreAt(Run(es[..2]), a, ALICE, 30 * SECOND, 35 * SECOND, SubjectIndex, "alice");
    CachedStoreTokens(Run(es[..2]), a, ALICE, 30 * SECOND, 35 * SECOND, a);
  }

  /** At 50 s the subject is revoked, and the first token still hits. */
  lemma RecachedTokenSurvives(a: string, b: string)
    requires IsTokenKey(a) && IsTokenKey(b) && a != b
    ensures WellFormed(RecachedRun(a, b)) && Ordered(RecachedRun(a, b), 50 * SECOND)
    ensures !RevocationComplete(Run(RecachedRun(a, b)), SubjectIndex, "alice", 50 * SECOND)
  {
    AfterThree(a, b);
    ListDiesFirst(Run(RecachedRun(a, b)), a, 40 * SECOND, 50 * SECOND);
  }

  /** A token that expires in 5 s joins the list of one that lives for 30 s, and takes the list with it. */
  function ShortenedRun(a: string, b: string): seq<Step> {
    [Cached(0, a, ALICE, 30 * SECOND),
     Cached(SECOND, b, ALICE.(expiresAt := Some(6 * SECOND)), 5 * SECOND)]
  }

  lemma AfterShortened(a: string, b: string)
    requires IsTokenKey(a) && IsTokenKey(b) && a != b
    ensures
      var (m, k) := (Run(ShortenedRun(a, b)), Key(SubjectIndex, "alice"));
      k in m && m[k].expiresAt == 6 * SECOND && a in m && m[a] == Entry(ALICE, 30 * SECOND)
  {
    var (es, c) := (ShortenedRun(a, b), ALICE.(expiresAt := Some(6 * SECOND)));
    RunSnoc([], es[0]);
    RunSnoc([es[0]], es[1]);
    assert [] + [es[0]] == [es[0]] && [es[0]] + [es[1]] == es;
    CachedStoreAt(map[], a, ALICE, 30 * SECOND, 0, SubjectIndex, "alice");
    CachedStoreTokens(map[], a, ALICE, 30 * SECOND, 0, a);
    CachedStoreAt(Run([es[0]]), b, c, 5 * SECOND, SECOND, SubjectIndex, "alice");
    CachedStoreTokens(Run([es[0]]), b, c, 5 * SECOND, SECOND, a);
  }

  /** At 10 s the subject is revoked, and the first token still hits. */
  lemma LongerTokenSurvives(a: string, b: string)
    requires IsTokenKey(a) && IsTokenKey(b) && a != b
    ensures WellFormed(ShortenedRun(a, b)) && Ordered(ShortenedRun(a, b), 10 * SECOND)
    ensures !RevocationComplete(Run(ShortenedRun(a, b)), SubjectIndex, "alice", 10 * SECOND)
  {
    AfterShortened(a, b);
    ListDiesFirst(Run(ShortenedRun(a, b)), a, 6 * SECOND, 10 * SECOND);
  }

  /** A webhook names the list of alice by its raw key, as if it were a token hash. */
  function UnlistedRun(a: string): seq<Step> {
    [Cached(0, a, ALICE, 30 * SECOND),
     Revoked(SECOND, RevocationEvent(Key(SubjectIndex, "alice"), "", "", "", false))]
  }

  /** At 2 s the subject is revoked, and the token still hits. */
  lemma UnlistedTokenSurvives(a: string)
    requires IsTokenKey(a)
    ensures WellFormed(UnlistedRun(a)) && Ordered(UnlistedRun(a), 2 * SECOND)
    ensures !RevocationComplete(Run(UnlistedRun(a)), SubjectIndex, "alice", 2 * SECOND)
  {
    var (es, k) := (UnlistedRun(a), Key(SubjectIndex, "alice"));
    RunSnoc([], es[0]);
    RunSnoc([es[0]], es[1]);
    assert [] + [es[0]] == [es[0]] && [es[0]] + [es[1]] == es;
    CachedStoreTokens(map[], a, ALICE, 30 * SECOND, 0, a);
    NoSpaceHoldsTokenKeys(SubjectIndex, "alice");
    assert LiveFor(WithoutIndexed(Run(es), k, 2 * SECOND), SubjectIndex, "alice", a, 2 * SECOND);
  }

  lemma ListDiesFirst(m: Store, h: string, listUntil: int, now: int)
    requires
      var k := Key(SubjectIndex, "alice");
      && k in m && m[k].expiresAt == listUntil && listUntil < now
      && IsTokenKey(h) && h in m && now <= m[h].expiresAt && m[h].claims.subject == "alice"
    ensures !RevocationComplete(m, SubjectIndex, "alice", now)
  {
    var k := Key(SubjectIndex, "alice");
    NoSpaceHoldsTokenKeys(SubjectIndex, "alice");
    assert LiveFor(WithoutIndexed(m, k, now), SubjectIndex, "alice", h, now);
  }

  // ----- The duty when all lifetimes are equal

  /** Every caching step for `x` has the lifetime `ttl`. */
  ghost predicate Uniform(es: seq<Step>, s: Space, x: string, ttl: int)
    requires Group(s)
  {
    forall i | 0 <= i < |es| && es[i].Cached? && Owner(s, es[i].claims) == x :: es[i].ttl == ttl
  }

  /** A token of `x` is not cached again while the live list names it, unless the list lives as long anyway. */
  ghost predicate NeverRecached(es: seq<Step>, s: Space, x: string)
    requires Group(s)
  {
    forall i | 0 <= i < |es| && es[i].Cached? && Owner(s, es[i].claims) == x ::
      var (m, k) := (Run(es[..i]), Key(s, x));
      k in m && es[i].hash in IndexHashes(m, k, es[i].at) ==> es[i].at + es[i].ttl <= m[k].expiresAt
  }

  /** No event deletes the list of `x` by its raw key while a token of `x` is live. */
  ghost predicate NeverUnlisted(es: seq<Step>, s: Space, x: string)
    requires Group(s)
  {
    forall i | 0 <= i < |es| && es[i].Revoked? && Unlists(Run(es[..i]), es[i].event, Key(s, x), es[i].at) ::
      NoneLive(Run(es[..i]), s, x, es[i].at)
  }

  /** No token of `x` outlives the lifetime counted from now. */
  ghost predicate TokensWithin(m: Store, s: Space, x: string, until: int)
    requires Group(s)
  {
    forall h | IsTokenKey(h) && h in m && Owner(s, m[h].claims) == x :: m[h].expiresAt <= until
  }

  lemma {:induction false} RunTokensWithin(es: seq<Step>, s: Space, x: string, ttl: int, now: int)
    requires Group(s) && WellFormed(es) && Ordered(es, now) && Uniform(es, s, x, ttl)
    ensures TokensWithin(Run(es), s, x, now + ttl)
  {
    if es != [] {
      var (init, e) := (es[..|es| - 1], es[|es| - 1]);
      RunTokensWithin(init, s, x, ttl, now);
      var m := Run(init);
      match e {
        case Cached(at, hash, c, t) =>
          forall h | IsTokenKey(h) && h in Run(es) && Owner(s, Run(es)[h].claims) == x
            ensures Run(es)[h].expiresAt <= now + ttl
          {
            CachedStoreTokens(m, hash, c, t, at, h);
          }
        case Marked(_, jti, _) => NoSpaceHoldsTokenKeys(ProofJti, jti);
        case Revoked(at, ev) => ProcessedOnlyDeletes(m, ev, at);
        case Cleaned(_) =>
      }
    }
  }

  /** Among equal lifetimes a new hash gives the list a lifetime that covers the others. */
  lemma UniformOutlives(es: seq<Step>, s: Space, x: string, ttl: int, now: int, i: nat)
    requires Group(s) && WellFormed(es) && Ordered(es, now) && Uniform(es, s, x, ttl)
    requires i < |es| && es[i].Cached? && Owner(s, es[i].claims) == x
    ensures
      var (m, k) := (Run(es[..i]), Key(s, x));
      ListOutlives(m, s, x, es[i].hash, ttl, es[i].at) <==>
        (k in m && es[i].hash in IndexHashes(m, k, es[i].at) ==> es[i].at + ttl <= m[k].expiresAt)
  {
    UniformPrefix(es, s, x, ttl, now, i);
    RunTokensWithin(es[..i], s, x, ttl, es[i].at);
  }

  /**
   With equal lifetimes, revocation is complete after every step of a run if and only if
   no token is cached again while the live list still names it, and no event deletes the
   list by its raw key while a token is live.
   */
  lemma UniformDutyIff(es: seq<Step>, s: Space, x: string, ttl: int, now: int)
    requires Group(s) && x != "" && WellFormed(es) && Ordered(es, now) && Uniform(es, s, x, ttl)
    ensures AlwaysComplete(es, s, x) <==> NeverRecached(es, s, x) && NeverUnlisted(es, s, x)
  {
    forall i | 0 <= i < |es| && es[i].Cached? && Owner(s, es[i].claims) == x
      ensures
        var (m, k) := (Run(es[..i]), Key(s, x));
        ListOutlives(m, s, x, es[i].hash, ttl, es[i].at) <==>
          (k in m && es[i].hash in IndexHashes(m, k, es[i].at) ==> es[i].at + ttl <= m[k].expiresAt)
    {
      UniformOutlives(es, s, x, ttl, now, i);
    }
    CompleteIff(es, s, x, now);
  }

  lemma UniformPrefix(es: seq<Step>, s: Space, x: string, ttl: int, now: int, i: nat)
    requires Group(s) && WellFormed(es) && Ordered(es, now) && Uniform(es, s, x, ttl) && i < |es|
    ensures WellFormed(es[..i]) && Ordered(es[..i], es[i].at) && Uniform(es[..i], s, x, ttl)
  {
  }
}
