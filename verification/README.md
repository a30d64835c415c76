# Verified model of the gateway's decision and state core

The gateway is an OAuth resource server in front of an API. For each request it
consults a rate limiter, resolves a tenant, checks a DPoP proof, introspects the
bearer token through a shared cache, evaluates a policy, and forwards the request,
denies it with a step-up challenge, or replays a request that an earlier challenge
interrupted. This project models that core in Dafny and proves what holds over all
inputs and over whole runs.

| module | what it models |
|---|---|
| `RateLimiter`, `LimiterOptimality` | the token bucket, its sliding-window meaning, bucket eviction; how permissive the bucket is |
| `TokenCache` | the in-memory cache with expiry, its keys |
| `Revocation` | the secondary index kept in the cache, the revocation webhook |
| `Dpop`, `DpopNonce` | proof validation, replay detection, server nonces |
| `Matcher`, `Rar`, `PolicyEngine` | resource patterns, ACR levels, authorization details, policy evaluation |
| `Challenge`, `Denial` | the WWW-Authenticate challenge, printed and parsed, and what it tells a client |
| `StepUp` | step-up flow states and the signed cookie |
| `Guard`, `GuardRequests` | one request as one step; which outcome it gets, spelled out in the terms of the request |
| `GuardRuns` | runs of requests, reloads, webhooks and cleanups |
| `GuardCacheRuns`, `GuardProofRuns`, `GuardTenants` | the revocation index, the DPoP records and the binding of claims to tenants over whole runs of the guard |
| `GuardRateRuns`, `GuardOverdraw` | the rate of forwarded requests over whole runs, and the guards that exceed it |
| `Base64Url`, `RsaJwk`, `Pkce` | the hand-written base64url encoder, RSA keys as JWKs, PKCE |
| `Text`, `Options`, `Clock` | string operations, optional values and the unit of time |

How the model reads the code:

- Times and durations are integers in nanoseconds, `float64` is `real`, integers are
  unbounded unless a width is written out. One operation reads the clock once. The
  clock does not run backwards, except that the sliding-window results hold for
  timestamps in any order.
- An object that the code updates in place is a class whose methods are proved equal
  to a function on values; runs are sequences of events over those functions. One
  `allow`, one cache operation sequence of a request, and one webhook are atomic.
- SHA-256, HMAC, JSON encoding and `path.Match` are parameters. What is assumed of
  them is a precondition of the lemma that needs it: distinct MACs for nonce windows,
  a decodable and dot-free cookie payload, and that a signed cookie payload in a run
  was issued earlier in that run. Nothing is assumed of SHA-256: results speak of
  tokens with equal digests.
- Everything that comes from outside is part of the request: the tenant, its provider
  and the provider's answer, the bearer token, the proof after parsing and signature
  check, the cookie, and the random state identifier.

Encoders and decoders, printers and parsers, and checks that several functions share are
also described from outside, with the literal names, numbers and characters of the wire,
so that a mistake made on both sides does not go unnoticed.

Where a property that one would expect does not hold of the code, the project states
exactly when it holds:

- Evicting idle buckets cannot be noticed if and only if the burst is at most what
  five minutes and one nanosecond earn (`RateLimiter.EvictionUnobservableIff`). Under
  the same condition, and only then, the window bound survives cleanups in all ordered
  runs, of the limiter (`RateLimiter.WindowBoundWithCleanupsIff`) and of any guard with a
  caller whom only the limiter holds back (`GuardOverdraw.ForwardRateBoundIff`).
- The bucket admits as many calls as any selection that keeps the window bound if the
  calls come in order of time (`LimiterOptimality.MostPermissive`). Out of order it is
  still maximal, but for every limit there are calls of which a longer selection exists
  (`LimiterOptimality.UnorderedCanBeLonger`).
- An event with the jti of a cached token evicts that token, unless another token with the
  jti was cached or the entry of the jti deleted in between
  (`Revocation.JtiEventReachesInRuns`); of two tokens with one jti only the second is
  evicted (`Revocation.SharedJtiSurvives`).
- Revoking a subject or session leaves no cached token if and only if the index list
  names every live token and outlives it; caching keeps that so if and only if the
  list outlives the tokens, and an event keeps it so if and only if it does not delete
  the list by its raw key while a token is live (`Revocation.CoveredIff`,
  `Revocation.CachingCoversIff`, `Revocation.RevokingCoversIff`). So revocation is
  complete after every step of a run if and only if every step keeps to this duty
  (`Revocation.CompleteIff`, for the guard `GuardCacheRuns.GuardCompleteIff`); for tokens
  without an expiry, if and only if none is cached again while the live list names it
  without outliving it, and none is live when the list is deleted by its raw key
  (`Revocation.UniformDutyIff`, `GuardCacheRuns.GuardDutyIff`). Three runs break it: a
  token is cached again with the gateway's own 30 s lifetime
  (`Revocation.RecachedTokenSurvives`, as three requests to the guard in
  `GuardCacheRuns.GuardRecachedTokenSurvives`), a short-lived token shortens the list of
  a longer-lived one (`Revocation.LongerTokenSurvives`), and an event names the list as
  if it were a token (`Revocation.UnlistedTokenSurvives`).
- A DPoP proof can be accepted twice, the cache left to itself, if and only if it was
  dated in the future when it was first accepted and, where nonces are on, its nonce
  outlives the record of its jti (`Dpop.AcceptedAgainIff`).
- In a run, the record of a jti can also be deleted early: by a webhook that gives the
  record's raw cache key as its token hash, or as a jti that no index entry holds, and by
  no other (`GuardProofRuns.RecordRevokedIff`). The proof is then accepted again
  (`GuardProofRuns.RevokedRecordReopens`).
- All tenants share the token cache. What is forwarded under a tenant was vouched for by
  that tenant's provider if every provider, where there are several, declares an issuer
  that no other tenant's provider answers with (`GuardTenants.SeparatedTenantsAreBound`); in a guard without
  policies, profile and proofs also only then (`GuardTenants.TenantsBoundIff`).
- A challenge survives printing and parsing if and only if no field holds a comma or
  begins or ends with a double quote (`Challenge.RoundTripIff`).
- An RSA key survives the JWK if and only if the modulus is positive and the exponent
  is between 1 and 2^32 - 1 (`RsaJwk.ReadsBackIff`).
- A token that is no weaker in scopes, methods, details and ACR and no older keeps
  access if and only if its age is positive or the deciding policy has no `max_age`
  (`PolicyEngine.AccessKeptIff`); `PolicyEngine.FreshestIsRefused` is a token that
  loses access by being authenticated at this very instant.

Three statements of docs/policy-configuration.md differ from the code, and the code is
followed: a request that no policy matches is denied (line 119 says allowed), a missing
authentication time with `max_age` is denied (line 99 says the check is skipped), and
the pattern `/**` matches everything but the root (line 49 says everything; the exact
condition is `Matcher.DoubleStarMatchesSegments` with `Matcher.RootMatchesRootOnly`).

## Model

| member | source | states |
|---|---|---|
| `RateLimiter.NewLimits` | internal/gateway/ratelimit.go:26-40 | an unset burst becomes the whole part of the rate, at least 1, with the rate kept; a set one is kept |
| `RateLimiter.Limiter.Allow` | internal/gateway/ratelimit.go:43-67 | one call changes the bucket map and answers as the step function that the window results are about |
| `RateLimiter.Limiter.Cleanup` | internal/gateway/ratelimit.go:69-82 | a cleanup round drops exactly the buckets idle for more than five minutes |
| `RateLimiter.BucketIsSlidingWindow` | internal/gateway/ratelimit.go:43-67 | for timestamps in any order, a call is admitted iff every window from an admitted call to it stays within burst + rps * length; only calls on the same key matter |
| `RateLimiter.AdmittedIffRateKept` | internal/gateway/ratelimit.go:43-67 | the same with the rate written out: with this call, at most burst + rps * seconds calls are admitted since every admitted one |
| `RateLimiter.WindowBound` | internal/gateway/ratelimit.go:43-67 | in every run of calls, in any order of time, between any two admitted calls of a key at most burst + rps * (difference of times) are admitted |
| `RateLimiter.AdmittedKeepsRate` | internal/gateway/ratelimit.go:43-67 | the same with the rate written out |
| `RateLimiter.WithinKeepsRate` | internal/gateway/ratelimit.go:43-67 | a history is within the bound iff between any two of its times at most burst + rps * seconds calls lie |
| `RateLimiter.RefusalHasWitness` | internal/gateway/ratelimit.go:55-65 | a refused call would overfill the window of some admitted call |
| `RateLimiter.EvictionUnobservable` | internal/gateway/ratelimit.go:49-82 | with an ordered clock and a burst the idle time refills, cleanups at any points change no decision |
| `RateLimiter.WindowBoundWithCleanups` | internal/gateway/ratelimit.go:43-82 | with an ordered clock and a burst the idle time refills, the window bound holds with cleanups anywhere in the run |
| `RateLimiter.OverdrawExceeds` | internal/gateway/ratelimit.go:43-82 | for every other burst, draining, evicting and draining again exceeds the bound |
| `RateLimiter.WindowBoundWithCleanupsIff` | internal/gateway/ratelimit.go:43-82 | the window bound holds in all ordered runs with cleanups iff burst <= rps * (300 s + 1 ns) |
| `LimiterOptimality.GreedyIsMaximal` | internal/gateway/ratelimit.go:55-65 | for times in any order, no selection of calls that keeps the bound strictly contains the admitted ones |
| `LimiterOptimality.NoneLonger` | internal/gateway/ratelimit.go:55-65 | for ordered times, no selection of calls that keeps the bound is longer than what is admitted |
| `LimiterOptimality.MostPermissive` | internal/gateway/ratelimit.go:43-67 | both, for the calls of one key in any run of calls of the limiter |
| `LimiterOptimality.LateBurstCrowdsOut` | internal/gateway/ratelimit.go:55-65 | for every limit, a late-stamped burst, then an early burst and one call more: only the late burst is admitted, while the others, which are one more, keep the bound |
| `LimiterOptimality.UnorderedCanBeLonger` | internal/gateway/ratelimit.go:55-65 | for every limit there are calls, out of order, of which a longer selection keeps the bound |
| `RateLimiter.EvictionObservable` | internal/gateway/ratelimit.go:49-82 | otherwise a concrete run is answered differently with and without its cleanup |
| `RateLimiter.EvictionUnobservableIff` | internal/gateway/ratelimit.go:49-82 | eviction is unobservable in all ordered runs iff burst <= rps * 300.000000001 s; burst <= 300 * rps suffices |
| `TokenCache.MemoryCache.Get` | pkg/core/token/cache.go:49-57 | a lookup hits until the expiry, inclusive |
| `TokenCache.MemoryCache.Set` | pkg/core/token/cache.go:59-64 | replaces the entry and its expiry, nothing else |
| `TokenCache.MemoryCache.Delete` | pkg/core/token/cache.go:66-71 | removes exactly one key |
| `TokenCache.MemoryCache.Flush` | pkg/core/token/cache.go:73-78 | empties the cache |
| `TokenCache.MemoryCache.Cleanup` | pkg/core/token/cache.go:80-93 | removes exactly the expired entries |
| `TokenCache.CacheIsTimedMap` | pkg/core/token/cache.go:30-93 | after any operations, every lookup is answered by the newest operation on the key, wherever cleanups fell |
| `TokenCache.HashToken` | pkg/core/token/cache.go:23-26 | a token key is 64 hexadecimal digits |
| `TokenCache.TokenKeySpellsDigest` | pkg/core/token/cache.go:23-26 | the digits read, two for each octet and the high one first, as the SHA-256 digest |
| `TokenCache.SameKeySameDigest` | pkg/core/token/cache.go:23-26 | tokens with one key have one SHA-256 digest |
| `TokenCache.KeySpacesDisjoint` | pkg/core/token/revocation.go:149-153 | token keys, the three index spaces and proof identifiers never collide, and identifiers within a space do not either |
| `Revocation.ReadIndex` | pkg/core/token/revocation.go:189-208 | the hashes of the live index entry, none otherwise |
| `Revocation.AppendIndexHash` | pkg/core/token/revocation.go:176-186 | a listed hash changes nothing; a new one is appended and gives the list its lifetime |
| `Revocation.IndexClaims` | pkg/core/token/revocation.go:159-173 | indexes by jti, subject and session, each only if present |
| `Revocation.DeleteIndexedTokens` | pkg/core/token/revocation.go:219-232 | removes the listed hashes and the list |
| `Revocation.Process` | pkg/core/token/revocation.go:110-141 | hash before jti before session before subject; an event that names nothing fails and changes nothing |
| `Revocation.RevocationIsTargeted` | pkg/core/token/revocation.go:110-141 | exactly the keys an event names or its live list holds are evicted; every other lookup at any later time is unchanged |
| `Revocation.EventPrecedence` | pkg/core/token/revocation.go:110-141 | which field counts, under which keys, and exactly which lookups fail afterwards; the event fails iff it names nothing |
| `Revocation.JtiEventReaches` | pkg/core/token/revocation.go:110-173 | a cached token is gone after an event with its jti, for as long as it would have lived |
| `Revocation.SubjectEventReaches` | pkg/core/token/revocation.go:110-186 | a cached token is gone after an event for its subject, unless an older list naming it expires first |
| `Revocation.SessionEventReaches` | pkg/core/token/revocation.go:110-186 | the same for its session |
| `Revocation.JtiEventReachesInRuns` | pkg/core/token/revocation.go:110-173 | in every ordered run, a jti event evicts the token cached under it, unless the jti was cached again or its entry deleted |
| `Revocation.SharedJtiSurvives` | pkg/core/token/revocation.go:110-173 | of two tokens cached with one jti, the first survives the event |
| `Revocation.IndexStaysSound` | pkg/core/token/revocation.go:159-208 | in every run, lists are duplicate-free and name only hashes cached for that subject or session |
| `Revocation.CoveredIff` | pkg/core/token/revocation.go:128-137 | revocation is complete at every later moment iff the live list names every live token of the owner and outlives it |
| `Revocation.CachingCoversIff` | pkg/core/token/revocation.go:155-186 | caching a token keeps that cover iff the list, prolonged only by new hashes, outlives the owner's live tokens |
| `Revocation.RevokingCoversIff` | pkg/core/token/revocation.go:110-141 | an event keeps that cover iff it does not delete the list by its raw key while a token of the owner is live |
| `Revocation.CompleteIff` | pkg/core/token/revocation.go:110-186 | in every ordered run, revocation is complete at every later moment after every step iff every step keeps to the duty of the two rows above |
| `Revocation.DutifulRunsRevokeAll` | pkg/core/token/revocation.go:128-186 | after every run that keeps to the duty, revoking the group leaves no live token of it |
| `Revocation.RecachedTokenSurvives` | pkg/core/token/revocation.go:176-186 | two tokens, 30 s lifetimes, one cached again: the subject is revoked and that token still hits |
| `Revocation.LongerTokenSurvives` | pkg/core/token/revocation.go:176-186 | a token with 5 s left gives the list its lifetime: the subject is revoked after that and the longer-lived token still hits |
| `Revocation.UnlistedTokenSurvives` | pkg/core/token/revocation.go:111-114 | an event names the list's key as a token hash: the subject is revoked afterwards and its token still hits |
| `Revocation.UniformDutyIff` | pkg/core/token/revocation.go:110-186 | when all tokens of an owner are cached for one lifetime, revocation is complete after every step iff none is cached again while the live list names it without outliving it, and none is live when an event deletes the list by its raw key |
| `Dpop.NewRules` | pkg/core/token/dpop.go:193-201 | a maximum age that is not positive becomes 60 s |
| `Dpop.Validator.Validate` | pkg/core/token/dpop.go:154-222 | freshness, token hash, nonce, jti and replay checks in this order; only an accepted proof is recorded |
| `Dpop.AcceptsIff` | pkg/core/token/dpop.go:154-222 | a proof is accepted iff it is at most the maximum age old and 5 s ahead, its ath decodes to the token's digest, its nonce is current and its jti non-empty and unrecorded |
| `Dpop.FailureIff` | pkg/core/token/dpop.go:154-222 | which failure is reported: the first of the checks that fails; only success records the jti, for the maximum age |
| `Dpop.RecordedJtiBlocks` | pkg/core/token/dpop.go:214-219 | while a record is live no proof with that jti is accepted |
| `Dpop.LateAcceptance` | pkg/core/token/dpop.go:154-161 | a proof accepted more than its maximum age after a moment was issued after that moment, within the skew |
| `Dpop.AcceptedAgainIff` | pkg/core/token/dpop.go:154-222 | with or without nonces, an accepted proof can be accepted again iff it was dated in the future and its nonce, if nonces are on, is still good when the jti record has expired |
| `DpopNonce.NewNonceProvider` | pkg/core/token/dpop.go:234-239 | a window that is not positive becomes five minutes |
| `DpopNonce.AcceptedWasIssued` | pkg/core/token/dpop.go:243-261 | a nonce is accepted iff it was the current one at some moment of this window or the last |
| `DpopNonce.WindowLifetime` | pkg/core/token/dpop.go:243-261 | the nonce of a window is accepted exactly in that window and the next |
| `DpopNonce.NonceLifetime` | pkg/core/token/dpop.go:243-261 | a nonce is accepted exactly from the start of its window to the end of the next: everywhere in [t, t + W], nowhere from t + 2W |
| `Matcher.PrefixIsSegmentPrefix` | pkg/core/policy/matcher.go:29-31 | the string test at a segment boundary is the prefix relation on segments |
| `Matcher.DoubleStarMatchesSegments` | pkg/core/policy/matcher.go:13-32 | a `**` pattern matches iff the path is not the root and the literal prefix's segments start the path's |
| `Matcher.DoubleStarClosedBelow` | pkg/core/policy/matcher.go:13-32 | what matches a path matches everything below it |
| `Matcher.TrailingSlash` | pkg/core/policy/matcher.go:14-16 | trailing slashes on pattern or path change nothing |
| `Matcher.RootMatchesRootOnly` | pkg/core/policy/matcher.go:15-20 | the root path is matched iff the pattern is all slashes |
| `Matcher.PlainPatternIsGlob` | pkg/core/policy/matcher.go:13-39 | without two stars the library's match of the path against the pattern decides |
| `Matcher.StarsMatchBelow` | pkg/core/policy/matcher.go:22-32 | with two stars a path matches iff it is the text before the first ones or continues it after a slash |
| `Matcher.MatchMethodIff` | pkg/core/policy/matcher.go:43-55 | methods are compared letter by letter without regard to case; none listed means all |
| `Matcher.ACRIsPartialOrder` | pkg/core/policy/matcher.go:61-87 | for any hierarchy, repeated entries included: reflexive, transitive, antisymmetric, total on listed levels, equality elsewhere |
| `Matcher.LaterLevelSatisfies` | pkg/core/policy/matcher.go:61-87 | a level satisfies another iff they are equal or it is listed no earlier |
| `Matcher.IndexOf` | pkg/core/policy/matcher.go:80-87 | the first position, or -1 iff absent |
| `Rar.Unmet` | pkg/core/rar/types.go:140-155 | none iff every filter is satisfied by some detail |
| `Rar.MetIff` | pkg/core/rar/types.go:60-138 | what the raw fields of some detail must hold: the kind, every action in an array of strings, every field as that string |
| `Rar.MatchAll` | pkg/core/rar/types.go:112-155 | the nested loops find the first unmet filter |
| `Rar.UnmetMonotone` | pkg/core/rar/types.go:112-155 | more details never leave a filter unmet |
| `PolicyEngine.Engine.Evaluate` | pkg/core/policy/engine.go:23-43 | the loop returns the check of the first enabled matching policy, or denies |
| `PolicyEngine.Engine.MatchesPolicy` | pkg/core/policy/engine.go:46-56 | method and some resource pattern match |
| `PolicyEngine.Engine.Check` | pkg/core/policy/engine.go:59-123 | the first failing requirement in order is the reason, with the required ACR and age |
| `PolicyEngine.Engine.Reload` | pkg/core/policy/engine.go:126-128 | replaces the configuration |
| `PolicyEngine.Shortfall` | pkg/core/policy/engine.go:59-123 | there is no shortfall iff scopes, ACR, age, MFA and details are all fulfilled |
| `PolicyEngine.ReasonIff` | pkg/core/policy/engine.go:59-123 | which reason is given, with which values: that of the first requirement that fails |
| `PolicyEngine.FirstShortfall` | pkg/core/policy/engine.go:59-123 | the scope named is the first one lacking, the kind that of the first filter unmet |
| `PolicyEngine.FirstMatch` | pkg/core/policy/engine.go:28-39 | the first enabled matching policy, with none before it |
| `PolicyEngine.AllowedIff` | pkg/core/policy/engine.go:23-123 | allowed iff a first enabled matching policy exists and the token fulfils all of it |
| `PolicyEngine.RefusedIff` | pkg/core/policy/engine.go:23-43 | without a configuration or an applying policy the refusal says just that |
| `PolicyEngine.InsertIrrelevant` | pkg/core/policy/engine.go:28-39 | inserting a disabled or non-matching policy anywhere changes no result |
| `PolicyEngine.TailIrrelevant` | pkg/core/policy/engine.go:28-39 | policies after the first match never matter |
| `PolicyEngine.AccessKeptIff` | pkg/core/policy/engine.go:59-123 | a token no weaker in scopes, methods, details and ACR and no older keeps access iff its age is positive or the deciding policy has no max_age |
| `PolicyEngine.Monotone` | pkg/core/policy/engine.go:59-123 | more scopes, methods or details, a higher ACR or a younger positive age never turns allow into deny |
| `PolicyEngine.FreshestIsRefused` | pkg/core/policy/engine.go:89-94 | an age of zero is refused where one nanosecond is accepted |
| `Challenge.WWWAuthenticateHeader` | pkg/core/stepup/challenge.go:35-58 | prints the header, which parses back for a clean challenge |
| `Challenge.HeaderParts` | pkg/core/stepup/challenge.go:36-55 | the parameters in order, empty ones and non-positive max_age left out, realm defaulting to IAM |
| `Challenge.HeaderText` | pkg/core/stepup/challenge.go:35-58 | the printed text, parameter by parameter, with the literal names |
| `Challenge.ParseWWWAuthenticate` | pkg/core/stepup/challenge.go:70-103 | the loop over the parts is the parse function; it fails iff the scheme is not Bearer, and whatever it yields is clean |
| `Challenge.ParsesName` | pkg/core/stepup/challenge.go:79-94 | a header with one parameter of a literal name reads as exactly that field |
| `Challenge.ParsesAppendedName` | pkg/core/stepup/challenge.go:79-94 | a further parameter of a literal name sets exactly that field, the last one counting |
| `Challenge.ParsesAppendedMaxAge` | pkg/core/stepup/challenge.go:95-96 | the same for max_age |
| `Challenge.ParsesAppendedOther` | pkg/core/stepup/challenge.go:79-98 | a parameter of another name, or a part without an equals sign, changes nothing |
| `Challenge.DecimalReadsLeftToRight` | pkg/core/stepup/challenge.go:54-55 | numbers are printed in decimal, highest digit first, without leading zeros |
| `Challenge.ScanSigned` | pkg/core/stepup/challenge.go:95-96 | a number is read with its sign up to the first other character, if it fits 64 bits |
| `Challenge.ParsedIsClean` | pkg/core/stepup/challenge.go:79-100 | no parsed field holds a comma or an outer quote, for any header |
| `Challenge.RoundTripIff` | pkg/core/stepup/challenge.go:35-103 | parsing a printed challenge gives it back, with default realm and no max_age below 1, iff its fields are clean |
| `Denial.ChallengeSuffices` | internal/gateway/guard.go:413-423 | a client that parses a denial's header and returns with that ACR and age is not refused for either again |
| `Denial.DenialHeader` | internal/gateway/guard.go:413-423 | the text of a denial's header, with the literal error code and description |
| `StepUp.FlowState.constructor` | internal/gateway/guard.go:302-306 | a flow begins challenged, at the time the request was saved |
| `StepUp.FlowState.Complete` | pkg/core/stepup/statemachine.go:132-143 | completes a challenged flow in time, fails a late one, refuses any other |
| `StepUp.FlowState.Fail` | pkg/core/stepup/statemachine.go:146-148 | fails the flow |
| `StepUp.FlowNeverMovesBack` | pkg/core/stepup/statemachine.go:132-148 | over any sequence a flow never moves back, and is completed iff it was first completed in time and never failed |
| `StepUp.ReadCookieIff` | pkg/core/stepup/statemachine.go:199-229 | a cookie yields a request iff it is a dot-free payload and its signature, the payload decodes to the request, and 600 s have not passed |
| `StepUp.CookieRoundTrip` | pkg/core/stepup/statemachine.go:167-229 | a cookie, payload, dot and signature, yields the saved request for 600 s and nothing afterwards |
| `Guard.ResourceServerGuard.ServeHTTP` | internal/gateway/guard.go:129-282 | the request path with its early returns changes the state and answers as the step function |
| `Guard.ResourceServerGuard.ValidateProof` | internal/gateway/guard.go:163-178 | proof validation on the shared cache |
| `Guard.ResourceServerGuard.Introspect` | internal/gateway/guard.go:356-386 | cache first; an active answer is cached and indexed for min(30 s, remaining life) if that is positive |
| `Guard.ResourceServerGuard.Conclude` | internal/gateway/guard.go:182-281 | activity, issuer, key binding, profile, policy, then the pending step-up |
| `Guard.ResourceServerGuard.CompleteStepUp` | internal/gateway/guard.go:301-353 | the saved request is evaluated with the current claims and replayed only from a completed flow |
| `GuardRequests.OutcomeIs` | internal/gateway/guard.go:129-195 | the outcome of every request: limiter, tenant, provider, token, proof, claims, in this order, then what the claims decide |
| `GuardRequests.RefusalIff` | internal/gateway/guard.go:182-245 | which refusal the claims get: activity, issuer, proof key, profile and policy, each iff all before it pass |
| `GuardRequests.DenialIs` | internal/gateway/guard.go:224-243 | a policy denial carries the engine's result for this method, path and these claims, and the cookie the denied request |
| `GuardRequests.PassIs` | internal/gateway/guard.go:247-281 | what passes goes upstream as itself, or as the request that a signed, young cookie for another path brings back, if that is permitted |
| `GuardRequests.PermittedIff` | internal/gateway/guard.go:224-231 | the engine allows a method and path for claims iff the first enabled policy for them is fulfilled, scope by scope, with ACR, age, MFA and details |
| `GuardRequests.ProofGoodIff` | pkg/core/token/dpop.go:154-222 | the accepted proofs in terms of times, the token's digest, the nonce's window and the record of the jti |
| `GuardRequests.ForwardedExactly` | internal/gateway/guard.go:129-282 | a request is forwarded iff limiter, identification, proof, claims, policy and the cookie's request all pass, each spelled out |
| `Guard.ForwardedIff` | internal/gateway/guard.go:182-281 | forwarded iff every check passes and a request to replay is itself allowed |
| `Guard.DeniedRequestIsReplayed` | internal/gateway/guard.go:252-264 | the cookie of a denied request brings that very request upstream within 600 s once it is allowed |
| `Guard.CachedAnswerIsReused` | internal/gateway/guard.go:356-386 | an active answer is reused exactly until 30 s or the token's expiry, whichever is first |
| `GuardRuns.ConfigIsInForce` | pkg/core/policy/engine.go:126-128 | after any run the configuration is the last one loaded |
| `GuardRuns.EntriesAreTraced` | internal/gateway/guard.go:356-386 | in every run, each cached token entry comes from an earlier request with that key, expires within 30 s of it and not after the token |
| `GuardRuns.ForwardedIsAuthorized` | internal/gateway/guard.go:129-386 | in every run, what is forwarded, own or replayed, carried an acceptable, unrecorded proof if proofs are on, and is permitted by the configuration in force for active, issuer-matching, key-bound claims that are an at most 30 s old answer, whichever tenant caused them to be cached |
| `GuardRuns.StaleForAtMost30s` | internal/gateway/guard.go:356-386 | nothing is forwarded for a token more than 30 s after a provider last vouched for it |
| `GuardRuns.RevokedIsNeverForwarded` | pkg/core/token/revocation.go:110-141 | with providers answering inactive, a webhook that reaches the token by hash, jti, session or subject, or by its hash given as a jti, ends forwarding for it in every continuation |
| `GuardRuns.DeniedSaves` | pkg/core/stepup/statemachine.go:112-121 | a policy denial saves the method, path and query of the denied request, the time, the state identifier and what was required |
| `GuardCacheRuns.StoreIsCacheRun` | internal/gateway/guard.go:163-181 | the guard's cache is, after every run, the result of the cache steps its events make, in order |
| `GuardCacheRuns.GuardRevokesGroups` | pkg/core/token/revocation.go:128-186 | in every ordered run of the guard the lists are sound, and when the duty on lifetimes is met, revoking an owner leaves no token of it cached |
| `GuardCacheRuns.JtiWebhookEndsForwarding` | pkg/core/token/revocation.go:110-173 | in every ordered run, a webhook with a cached token's jti ends forwarding for it once providers answer inactive, unless the jti was cached again or its entry deleted |
| `GuardCacheRuns.GuardCompleteIff` | internal/gateway/guard.go:163-181 | in every ordered run of the guard, revoking an owner is complete at every later moment after every event iff every cache step keeps to its duty |
| `GuardCacheRuns.GuardDutyIff` | internal/gateway/guard.go:356-386 | when an owner's tokens carry no expiry, that is so iff none is cached again while the live list names it without outliving it, and none is live when a webhook deletes the list by its raw key |
| `GuardCacheRuns.GuardRecachedTokenSurvives` | internal/gateway/guard.go:356-386 | three requests, at 0 s, 10 s and 35 s, after which a token of the subject survives the revocation at 50 s |
| `GuardRuns.ReplayedWasDenied` | internal/gateway/guard.go:247-264 | with unforged cookies, every replayed request is one this gateway denied by policy at most 600 s before |
| `GuardProofRuns.SameJtiFarApart` | pkg/core/token/dpop.go:203-222 | in every ordered run, accepted proofs with one jti are more than the maximum age apart, unless a webhook between them deleted the record; the same proof only if dated in the future, and then within the 5 s skew |
| `GuardProofRuns.ForwardedFarApart` | pkg/core/token/dpop.go:203-222 | two forwarded requests carried accepted proofs, and if these share a jti they lie that far apart |
| `GuardProofRuns.RecordRevokedIff` | pkg/core/token/revocation.go:110-141 | in every run, a webhook deletes a proof's record iff it names the record's raw key as token hash, or as a jti without index entry |
| `GuardProofRuns.RevokedRecordReopens` | pkg/core/token/dpop.go:203-222 | after such a webhook the very same proof is accepted again at once |
| `GuardProofRuns.RecordsAreTraced` | pkg/core/token/dpop.go:203-222 | in every run, each recorded jti was carried by the proof of an earlier request |
| `GuardTenants.HitForwardedIff` | internal/gateway/guard.go:180-200 | on a hit the tenant's own provider is not asked; the request is forwarded iff that provider declares no issuer or the cached claims' one, and nothing else speaks against it |
| `GuardTenants.SeparatedTenantsAreBound` | internal/gateway/guard.go:187-200 | in every ordered run of any guard, when every provider declares an issuer that no other tenant's provider answers with, forwarded claims were vouched for by the request's own tenant's provider |
| `GuardTenants.CrossTenantHit` | internal/gateway/guard.go:356-386 | two clients, one token, two tenants, within 30 s: the second request is decided on the claims of the first one's provider |
| `GuardTenants.UnboundTenant` | internal/gateway/guard.go:187-200 | two requests of which the second is forwarded on claims that only another tenant's provider vouched for |
| `GuardTenants.TenantsBoundIff` | internal/gateway/guard.go:187-200 | in a caching guard without policies, profile and proofs, claims are bound to tenants in all ordered runs iff issuers are declared and separate as above |
| `GuardRateRuns.LimiterRun` | internal/gateway/guard.go:134-139 | the limiter inside the guard is the stand-alone limiter on the run's requests and cleanups |
| `GuardRateRuns.ForwardRateBound` | internal/gateway/guard.go:134-139 | in every ordered run with a burst the idle time refills, between two forwarded requests of a client at most burst + rps * time are forwarded |
| `GuardOverdraw.OpenGuardWelcomes` | internal/gateway/guard.go:129-281 | without policies, profile and nonces, with or without proofs and cache, an active bound caller with a fresh proof for each request is held back by the limiter alone |
| `GuardOverdraw.OverdrawnGuard` | internal/gateway/guard.go:134-139 | for every other burst, a caller whom only the limiter holds back is forwarded more than that in a concrete ordered run |
| `GuardOverdraw.ForwardRateBoundIff` | internal/gateway/guard.go:134-139 | in a guard with such a caller the bound holds in all ordered runs iff burst <= rps * (300 s + 1 ns) |
| `Base64Url.Encode` | pkg/devkit/tokenfactory/factory.go:150-172 | the loop's output has length (4n + 2) / 3 and decodes to the input |
| `Base64Url.EncodeGroup` | pkg/devkit/tokenfactory/factory.go:154-169 | one turn appends the symbols of one group |
| `Base64Url.AlphabetIs` | pkg/devkit/tokenfactory/factory.go:150-172 | the symbols of section 5 of RFC 4648, by their ASCII codes |
| `Base64Url.EncodedGroup` | pkg/devkit/tokenfactory/factory.go:154-169 | four symbols carry the bits of three bytes in order |
| `Base64Url.RoundTrip` | pkg/devkit/tokenfactory/factory.go:150-172 | decoding by section 5 of RFC 4648 inverts encoding on every byte sequence |
| `Base64Url.EncodedInjective` | pkg/devkit/tokenfactory/factory.go:150-172 | different bytes have different encodings |
| `RsaJwk.ExponentBytes` | pkg/devkit/tokenfactory/factory.go:113-122 | the bytes denote the exponent modulo 2^32, with no leading zero beyond the first byte |
| `RsaJwk.PublicKeyJwk` | pkg/devkit/tokenfactory/factory.go:110-133 | the member n decodes to the modulus, the member e to the exponent modulo 2^32; they are what the read-back results are about |
| `RsaJwk.ReadOfEncoded` | pkg/core/token/dpop.go:485-509 | what a reader gets for any two encoded byte strings: the low 64 bits of the exponent, refused unless positive as a signed number |
| `RsaJwk.ReadEmitted` | pkg/core/token/dpop.go:485-509 | what a reader gets for every modulus and exponent, errors included |
| `RsaJwk.ReadsBackIff` | pkg/core/token/dpop.go:485-509 | the key is read back iff n > 0 and 0 < e < 2^32 |
| `Pkce.GenerateVerifier` | pkg/core/pkce/pkce.go:33-44 | 96 random bytes give a legal verifier of 128 characters that loses none of them |
| `Pkce.ValidateVerifier` | pkg/core/pkce/pkce.go:94-108 | accepts iff length and alphabet are legal |
| `Pkce.UnreservedIff` | pkg/core/pkce/pkce.go:94-108 | the legal characters, by their ASCII codes |
| `Pkce.SecureEqual` | pkg/core/pkce/pkce.go:111-120 | the accumulator loop is equality |
| `Pkce.Verify` | pkg/core/pkce/pkce.go:57-75 | accepts iff the verifier has 43 to 128 legal characters, the method is known and the challenge is the verifier or the encoding of its hash |
| `Pkce.GenerateThenVerify` | pkg/core/pkce/pkce.go:33-75 | a generated verifier always passes against its own S256 challenge |

## Left out

- HTTP transport, reverse proxy, router, admin API, telemetry, audit and metrics: input and output around the core.
- Header hygiene before forwarding (internal/gateway/guard.go:266-277): field copying.
- Tenant resolution, registry, claims mapping and bearer extraction: their results are inputs of a request.
- Provider calls: an answer is an arbitrary input, so runtime registration of tenants is covered too.
- JWT parsing, signature verification, htm and htu comparison, JWK thumbprints: a proof is an input after them.
- The webhook's HTTP handling and its HMAC check: an event is one that was accepted.
- The Redis cache and index entries after a JSON round trip: foreign storage.
- `CachedIntrospector`: the guard's introspection with a configurable lifetime.
- The gin, echo, stdlib and grpc middleware: shorter copies of the guard path.
- Interleaving of goroutines inside one request or one index update: each is one step.
- Overflow of durations: `max_age` in seconds is multiplied in unbounded integers.
- Rounding of `float64` in the limiter: arithmetic is exact.
- `path.Match` for patterns without `**`: a parameter.
- Case mapping of method names beyond ASCII, and bytes that are not valid UTF-8 in strings.
- Go's base64 decoder skipping line breaks: the decoder here rejects them.
