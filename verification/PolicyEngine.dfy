/** Policy evaluation, pkg/core/policy/engine.go and types.go. */
module PolicyEngine {
  import opened Options
  import opened Clock
  import opened Matcher
  import Rar

  datatype Policy = Policy(
    name: string, resources: seq<string>, methods: seq<string>, requireACR: string, maxAge: int,
    requireMFA: bool, requireScopes: seq<string>, requireDetails: seq<Rar.Filter>, enabled: bool)

  datatype Config = Config(policies: seq<Policy>, acrLevels: seq<string>)

  /** `authAge` in nanoseconds; 0 or less stands for "unknown". */
  datatype Request = Request(
    httpMethod: string, path: string, acr: string, amr: seq<string>, scopes: seq<string>,
    authAge: int, details: seq<Rar.AuthorizationDetail>)

  datatype Reason =
    | NoConfig
    | NoMatchingPolicy
    | MissingScope(scope: string)
    | AcrTooLow(provided: string, required: string)
    | NoAuthTime
    | AuthTooOld(age: int, max: int)
    | MfaRequired
    | MissingDetail(kind: string)

  datatype Result = Result(
    allowed: bool, matched: Option<Policy>, requiredACR: string, requiredMaxAge: int, reason: Option<Reason>)

  function Refused(why: Reason): Result {
    Result(false, None, "", 0, Some(why))
  }

  // ----- What a policy asks for

  /** Does the request fall under the policy? */
  predicate Matches(glob: Glob, p: Policy, req: Request) {
    && MatchMethod(p.methods, req.httpMethod)
    && exists i | 0 <= i < |p.resources| :: MatchResource(glob, p.resources[i], req.path)
  }

  predicate Applies(glob: Glob, p: Policy, req: Request) {
    p.enabled && Matches(glob, p, req)
  }

  predicate ScopesHeld(p: Policy, req: Request) {
    forall s | s in p.requireScopes :: s in req.scopes
  }

  predicate AcrReached(p: Policy, levels: seq<string>, req: Request) {
    p.requireACR == "" || ACRSatisfies(req.acr, p.requireACR, levels)
  }

  predicate Recent(p: Policy, req: Request) {
    p.maxAge > 0 ==> 0 < req.authAge <= p.maxAge * SECOND
  }

  predicate MfaShown(p: Policy, req: Request) {
    p.requireMFA ==> "mfa" in req.amr || "otp" in req.amr || "hwk" in req.amr
  }

  /** Everything a matched policy requires of the token. */
  predicate Fulfilled(p: Policy, levels: seq<string>, req: Request) {
    && ScopesHeld(p, req)
    && AcrReached(p, levels, req)
    && Recent(p, req)
    && MfaShown(p, req)
    && Rar.Unmet(p.requireDetails, req.details).None?
  }

  /** The first scope in order that the token lacks. */
  function LackedScope(required: seq<string>, held: seq<string>): (r: Option<string>)
    ensures r.None? <==> forall s | s in required :: s in held
  {
    if required == [] then None
    else if required[0] !in held then Some(required[0])
    else LackedScope(required[1..], held)
  }

  /** The first requirement that fails, in the order of the source. */
  function Shortfall(p: Policy, levels: seq<string>, req: Request): (r: Option<Reason>)
    ensures r.None? <==> Fulfilled(p, levels, req)
  {
    var lacked := LackedScope(p.requireScopes, req.scopes);
    var unmet := Rar.Unmet(p.requireDetails, req.details);
    if lacked.Some? then Some(MissingScope(lacked.value))
    else if !AcrReached(p, levels, req) then Some(AcrTooLow(req.acr, p.requireACR))
    else if p.maxAge > 0 && req.authAge <= 0 then Some(NoAuthTime)
    else if p.maxAge > 0 && req.authAge > p.maxAge * SECOND then Some(AuthTooOld(req.authAge, p.maxAge * SECOND))
    else if !MfaShown(p, req) then Some(MfaRequired)
    else if unmet.Some? then Some(MissingDetail(unmet.value))
    else None
  }

  lemma {:induction false} FirstLacked(required: seq<string>, held: seq<string>) returns (i: nat)
    requires LackedScope(required, held).Some?
    ensures i < |required| && LackedScope(required, held) == Some(required[i]) && required[i] !in held
    ensures forall j | 0 <= j < i :: required[j] in held
  {
    if required[0] !in held {
      i := 0;
    } else {
      var k := FirstLacked(required[1..], held);
      i := k + 1;
      assert forall j | 0 < j < i :: required[j] == required[1..][j - 1];
    }
  }

  function Checked(p: Policy, levels: seq<string>, req: Request): Result {
    var why := Shortfall(p, levels, req);
    Result(why.None?, Some(p), p.requireACR, p.maxAge, why)
  }

  /** The position of the first enabled policy that matches; the length when there is none. */
  function FirstMatch(glob: Glob, ps: seq<Policy>, req: Request): (i: nat)
    ensures i <= |ps|
    ensures i < |ps| ==> Applies(glob, ps[i], req)
    ensures forall j | 0 <= j < i :: !Applies(glob, ps[j], req)
  {
    if ps == [] || Applies(glob, ps[0], req) then 0
    else 1 + FirstMatch(glob, ps[1..], req)
  }

  function Evaluated(glob: Glob, config: Option<Config>, req: Request): Result {
    match config
    case None => Refused(NoConfig)
    case Some(c) =>
      var i := FirstMatch(glob, c.policies, req);
      if i == |c.policies| then Refused(NoMatchingPolicy) else Checked(c.policies[i], c.acrLevels, req)
  }

  // ----- The engine of the source

  class Engine {
    const glob: Glob
    var config: Option<Config>

    constructor (glob: Glob, config: Option<Config>)
      ensures this.glob == glob && this.config == config
    {
      this.glob := glob;
      this.config := config;
    }

    method Evaluate(req: Request) returns (result: Result)
      ensures result == Evaluated(glob, config, req)
    {
      if config.None? {
        return Refused(NoConfig);
      }
      var ps := config.value.policies;
      for i := 0 to |ps|
        invariant forall j | 0 <= j < i :: !Applies(glob, ps[j], req)
      {
        var p := ps[i];
        if !p.enabled {
          continue;
        }
        var m := MatchesPolicy(p, req);
        if !m {
          continue;
        }
        result := Check(p, config.value.acrLevels, req);
        return;
      }
      return Refused(NoMatchingPolicy);
    }

    method MatchesPolicy(p: Policy, req: Request) returns (m: bool)
      ensures m == Matches(glob, p, req)
    {
      if !MatchMethod(p.methods, req.httpMethod) {
        return false;
      }
      for i := 0 to |p.resources|
        invariant forall k | 0 <= k < i :: !MatchResource(glob, p.resources[k], req.path)
      {
        if MatchResource(glob, p.resources[i], req.path) {
          return true;
        }
      }
      return false;
    }

    method Check(p: Policy, levels: seq<string>, req: Request) returns (result: Result)
      ensures result == Checked(p, levels, req)
    {
      result := Result(false, Some(p), p.requireACR, p.maxAge, None);
      for i := 0 to |p.requireScopes|
        invariant LackedScope(p.requireScopes, req.scopes) == LackedScope(p.requireScopes[i..], req.scopes)
      {
        if p.requireScopes[i] !in req.scopes {
          return result.(reason := Some(MissingScope(p.requireScopes[i])));
        }
        assert p.requireScopes[i..][1..] == p.requireScopes[i + 1..];
      }
      if p.requireACR != "" && !ACRSatisfies(req.acr, p.requireACR, levels) {
        return result.(reason := Some(AcrTooLow(req.acr, p.requireACR)));
      }
      if p.maxAge > 0 {
        if req.authAge <= 0 {
          return result.(reason := Some(NoAuthTime));
        }
        var max := p.maxAge * SECOND;
        if req.authAge > max {
          return result.(reason := Some(AuthTooOld(req.authAge, max)));
        }
      }
      if p.requireMFA && "mfa" !in req.amr && "otp" !in req.amr && "hwk" !in req.amr {
        return result.(reason := Some(MfaRequired));
      }
      if |p.requireDetails| > 0 {
        var ok, missing := Rar.MatchAll(p.requireDetails, req.details);
        if !ok {
          return result.(reason := Some(MissingDetail(missing)));
        }
      }
      result := result.(allowed := true);
    }

    method Reload(config: Option<Config>)
      modifies this
      ensures this.config == config
    {
      this.config := config;
    }
  }

  // ----- First match

  /** `i` is the first policy that is enabled and matches. */
  ghost predicate IsFirst(glob: Glob, ps: seq<Policy>, req: Request, i: nat) {
    i < |ps| && Applies(glob, ps[i], req) && forall j | 0 <= j < i :: !Applies(glob, ps[j], req)
  }

  // ----- What one policy asks for, without the helpers

  ghost predicate Held(p: Policy, req: Request) {
    forall i | 0 <= i < |p.requireScopes| :: p.requireScopes[i] in req.scopes
  }

  ghost predicate Strong(p: Policy, levels: seq<string>, req: Request) {
    p.requireACR != "" ==> ACRSatisfies(req.acr, p.requireACR, levels)
  }

  ghost predicate Dated(p: Policy, req: Request) {
    p.maxAge > 0 ==> req.authAge > 0
  }

  ghost predicate Young(p: Policy, req: Request) {
    p.maxAge > 0 ==> req.authAge <= p.maxAge * 1_000_000_000
  }

  ghost predicate Multi(p: Policy, req: Request) {
    p.requireMFA ==> exists a :: a in req.amr && a in {"mfa", "otp", "hwk"}
  }

  ghost predicate Detailed(p: Policy, req: Request) {
    forall i | 0 <= i < |p.requireDetails| :: p.requireDetails[i].MetBy(req.details)
  }

  /**
   The first requirement that fails, in this order, is the reason, and it is reported with
   what was found and what was asked for; none fails exactly when access is granted.
   */
  lemma ReasonIff(p: Policy, levels: seq<string>, req: Request)
    ensures
      var r := Checked(p, levels, req);
      && r.matched == Some(p) && r.requiredACR == p.requireACR && r.requiredMaxAge == p.maxAge
      && (r.allowed <==> Held(p, req) && Strong(p, levels, req) && Dated(p, req) && Young(p, req) && Multi(p, req) && Detailed(p, req))
      && (r.allowed <==> r.reason.None?)
      && (!Held(p, req) <==> r.reason.Some? && r.reason.value.MissingScope?)
      && (Held(p, req) && !Strong(p, levels, req) <==> r.reason == Some(AcrTooLow(req.acr, p.requireACR)))
      && (Held(p, req) && Strong(p, levels, req) && !Dated(p, req) <==> r.reason == Some(NoAuthTime))
      && (Held(p, req) && Strong(p, levels, req) && Dated(p, req) && !Young(p, req)
          <==> r.reason == Some(AuthTooOld(req.authAge, p.maxAge * 1_000_000_000)))
      && (Held(p, req) && Strong(p, levels, req) && Dated(p, req) && Young(p, req) && !Multi(p, req) <==> r.reason == Some(MfaRequired))
      && (Held(p, req) && Strong(p, levels, req) && Dated(p, req) && Young(p, req) && Multi(p, req) && !Detailed(p, req)
          <==> r.reason.Some? && r.reason.value.MissingDetail?)
  {
  }

  /** A missing scope is the first one lacking, a missing detail the kind of the first filter unmet. */
  lemma FirstShortfall(p: Policy, levels: seq<string>, req: Request, why: Reason) returns (i: nat)
    requires Checked(p, levels, req).reason == Some(why) && (why.MissingScope? || why.MissingDetail?)
    ensures why.MissingScope? ==>
              && i < |p.requireScopes| && why.scope == p.requireScopes[i] && p.requireScopes[i] !in req.scopes
              && forall j | 0 <= j < i :: p.requireScopes[j] in req.scopes
    ensures why.MissingDetail? ==>
              && i < |p.requireDetails| && why.kind == p.requireDetails[i].kind && !p.requireDetails[i].MetBy(req.details)
              && forall j | 0 <= j < i :: p.requireDetails[j].MetBy(req.details)
  {
    if why.MissingScope? {
      i := FirstLacked(p.requireScopes, req.scopes);
    } else {
      i := Rar.FirstUnmet(p.requireDetails, req.details);
    }
  }

  /** Access is granted exactly when a first matching policy exists and the token fulfils it. */
  lemma AllowedIff(glob: Glob, config: Option<Config>, req: Request)
    ensures Evaluated(glob, config, req).allowed <==>
            config.Some? && exists i: nat :: IsFirst(glob, config.value.policies, req, i)
                                          && Fulfilled(config.value.policies[i], config.value.acrLevels, req)
  {
    if config.Some? {
      var ps := config.value.policies;
      var k := FirstMatch(glob, ps, req);
      assert k < |ps| ==> IsFirst(glob, ps, req, k);
      forall i: nat | IsFirst(glob, ps, req, i) ensures i == k {
        assert !(i < k) && !(k < i);
      }
    }
  }

  /** Without a configuration, or a policy that applies, a request is refused for just that. */
  lemma RefusedIff(glob: Glob, config: Option<Config>, req: Request)
    ensures
      var r := Evaluated(glob, config, req);
      && (config.None? <==> r == Result(false, None, "", 0, Some(NoConfig)))
      && (config.Some? && (forall i | 0 <= i < |config.value.policies| :: !Applies(glob, config.value.policies[i], req))
          <==> r == Result(false, None, "", 0, Some(NoMatchingPolicy)))
  {
  }

  lemma FirstMatchUnique(glob: Glob, ps: seq<Policy>, req: Request, i: nat)
    requires i <= |ps|
    requires i < |ps| ==> Applies(glob, ps[i], req)
    requires forall j | 0 <= j < i :: !Applies(glob, ps[j], req)
    ensures FirstMatch(glob, ps, req) == i
  {
    var k := FirstMatch(glob, ps, req);
    assert !(i < k) && !(k < i);
  }

  /** A disabled or non-matching policy may be inserted anywhere. */
  lemma InsertIrrelevant(glob: Glob, c: Config, req: Request, at: nat, p: Policy)
    requires at <= |c.policies| && !Applies(glob, p, req)
    ensures Evaluated(glob, Some(c.(policies := c.policies[..at] + [p] + c.policies[at..])), req)
         == Evaluated(glob, Some(c), req)
  {
    var ps := c.policies;
    var qs := ps[..at] + [p] + ps[at..];
    var k := FirstMatch(glob, ps, req);
    forall j | 0 <= j < |qs| ensures qs[j] == if j < at then ps[j] else if j == at then p else ps[j - 1] {
    }
    FirstMatchUnique(glob, qs, req, if k < at then k else k + 1);
  }

  /** What follows the first match may be replaced by anything. */
  lemma TailIrrelevant(glob: Glob, c: Config, req: Request, tail: seq<Policy>)
    requires FirstMatch(glob, c.policies, req) < |c.policies|
    ensures Evaluated(glob, Some(c.(policies := c.policies[..FirstMatch(glob, c.policies, req) + 1] + tail)), req)
         == Evaluated(glob, Some(c), req)
  {
    var k := FirstMatch(glob, c.policies, req);
    FirstMatchUnique(glob, c.policies[..k + 1] + tail, req, k);
  }

  // ----- Monotonicity

  /** The same request with a token at least as strong, its authentication no older. */
  ghost predicate NoWeaker(levels: seq<string>, weak: Request, strong: Request) {
    && strong.httpMethod == weak.httpMethod && strong.path == weak.path
    && (forall s | s in weak.scopes :: s in strong.scopes)
    && (forall a | a in weak.amr :: a in strong.amr)
    && (forall d | d in weak.details :: d in strong.details)
    && ACRSatisfies(strong.acr, weak.acr, levels)
    && strong.authAge <= weak.authAge
  }

  /**
   When a token that is no weaker and no older keeps the access it improves on: exactly
   when its age is known, that is positive, or the deciding policy does not ask for one.
   */
  lemma AccessKeptIff(glob: Glob, c: Config, weak: Request, strong: Request)
    requires NoWeaker(c.acrLevels, weak, strong)
    requires Evaluated(glob, Some(c), weak).allowed
    ensures Evaluated(glob, Some(c), strong).allowed <==>
            strong.authAge > 0 || c.policies[FirstMatch(glob, c.policies, weak)].maxAge <= 0
  {
    SameMatch(glob, c.policies, weak, strong);
    var p := c.policies[FirstMatch(glob, c.policies, weak)];
    ACRIsPartialOrder(c.acrLevels, strong.acr, weak.acr, p.requireACR);
    Rar.UnmetMonotone(p.requireDetails, weak.details, strong.details);
  }

  /** Only method and path decide which policy matches. */
  lemma SameMatch(glob: Glob, ps: seq<Policy>, a: Request, b: Request)
    requires a.httpMethod == b.httpMethod && a.path == b.path
    ensures FirstMatch(glob, ps, a) == FirstMatch(glob, ps, b)
  {
    FirstMatchUnique(glob, ps, b, FirstMatch(glob, ps, a));
  }

  /** A token that is stronger in every respect; an unknown age may be replaced by any. */
  ghost predicate Stronger(levels: seq<string>, weak: Request, strong: Request) {
    && NoWeaker(levels, weak, strong.(authAge := weak.authAge))
    && (weak.authAge > 0 ==> 0 < strong.authAge <= weak.authAge)
  }

  /** A stronger token never loses access, under any configuration. */
  lemma Monotone(glob: Glob, c: Config, weak: Request, strong: Request)
    requires Stronger(c.acrLevels, weak, strong)
    requires Evaluated(glob, Some(c), weak).allowed
    ensures Evaluated(glob, Some(c), strong).allowed
  {
    var same := strong.(authAge := weak.authAge);
    AccessKeptIff(glob, c, weak, same);
    SameMatch(glob, c.policies, weak, strong);
    SameMatch(glob, c.policies, weak, same);
  }

  /**
   The condition of `AccessKeptIff` can fail: a token whose authentication time is
   this very instant is refused where one a nanosecond older is accepted.
   */
  lemma FreshestIsRefused(glob: Glob)
    requires glob("/a", "/a")
    ensures
      var c := Config([Policy("p", ["/a"], [], "", 1, false, [], [], true)], []);
      var req := Request("GET", "/a", "", [], [], 1, []);
      && Evaluated(glob, Some(c), req).allowed
      && !Evaluated(glob, Some(c), req.(authAge := 0)).allowed
  {
    var p := Policy("p", ["/a"], [], "", 1, false, [], [], true);
    var req := Request("GET", "/a", "", [], [], 1, []);
    assert NoSlashEnd("/a") == "/a";
    assert BeforeStars("/a") == None by {
      assert "/a"[1..] == "a";
    }
    assert MatchResource(glob, p.resources[0], "/a");
    FirstMatchUnique(glob, [p], req, 0);
    FirstMatchUnique(glob, [p], req.(authAge := 0), 0);
  }
}
