/**
 What a denial tells the client: the challenge that `handleDenial` in
 internal/gateway/guard.go writes, and whether a client that reads it and comes
 back with what it asks for gets past the requirements it names.
 */
module Denial {
  import opened Options
  import opened Clock
  import Text
  import Challenge
  import PolicyEngine
  import Matcher

  const ERROR_CODE := "insufficient_user_authentication"
  const DESCRIPTION := "higher authentication level required"

  /** `NewInsufficientACRError` and `NewStepUpChallenge`. */
  function DenialChallenge(realm: string, requiredACR: string, maxAge: Challenge.Int64): Challenge.StepUpChallenge {
    Challenge.StepUpChallenge(realm, ERROR_CODE, DESCRIPTION, requiredACR, maxAge)
  }

  /** The header that a denial sends, letter by letter. */
  lemma DenialHeader(realm: string, requiredACR: string, maxAge: Challenge.Int64)
    requires realm != ""
    ensures Challenge.Header(DenialChallenge(realm, requiredACR, maxAge))
         == "Bearer " + Text.Join(
              ["realm=\"" + realm + "\""] + ["error=\"" + "insufficient_user_authentication" + "\""]
              + ["error_description=\"" + "higher authentication level required" + "\""]
              + (if requiredACR == "" then [] else ["acr_values=\"" + requiredACR + "\""])
              + (if maxAge <= 0 then [] else ["max_age=" + Challenge.Decimal(maxAge)]), ", ")
  {
    Challenge.HeaderText(DenialChallenge(realm, requiredACR, maxAge));
  }

  /** The client has what the challenge asks for: the ACR, and an authentication that is recent enough. */
  predicate Answers(c: Challenge.StepUpChallenge, req: PolicyEngine.Request) {
    && (c.acrValues != "" ==> req.acr == c.acrValues)
    && (c.maxAge > 0 ==> 0 < req.authAge <= c.maxAge * SECOND)
  }

  lemma DenialIsClean(realm: string, requiredACR: string, maxAge: Challenge.Int64)
    requires realm != "" && Challenge.CleanField(realm) && Challenge.CleanField(requiredACR)
    ensures Challenge.Clean(Challenge.Normal(DenialChallenge(realm, requiredACR, maxAge)))
  {
    assert Challenge.CleanField(ERROR_CODE);
    assert Challenge.CleanField(DESCRIPTION);
  }

  /**
   The header of a denial by a matched policy parses to a challenge such that no
   answer to it is refused for its ACR or for the age of its authentication, as long
   as the realm and the policy's ACR can be carried in a header.
   */
  lemma ChallengeSuffices(glob: Matcher.Glob, config: PolicyEngine.Config, realm: string, denied: PolicyEngine.Request, again: PolicyEngine.Request)
    requires var r := PolicyEngine.Evaluated(glob, Some(config), denied);
             && !r.allowed && r.matched.Some?
             && -0x8000_0000_0000_0000 <= r.requiredMaxAge < 0x8000_0000_0000_0000
             && Challenge.CleanField(r.requiredACR)
    requires realm != "" && Challenge.CleanField(realm)
    requires again.httpMethod == denied.httpMethod && again.path == denied.path
    ensures
      var r := PolicyEngine.Evaluated(glob, Some(config), denied);
      var parsed := Challenge.Parse(Challenge.Header(DenialChallenge(realm, r.requiredACR, r.requiredMaxAge)));
      && parsed.Some? && parsed.value.acrValues == r.requiredACR
      && (Answers(parsed.value, again) ==>
            var why := PolicyEngine.Evaluated(glob, Some(config), again).reason;
            why.None? || why.value.MissingScope? || why.value.MfaRequired? || why.value.MissingDetail?)
  {
    var r := PolicyEngine.Evaluated(glob, Some(config), denied);
    var c := DenialChallenge(realm, r.requiredACR, r.requiredMaxAge);
    DenialIsClean(realm, r.requiredACR, r.requiredMaxAge);
    Challenge.RoundTripIff(c);
    assert Challenge.Parse(Challenge.Header(c)) == Some(Challenge.Normal(c));
    PolicyEngine.SameMatch(glob, config.policies, denied, again);
  }
}
