/**
 Step-up flows and the signed cookie that carries the interrupted request,
 pkg/core/stepup/statemachine.go.  JSON with base64 is the pair `encode`/`decode`
 and the keyed HMAC is `sign`; what is assumed of them is said where it is used.
 */
module StepUp {
  import opened Options
  import opened Clock
  import opened Text

  const TIMEOUT := 600 * SECOND
  const COOKIE_MAX_AGE := 600 * SECOND

  datatype SavedRequest = SavedRequest(
    httpMethod: string, path: string, query: string, stateId: string, savedAt: int, acrHint: string, maxAge: int)

  // ----- Flow states

  datatype State = Idle | Challenged | Completed | Failed

  function Rank(s: State): nat {
    match s
    case Idle => 0
    case Challenged => 1
    case Completed => 2
    case Failed => 3
  }

  function AfterComplete(s: State, startedAt: int, now: int): (State, bool) {
    if s != Challenged then (s, false)
    else if now - startedAt > TIMEOUT then (Failed, false)
    else (Completed, true)
  }

  class FlowState {
    var state: State
    const saved: SavedRequest
    const startedAt: int
    var completedAt: Option<int>

    constructor (saved: SavedRequest, startedAt: int)
      ensures state == Challenged && this.saved == saved && this.startedAt == startedAt && completedAt == None
    {
      state := Challenged;
      this.saved := saved;
      this.startedAt := startedAt;
      completedAt := None;
    }

    method Complete(now: int) returns (ok: bool)
      modifies this
      ensures (state, ok) == AfterComplete(old(state), startedAt, now)
      ensures ok <==> old(state) == Challenged && now - startedAt <= 600 * SECOND
      ensures state == if ok then Completed else if old(state) == Challenged then Failed else old(state)
      ensures completedAt == if ok then Some(now) else old(completedAt)
      ensures Rank(old(state)) <= Rank(state)
    {
      if state != Challenged {
        return false;
      }
      if now - startedAt > TIMEOUT {
        state := Failed;
        return false;
      }
      state := Completed;
      completedAt := Some(now);
      return true;
    }

    method Fail()
      modifies this
      ensures state == Failed && completedAt == old(completedAt)
      ensures Rank(old(state)) <= Rank(state)
    {
      state := Failed;
    }
  }

  datatype FlowOp = DoComplete(now: int) | DoFail

  function FlowRun(s: State, startedAt: int, ops: seq<FlowOp>): State {
    if ops == [] then s
    else
      var before := FlowRun(s, startedAt, ops[..|ops| - 1]);
      match ops[|ops| - 1]
      case DoComplete(now) => AfterComplete(before, startedAt, now).0
      case DoFail => Failed
  }

  lemma FlowSnoc(s: State, startedAt: int, ops: seq<FlowOp>, op: FlowOp)
    ensures
      var before := FlowRun(s, startedAt, ops);
      FlowRun(s, startedAt, ops + [op]) == if op.DoFail? then Failed else AfterComplete(before, startedAt, op.now).0
  {
    assert (ops + [op])[..|ops|] == ops;
  }

  lemma {:induction false} FlowRank(s: State, startedAt: int, ops: seq<FlowOp>, k: nat)
    requires k <= |ops|
    ensures Rank(FlowRun(s, startedAt, ops[..k])) <= Rank(FlowRun(s, startedAt, ops))
  {
    if k == |ops| {
      assert ops[..k] == ops;
    } else {
      var init := ops[..|ops| - 1];
      FlowRank(s, startedAt, init, k);
      FlowSnoc(s, startedAt, init, ops[|ops| - 1]);
      assert init[..k] == ops[..k] && ops == init + [ops[|ops| - 1]];
    }
  }

  lemma {:induction false} FlowCompletedIff(startedAt: int, ops: seq<FlowOp>)
    ensures FlowRun(Challenged, startedAt, ops) == Completed <==>
            ops != [] && DoFail !in ops && ops[0].now - startedAt <= 600 * SECOND
    ensures FlowRun(Challenged, startedAt, ops) == Challenged <==> ops == []
  {
    if ops != [] {
      var (init, op) := (ops[..|ops| - 1], ops[|ops| - 1]);
      FlowCompletedIff(startedAt, init);
      FlowSnoc(Challenged, startedAt, init, op);
      assert ops == init + [op];
    }
  }

  /** A flow never moves backwards, and it stays completed exactly as long as nothing fails it. */
  lemma FlowNeverMovesBack(s: State, startedAt: int, ops: seq<FlowOp>, k: nat)
    requires k <= |ops|
    ensures Rank(FlowRun(s, startedAt, ops[..k])) <= Rank(FlowRun(s, startedAt, ops))
    ensures s == Challenged ==>
            (FlowRun(s, startedAt, ops) == Completed <==>
             ops != [] && DoFail !in ops && ops[0].now - startedAt <= 600 * SECOND)
  {
    FlowRank(s, startedAt, ops, k);
    FlowCompletedIff(startedAt, ops);
  }

  // ----- The cookie

  datatype CookieKey = CookieKey(
    sign: string -> string, encode: SavedRequest -> string, decode: string -> Option<SavedRequest>)
  {
    /** What is assumed of the encoding of `saved`: it is decoded back, and holds no dot. */
    ghost predicate Carries(saved: SavedRequest) {
      decode(encode(saved)) == Some(saved) && '.' !in encode(saved)
    }

    /** The cookie is the payload and its signature, with the first dot between them. */
    ghost predicate Signs(cookie: string, payload: string) {
      '.' !in payload && cookie == payload + "." + sign(payload)
    }

    function CookieValue(saved: SavedRequest): string {
      encode(saved) + "." + sign(encode(saved))
    }

    /** The payload of a cookie whose signature verifies. */
    function SignedPayload(cookie: string): Option<string> {
      match Cut(cookie, '.')
      case None => None
      case Some((payload, sig)) => if sig == sign(payload) then Some(payload) else None
    }

    /** None for a cookie that is absent, malformed, forged, undecodable or expired. */
    function ReadCookie(cookie: Option<string>, now: int): (r: Option<SavedRequest>)
      ensures r.Some? ==> now - r.value.savedAt <= COOKIE_MAX_AGE
    {
      if cookie.None? then None
      else
        match SignedPayload(cookie.value)
        case None => None
        case Some(payload) =>
          match decode(payload)
          case None => None
          case Some(saved) => if now - saved.savedAt > COOKIE_MAX_AGE then None else Some(saved)
    }
  }

  lemma SignedPayloadIff(key: CookieKey, cookie: string, payload: string)
    ensures key.SignedPayload(cookie) == Some(payload) <==> key.Signs(cookie, payload)
  {
    CutIff(cookie, '.', payload, key.sign(payload));
    if key.SignedPayload(cookie) == Some(payload) {
      assert Cut(cookie, '.') == Some((payload, key.sign(payload)));
    }
  }

  /** A cookie yields a request if and only if it carries the signature of a payload that decodes to it, for 600 s. */
  lemma ReadCookieIff(key: CookieKey, cookie: Option<string>, now: int, saved: SavedRequest)
    ensures key.ReadCookie(cookie, now) == Some(saved) <==>
            && cookie.Some? && now - saved.savedAt <= 600 * SECOND
            && exists payload :: key.Signs(cookie.value, payload) && key.decode(payload) == Some(saved)
  {
    if cookie.Some? {
      forall payload ensures key.SignedPayload(cookie.value) == Some(payload) <==> key.Signs(cookie.value, payload) {
        SignedPayloadIff(key, cookie.value, payload);
      }
    }
  }

  /** A cookie written for a request yields that request for 600 s and nothing afterwards. */
  lemma CookieRoundTrip(key: CookieKey, saved: SavedRequest, now: int)
    requires key.Carries(saved)
    ensures key.CookieValue(saved) == key.encode(saved) + "." + key.sign(key.encode(saved))
    ensures key.ReadCookie(Some(key.CookieValue(saved)), now)
         == if now - saved.savedAt <= 600 * SECOND then Some(saved) else None
  {
    CutAt(key.encode(saved), '.', key.sign(key.encode(saved)));
    assert key.CookieValue(saved) == key.encode(saved) + ['.'] + key.sign(key.encode(saved));
  }
}
