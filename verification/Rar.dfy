/** Rich authorization requests (RFC 9396), pkg/core/rar/types.go. */
module Rar {
  import opened Options

  /** A raw JSON value, as far as the filters look into it. */
  datatype Json = JString(s: string) | JStrings(ss: seq<string>) | JNull | JOther

  datatype AuthorizationDetail = AuthorizationDetail(kind: string, fields: map<string, Json>) {

    /** Empty when the field is absent or not an array of strings. */
    function GetStringSlice(field: string): seq<string> {
      if field in fields && fields[field].JStrings? then fields[field].ss else []
    }

    /** JSON null decodes into the empty string without an error. */
    function GetString(field: string): Option<string> {
      if field !in fields then None
      else
        match fields[field]
        case JString(s) => Some(s)
        case JNull => Some("")
        case _ => None
    }
  }

  datatype Filter = Filter(kind: string, actions: seq<string>, fields: map<string, string>) {

    predicate Satisfies(d: AuthorizationDetail) {
      && d.kind == kind
      && (forall a | a in actions :: a in d.GetStringSlice("actions"))
      && (forall k | k in fields :: d.GetString(k) == Some(fields[k]))
    }

    predicate MetBy(details: seq<AuthorizationDetail>) {
      exists i | 0 <= i < |details| :: Satisfies(details[i])
    }
  }

  /** The kind of the first filter that no detail satisfies; None when there is none. */
  function Unmet(filters: seq<Filter>, details: seq<AuthorizationDetail>): (r: Option<string>)
    ensures r.None? <==> forall i | 0 <= i < |filters| :: filters[i].MetBy(details)
  {
    if filters == [] then None
    else if !filters[0].MetBy(details) then Some(filters[0].kind)
    else
      assert forall i | 0 <= i < |filters[1..]| :: filters[1..][i] == filters[i + 1];
      Unmet(filters[1..], details)
  }

  /** The kind that is reported is that of the first filter which is not met. */
  lemma {:induction false} FirstUnmet(filters: seq<Filter>, details: seq<AuthorizationDetail>) returns (i: nat)
    requires Unmet(filters, details).Some?
    ensures i < |filters| && Unmet(filters, details) == Some(filters[i].kind) && !filters[i].MetBy(details)
    ensures forall j | 0 <= j < i :: filters[j].MetBy(details)
  {
    if !filters[0].MetBy(details) {
      i := 0;
    } else {
      var k := FirstUnmet(filters[1..], details);
      i := k + 1;
      forall j | 0 <= j < i ensures filters[j].MetBy(details) {
        if j > 0 {
          assert filters[1..][j - 1] == filters[j];
        }
      }
    }
  }

  method MatchAll(filters: seq<Filter>, details: seq<AuthorizationDetail>) returns (ok: bool, missing: string)
    ensures ok <==> Unmet(filters, details).None?
    ensures missing == if ok then "" else Unmet(filters, details).value
  {
    for i := 0 to |filters|
      invariant Unmet(filters, details) == Unmet(filters[i..], details)
    {
      var f := filters[i];
      var found := false;
      for j := 0 to |details|
        invariant !found && forall k | 0 <= k < j :: !f.Satisfies(details[k])
      {
        if f.Satisfies(details[j]) {
          found := true;
          break;
        }
      }
      assert found == f.MetBy(details);
      if !found {
        return false, f.kind;
      }
      assert filters[i..][1..] == filters[i + 1..];
    }
    return true, "";
  }

  /** The detail lists the action in an array of strings. */
  ghost predicate Lists(d: AuthorizationDetail, action: string) {
    "actions" in d.fields && d.fields["actions"].JStrings? && action in d.fields["actions"].ss
  }

  /** The detail has the value as a string; null counts as the empty string. */
  ghost predicate Says(d: AuthorizationDetail, field: string, v: string) {
    field in d.fields && (d.fields[field] == JString(v) || (v == "" && d.fields[field].JNull?))
  }

  /** What the raw values of one detail must be for a filter to be met. */
  lemma MetIff(f: Filter, details: seq<AuthorizationDetail>)
    ensures f.MetBy(details) <==>
            exists d :: d in details && d.kind == f.kind && (forall a | a in f.actions :: Lists(d, a))
                        && (forall k | k in f.fields :: Says(d, k, f.fields[k]))
  {
    forall d
      ensures f.Satisfies(d) <==> d.kind == f.kind && (forall a | a in f.actions :: Lists(d, a))
                                  && (forall k | k in f.fields :: Says(d, k, f.fields[k]))
    {
    }
  }

  /** More details never leave more filters unmet. */
  lemma UnmetMonotone(filters: seq<Filter>, a: seq<AuthorizationDetail>, b: seq<AuthorizationDetail>)
    requires forall d | d in a :: d in b
    requires Unmet(filters, a).None?
    ensures Unmet(filters, b).None?
  {
    forall i | 0 <= i < |filters| ensures filters[i].MetBy(b) {
      assert filters[i].MetBy(a);
      var j :| 0 <= j < |a| && filters[i].Satisfies(a[j]);
      assert a[j] in b;
    }
  }
}
