/**
 The step-up challenge of section 3 of RFC 9470: printed into and parsed from a
 WWW-Authenticate header, pkg/core/stepup/challenge.go.
 */
module Challenge {
  import opened Options
  import opened Text

  type Int64 = x: int | -0x8000_0000_0000_0000 <= x < 0x8000_0000_0000_0000

  datatype StepUpChallenge = StepUpChallenge(
    realm: string, error: string, description: string, acrValues: string, maxAge: Int64)

  const EMPTY := StepUpChallenge("", "", "", "", 0)
  const SCHEME := "Bearer "

  // ----- Decimal numbers

  predicate IsDigit(c: char) {
    '0' <= c <= '9'
  }

  function Decimal(n: nat): string {
    (if n < 10 then [] else Decimal(n / 10)) + [(n % 10 + '0' as int) as char]
  }

  function DecimalValue(s: string): nat
    requires forall c | c in s :: IsDigit(c)
  {
    if s == [] then 0
    else
      assert IsDigit(s[|s| - 1]);
      DecimalValue(s[..|s| - 1]) * 10 + (s[|s| - 1] as int - '0' as int)
  }

  function DigitRun(s: string): (r: string)
    ensures forall c | c in r :: IsDigit(c)
  {
    if s != [] && IsDigit(s[0]) then [s[0]] + DigitRun(s[1..]) else []
  }

  /**
   `fmt.Sscanf` with %d: blanks, a sign, then as many digits as there are.  None
   leaves the variable alone: a line break, no digit, or a number beyond 64 bits.
   */
  function ScanInt(s: string): Option<Int64> {
    var t := TrimLeft(s, c => IsSpace(c) && c != '\n');
    var signed := t != [] && (t[0] == '-' || t[0] == '+');
    var digits := DigitRun(if signed then t[1..] else t);
    if digits == [] then None
    else
      var n: int := if signed && t[0] == '-' then 0 - DecimalValue(digits) else DecimalValue(digits);
      if -0x8000_0000_0000_0000 <= n < 0x8000_0000_0000_0000 then Some(n) else None
  }

  // ----- The quoted parameters

  datatype Field = Realm | Error | Description | AcrValues

  function Name(f: Field): string {
    match f
    case Realm => "realm"
    case Error => "error"
    case Description => "error_description"
    case AcrValues => "acr_values"
  }

  function With(c: StepUpChallenge, f: Field, v: string): StepUpChallenge {
    match f
    case Realm => c.(realm := v)
    case Error => c.(error := v)
    case Description => c.(description := v)
    case AcrValues => c.(acrValues := v)
  }

  // ----- Printing

  function Quoted(f: Field, v: string): string {
    Name(f) + "=\"" + v + "\""
  }

  function RealmOf(c: StepUpChallenge): string {
    if c.realm == "" then "IAM" else c.realm
  }

  function Optional(f: Field, v: string): seq<string> {
    if v == "" then [] else [Quoted(f, v)]
  }

  function MaxAgePart(n: Int64): seq<string> {
    if n > 0 then ["max_age=" + Decimal(n)] else []
  }

  function Parts(c: StepUpChallenge): (p: seq<string>)
    ensures p != []
  {
    [Quoted(Realm, RealmOf(c))] + Optional(Error, c.error)
    + Optional(Description, c.description) + Optional(AcrValues, c.acrValues)
    + MaxAgePart(c.maxAge)
  }

  function Header(c: StepUpChallenge): string {
    SCHEME + Join(Parts(c), ", ")
  }

  method WWWAuthenticateHeader(c: StepUpChallenge) returns (header: string)
    ensures header == Header(c)
    ensures Clean(Normal(c)) ==> Parse(header) == Some(Normal(c))
  {
    var parts := HeaderParts(c);
    header := SCHEME + Join(parts, ", ");
    RoundTripIff(c);
  }

  method HeaderParts(c: StepUpChallenge) returns (parts: seq<string>)
    ensures parts == Parts(c)
  {
    parts := [];
    var realm := c.realm;
    if realm == "" {
      realm := "IAM";
    }
    parts := parts + [Quoted(Realm, realm)];
    if c.error != "" {
      parts := parts + [Quoted(Error, c.error)];
    }
    assert parts == [Quoted(Realm, realm)] + Optional(Error, c.error);
    if c.description != "" {
      parts := parts + [Quoted(Description, c.description)];
    }
    assert parts == [Quoted(Realm, realm)] + Optional(Error, c.error) + Optional(Description, c.description);
    if c.acrValues != "" {
      parts := parts + [Quoted(AcrValues, c.acrValues)];
    }
    if c.maxAge > 0 {
      parts := parts + ["max_age=" + Decimal(c.maxAge)];
    }
  }

  // ----- Parsing

  predicate IsQuote(c: char) {
    c == '"'
  }

  function Assign(c: StepUpChallenge, key: string, val: string): StepUpChallenge {
    if key == Name(Realm) then With(c, Realm, val)
    else if key == Name(Error) then With(c, Error, val)
    else if key == Name(Description) then With(c, Description, val)
    else if key == Name(AcrValues) then With(c, AcrValues, val)
    else if key == "max_age" then
      match ScanInt(val)
      case Some(n) => c.(maxAge := n)
      case None => c
    else c
  }

  function ReadPart(c: StepUpChallenge, part: string): StepUpChallenge {
    match Cut(TrimSpace(part), '=')
    case None => c
    case Some((k, v)) => Assign(c, TrimSpace(k), Trim(TrimSpace(v), IsQuote))
  }

  function ReadParts(c: StepUpChallenge, parts: seq<string>): StepUpChallenge {
    if parts == [] then c else ReadPart(ReadParts(c, parts[..|parts| - 1]), parts[|parts| - 1])
  }

  /** None when the scheme is not Bearer. */
  function Parse(header: string): Option<StepUpChallenge> {
    var h := TrimSpace(header);
    if SCHEME <= h then Some(ReadParts(EMPTY, Split(h[|SCHEME|..], ','))) else None
  }

  method ParseWWWAuthenticate(header: string) returns (r: Option<StepUpChallenge>)
    ensures r == Parse(header)
    ensures r.Some? <==> "Bearer " <= TrimSpace(header)
    ensures r.Some? ==> Clean(r.value)
  {
    var h := TrimSpace(header);
    if !(SCHEME <= h) {
      return None;
    }
    var c := EMPTY;
    var parts := Split(h[|SCHEME|..], ',');
    for i := 0 to |parts|
      invariant c == ReadParts(EMPTY, parts[..i])
    {
      assert parts[..i + 1][..i] == parts[..i];
      var kv := Cut(TrimSpace(parts[i]), '=');
      if kv.Some? {
        var key := TrimSpace(kv.value.0);
        var val := Trim(TrimSpace(kv.value.1), IsQuote);
        c := Assign(c, key, val);
      }
    }
    assert parts[..|parts|] == parts;
    ParsedIsClean(header);
    return Some(c);
  }

  // ----- When printing and parsing agree

  /** A field the header can carry: no comma, no double quote at either end. */
  predicate CleanField(v: string) {
    ',' !in v && Trimmed(v, IsQuote)
  }

  predicate Clean(c: StepUpChallenge) {
    CleanField(c.realm) && CleanField(c.error) && CleanField(c.description) && CleanField(c.acrValues)
  }

  /** A challenge as it reads after a round trip: default realm, no max_age below 1. */
  function Normal(c: StepUpChallenge): StepUpChallenge {
    c.(realm := RealmOf(c), maxAge := if c.maxAge > 0 then c.maxAge else 0)
  }

  predicate RoundTrips(c: StepUpChallenge) {
    Parse(Header(c)) == Some(Normal(c))
  }

  // The parser never yields anything but clean fields.

  lemma ReadPartClean(c: StepUpChallenge, part: string)
    requires Clean(c) && ',' !in part
    ensures Clean(ReadPart(c, part))
  {
    var t := TrimSpace(part);
    TrimResult(part, IsSpace);
    CutParts(t, '=');
    if Cut(t, '=').Some? {
      var (k, v) := Cut(t, '=').value;
      TrimResult(v, IsSpace);
      TrimResult(TrimSpace(v), IsQuote);
      AssignClean(c, TrimSpace(k), Trim(TrimSpace(v), IsQuote));
    }
  }

  lemma AssignClean(c: StepUpChallenge, key: string, v: string)
    requires Clean(c) && CleanField(v)
    ensures Clean(Assign(c, key, v))
  {
  }

  lemma {:induction false} ReadPartsClean(c: StepUpChallenge, parts: seq<string>)
    requires Clean(c) && forall i | 0 <= i < |parts| :: ',' !in parts[i]
    ensures Clean(ReadParts(c, parts))
  {
    if parts != [] {
      ReadPartsClean(c, parts[..|parts| - 1]);
      ReadPartClean(ReadParts(c, parts[..|parts| - 1]), parts[|parts| - 1]);
    }
  }

  lemma ParsedIsClean(header: string)
    ensures Parse(header).Some? ==> Clean(Parse(header).value)
  {
    var h := TrimSpace(header);
    if SCHEME <= h {
      var parts := Split(h[|SCHEME|..], ',');
      forall i | 0 <= i < |parts| ensures ',' !in parts[i] {
        if ',' in parts[i] {
          SplitPiece(h[|SCHEME|..], ',', i, ',');
        }
      }
      ReadPartsClean(EMPTY, parts);
    }
  }

  // Reading back what was printed, part by part.

  /** Parts that survive the ", " between them. */
  predicate Printable(parts: seq<string>) {
    forall i | 0 <= i < |parts| :: ',' !in parts[i] && parts[i] != [] && Trimmed(parts[i], IsSpace)
  }

  /** Text of a part that neither space trimming nor the cut at '=' disturbs. */
  predicate Plain(key: string, text: string) {
    && key != [] && '=' !in key && Trimmed(key, IsSpace)
    && text != [] && Trimmed(text, IsSpace)
  }

  lemma ReadPlain(c: StepUpChallenge, key: string, text: string)
    requires Plain(key, text)
    ensures ReadPart(c, key + "=" + text) == Assign(c, key, Trim(text, IsQuote))
    ensures Trimmed(key + "=" + text, IsSpace)
  {
    var part := key + "=" + text;
    TrimNothing(part, IsSpace);
    TrimNothing(key, IsSpace);
    TrimNothing(text, IsSpace);
    CutAt(key, '=', text);
  }

  lemma TrimQuotes(v: string)
    requires v != [] && Trimmed(v, IsQuote)
    ensures Trim("\"" + v + "\"", IsQuote) == v
  {
    var q := "\"" + v + "\"";
    assert q[1..] == v + "\"";
    assert TrimLeft(q, IsQuote) == v + "\"";
    assert (v + "\"")[..|v|] == v;
    assert TrimRight(v + "\"", IsQuote) == TrimRight(v, IsQuote);
  }

  lemma NameIsPlain(f: Field)
    ensures Name(f) != [] && '=' !in Name(f) && ',' !in Name(f) && Trimmed(Name(f), IsSpace)
  {
  }

  lemma AssignName(c: StepUpChallenge, f: Field, v: string)
    ensures Assign(c, Name(f), v) == With(c, f, v)
  {
  }

  lemma ReadQuoted(c: StepUpChallenge, f: Field, v: string)
    requires v != "" && CleanField(v)
    ensures ReadPart(c, Quoted(f, v)) == With(c, f, v)
  {
    var text := "\"" + v + "\"";
    QuotedIsPlain(f, v);
    ReadPlain(c, Name(f), text);
    TrimQuotes(v);
    AssignName(c, f, v);
  }

  lemma QuotedIsPlain(f: Field, v: string)
    requires CleanField(v)
    ensures
      var text := "\"" + v + "\"";
      && Quoted(f, v) == Name(f) + "=" + text
      && Plain(Name(f), text) && Printable([Quoted(f, v)])
  {
    var text := "\"" + v + "\"";
    NameIsPlain(f);
    assert Quoted(f, v) == Name(f) + "=" + text;
    PlainIsPrintable(Name(f), text);
  }

  lemma {:induction false} DecimalDigits(n: nat)
    ensures Decimal(n) != [] && forall c | c in Decimal(n) :: IsDigit(c)
    ensures DecimalValue(Decimal(n)) == n
  {
    if n >= 10 {
      DecimalDigits(n / 10);
      assert Decimal(n)[..|Decimal(n)| - 1] == Decimal(n / 10);
    } else {
      assert Decimal(n)[..0] == [];
    }
  }

  lemma {:induction false} DigitRunAll(s: string)
    requires forall c | c in s :: IsDigit(c)
    ensures DigitRun(s) == s
  {
    if s != [] {
      assert s[0] in s;
      DigitRunAll(s[1..]);
    }
  }

  lemma ScanDecimal(n: Int64)
    requires n >= 0
    ensures ScanInt(Decimal(n)) == Some(n)
  {
    DecimalDigits(n);
    DigitRunAll(Decimal(n));
    assert Decimal(n)[0] in Decimal(n);
    DigitIsPlain(Decimal(n)[0]);
  }

  lemma MaxAgeIsPlain(n: nat)
    ensures "max_age=" + Decimal(n) == MAX_AGE + "=" + Decimal(n)
    ensures Printable(["max_age=" + Decimal(n)])
  {
    NumberIsPlain(n);
    PlainIsPrintable(MAX_AGE, Decimal(n));
  }

  /** A part made of a plain key and a plain text survives the separators. */
  lemma PlainIsPrintable(key: string, text: string)
    requires Plain(key, text) && ',' !in key && ',' !in text
    ensures Printable([key + "=" + text])
  {
  }

  lemma ReadMaxAge(c: StepUpChallenge, n: Int64)
    requires n > 0
    ensures ReadPart(c, "max_age=" + Decimal(n)) == c.(maxAge := n)
  {
    var text := Decimal(n);
    NumberIsPlain(n);
    MaxAgeIsPlain(n);
    ReadPlain(c, MAX_AGE, text);
    TrimNothing(text, IsQuote);
    ScanDecimal(n);
    AssignMaxAge(c, text);
  }

  const MAX_AGE := "max_age"

  lemma AssignMaxAge(c: StepUpChallenge, text: string)
    requires ScanInt(text).Some?
    ensures Assign(c, MAX_AGE, text) == c.(maxAge := ScanInt(text).value)
  {
  }

  lemma DigitIsPlain(c: char)
    requires IsDigit(c)
    ensures !IsSpace(c) && !IsQuote(c) && c != ',' && c != '-' && c != '+'
  {
  }

  lemma NumberIsPlain(n: nat)
    ensures Plain(MAX_AGE, Decimal(n)) && ',' !in Decimal(n) && Trimmed(Decimal(n), IsQuote)
  {
    var text := Decimal(n);
    DecimalDigits(n);
    assert text[0] in text && text[|text| - 1] in text;
    DigitIsPlain(text[0]);
    DigitIsPlain(text[|text| - 1]);
    assert Trimmed(MAX_AGE, IsSpace) && '=' !in MAX_AGE;
  }

  // The header as a whole.

  lemma ReadSnoc(c: StepUpChallenge, parts: seq<string>, p: string)
    ensures ReadParts(c, parts + [p]) == ReadPart(ReadParts(c, parts), p)
  {
    assert (parts + [p])[..|parts|] == parts;
  }

  lemma ReadLeadingSpace(c: StepUpChallenge, part: string)
    ensures ReadPart(c, " " + part) == ReadPart(c, part)
  {
    assert (" " + part)[1..] == part;
  }

  lemma JoinOneMore(init: seq<string>, p: string)
    requires init != []
    ensures Join(init + [p], ", ") == Join(init, ", ") + [','] + (" " + p)
  {
    JoinAppend(init, [p], ", ");
    assert Join(init, ", ") + ", " + p == Join(init, ", ") + [','] + (" " + p);
  }

  lemma JoinedEnd(parts: seq<string>)
    requires parts != [] && Printable(parts)
    ensures Join(parts, ", ") != [] && !IsSpace(Join(parts, ", ")[|Join(parts, ", ")| - 1])
  {
    var (init, p) := (parts[..|parts| - 1], parts[|parts| - 1]);
    if init != [] {
      assert parts == init + [p];
      JoinOneMore(init, p);
    }
  }

  lemma {:induction false} ReadJoined(c: StepUpChallenge, parts: seq<string>)
    requires parts != [] && Printable(parts)
    ensures ReadParts(c, Split(Join(parts, ", "), ',')) == ReadParts(c, parts)
  {
    var (init, p) := (parts[..|parts| - 1], parts[|parts| - 1]);
    assert parts == init + [p];
    if init == [] {
      SplitNone(p, ',');
      assert parts == [p];
    } else {
      ReadJoined(c, init);
      JoinOneMore(init, p);
      ReadOneMore(c, Join(init, ", "), p);
      ReadLeadingSpace(ReadParts(c, init), p);
      ReadSnoc(c, init, p);
    }
  }

  lemma ReadOneMore(c: StepUpChallenge, joined: string, p: string)
    requires ',' !in p
    ensures ReadParts(c, Split(joined + [','] + (" " + p), ',')) == ReadPart(ReadParts(c, Split(joined, ',')), " " + p)
  {
    SplitAt(joined, ',', " " + p);
    SplitNone(" " + p, ',');
    ReadSnoc(c, Split(joined, ','), " " + p);
  }

  lemma ReadOptional(c: StepUpChallenge, parts: seq<string>, f: Field, v: string)
    requires Printable(parts) && CleanField(v)
    ensures Printable(parts + Optional(f, v))
    ensures ReadParts(c, parts + Optional(f, v))
         == if v == "" then ReadParts(c, parts) else With(ReadParts(c, parts), f, v)
  {
    if v == "" {
      assert parts + [] == parts;
    } else {
      ReadQuoted(ReadParts(c, parts), f, v);
      QuotedIsPlain(f, v);
      ReadSnoc(c, parts, Quoted(f, v));
    }
  }

  lemma ReadLast(c: StepUpChallenge, parts: seq<string>, n: Int64)
    requires Printable(parts)
    ensures Printable(parts + MaxAgePart(n))
    ensures ReadParts(c, parts + MaxAgePart(n))
         == if n > 0 then ReadParts(c, parts).(maxAge := n) else ReadParts(c, parts)
  {
    if n > 0 {
      ReadMaxAge(ReadParts(c, parts), n);
      MaxAgeIsPlain(n);
      ReadSnoc(c, parts, "max_age=" + Decimal(n));
    } else {
      assert parts + [] == parts;
    }
  }

  lemma ReadPrinted(c: StepUpChallenge)
    requires Clean(Normal(c))
    ensures Printable(Parts(c)) && ReadParts(EMPTY, Parts(c)) == Normal(c)
  {
    var p0 := Optional(Realm, RealmOf(c));
    ReadOptional(EMPTY, [], Realm, RealmOf(c));
    assert [] + p0 == p0;
    var p1 := p0 + Optional(Error, c.error);
    ReadOptional(EMPTY, p0, Error, c.error);
    var p2 := p1 + Optional(Description, c.description);
    ReadOptional(EMPTY, p1, Description, c.description);
    var p3 := p2 + Optional(AcrValues, c.acrValues);
    ReadOptional(EMPTY, p2, AcrValues, c.acrValues);
    ReadLast(EMPTY, p3, c.maxAge);
    assert Parts(c) == p3 + MaxAgePart(c.maxAge);
  }

  lemma ParsePrintable(parts: seq<string>)
    requires parts != [] && Printable(parts)
    ensures Parse(SCHEME + Join(parts, ", ")) == Some(ReadParts(EMPTY, parts))
  {
    var h := SCHEME + Join(parts, ", ");
    ReadJoined(EMPTY, parts);
    JoinedEnd(parts);
    assert h[0] == 'B' && !IsSpace('B');
    TrimNothing(h, IsSpace);
    assert h[|SCHEME|..] == Join(parts, ", ");
  }

  // ----- The text on the wire

  /** The header letter by letter: which parameters, under which names, in which order. */
  lemma HeaderText(c: StepUpChallenge)
    ensures Header(c)
         == "Bearer " + Join(
              ["realm=\"" + (if c.realm == "" then "IAM" else c.realm) + "\""]
              + (if c.error == "" then [] else ["error=\"" + c.error + "\""])
              + (if c.description == "" then [] else ["error_description=\"" + c.description + "\""])
              + (if c.acrValues == "" then [] else ["acr_values=\"" + c.acrValues + "\""])
              + (if c.maxAge <= 0 then [] else ["max_age=" + Decimal(c.maxAge)]), ", ")
  {
    QuotedText(RealmOf(c));
    QuotedText(c.error);
    QuotedText(c.description);
    QuotedText(c.acrValues);
  }

  lemma QuotedText(v: string)
    ensures Quoted(Realm, v) == "realm=\"" + v + "\""
    ensures Quoted(Error, v) == "error=\"" + v + "\""
    ensures Quoted(Description, v) == "error_description=\"" + v + "\""
    ensures Quoted(AcrValues, v) == "acr_values=\"" + v + "\""
  {
    assert Quoted(Realm, v) == "realm=\"" + v + "\"";
    assert Quoted(Error, v) == "error=\"" + v + "\"";
    assert Quoted(Description, v) == "error_description=\"" + v + "\"";
    assert Quoted(AcrValues, v) == "acr_values=\"" + v + "\"";
  }

  lemma ReadNames(c: StepUpChallenge, v: string)
    requires v != "" && CleanField(v)
    ensures ReadPart(c, "realm=\"" + v + "\"") == c.(realm := v)
    ensures ReadPart(c, "error=\"" + v + "\"") == c.(error := v)
    ensures ReadPart(c, "error_description=\"" + v + "\"") == c.(description := v)
    ensures ReadPart(c, "acr_values=\"" + v + "\"") == c.(acrValues := v)
  {
    QuotedText(v);
    ReadQuoted(c, Realm, v);
    ReadQuoted(c, Error, v);
    ReadQuoted(c, Description, v);
    ReadQuoted(c, AcrValues, v);
  }

  lemma NamedParts(v: string)
    requires CleanField(v)
    ensures Printable(["realm=\"" + v + "\""]) && Printable(["error=\"" + v + "\""])
    ensures Printable(["error_description=\"" + v + "\""]) && Printable(["acr_values=\"" + v + "\""])
  {
    QuotedText(v);
    QuotedIsPlain(Realm, v);
    QuotedIsPlain(Error, v);
    QuotedIsPlain(Description, v);
    QuotedIsPlain(AcrValues, v);
  }

  lemma ParseAlone(p: string)
    requires Printable([p])
    ensures Parse("Bearer " + p) == Some(ReadPart(EMPTY, p))
  {
    ParsePrintable([p]);
    ReadSnoc(EMPTY, [], p);
    assert [] + [p] == [p];
  }

  /** A header with one parameter reads as that one field. */
  lemma ParsesName(v: string)
    requires v != "" && CleanField(v)
    ensures Parse("Bearer " + ("realm=\"" + v + "\"")) == Some(StepUpChallenge(v, "", "", "", 0))
    ensures Parse("Bearer " + ("error=\"" + v + "\"")) == Some(StepUpChallenge("", v, "", "", 0))
    ensures Parse("Bearer " + ("error_description=\"" + v + "\"")) == Some(StepUpChallenge("", "", v, "", 0))
    ensures Parse("Bearer " + ("acr_values=\"" + v + "\"")) == Some(StepUpChallenge("", "", "", v, 0))
  {
    NamedParts(v);
    ReadNames(EMPTY, v);
    ParseAlone("realm=\"" + v + "\"");
    ParseAlone("error=\"" + v + "\"");
    ParseAlone("error_description=\"" + v + "\"");
    ParseAlone("acr_values=\"" + v + "\"");
  }

  /** A further parameter changes what the header reads as by that parameter alone. */
  lemma ParseAppended(h: string, p: string)
    requires Parse(h).Some? && Trimmed(h, IsSpace) && Printable([p])
    ensures Parse(h + ", " + p) == Some(ReadPart(Parse(h).value, p))
  {
    var (full, params) := (h + ", " + p, h[|SCHEME|..]);
    TrimNothing(h, IsSpace);
    assert Printable([p]) && [p][0] == p;
    TrimNothing(full, IsSpace);
    assert full[|SCHEME|..] == params + [','] + (" " + p);
    ReadOneMore(EMPTY, params, p);
    ReadLeadingSpace(ReadParts(EMPTY, Split(params, ',')), p);
  }

  /** Each name sets its own field, and the last one of a name counts. */
  lemma ParsesAppendedName(h: string, v: string)
    requires Parse(h).Some? && Trimmed(h, IsSpace) && v != "" && CleanField(v)
    ensures Parse(h + ", " + ("realm=\"" + v + "\"")) == Some(Parse(h).value.(realm := v))
    ensures Parse(h + ", " + ("error=\"" + v + "\"")) == Some(Parse(h).value.(error := v))
    ensures Parse(h + ", " + ("error_description=\"" + v + "\"")) == Some(Parse(h).value.(description := v))
    ensures Parse(h + ", " + ("acr_values=\"" + v + "\"")) == Some(Parse(h).value.(acrValues := v))
  {
    NamedParts(v);
    ReadNames(Parse(h).value, v);
    ParseAppended(h, "realm=\"" + v + "\"");
    ParseAppended(h, "error=\"" + v + "\"");
    ParseAppended(h, "error_description=\"" + v + "\"");
    ParseAppended(h, "acr_values=\"" + v + "\"");
  }

  lemma ParsesAppendedMaxAge(h: string, n: Int64)
    requires Parse(h).Some? && Trimmed(h, IsSpace) && n > 0
    ensures Parse(h + ", " + ("max_age=" + Decimal(n))) == Some(Parse(h).value.(maxAge := n))
  {
    MaxAgeIsPlain(n);
    ReadMaxAge(Parse(h).value, n);
    ParseAppended(h, "max_age=" + Decimal(n));
  }

  /** A parameter of any other name, and a part that is no parameter, changes nothing. */
  lemma ParsesAppendedOther(h: string, key: string, text: string)
    requires Parse(h).Some? && Trimmed(h, IsSpace) && Plain(key, text) && ',' !in key && ',' !in text
    requires key !in {"realm", "error", "error_description", "acr_values", "max_age"}
    ensures Parse(h + ", " + (key + "=" + text)) == Parse(h)
    ensures Parse(h + ", " + key) == Parse(h)
  {
    ReadPlain(Parse(h).value, key, text);
    PlainIsPrintable(key, text);
    ParseAppended(h, key + "=" + text);
    TrimNothing(key, IsSpace);
    CutSound(key, '=');
    ParseAppended(h, key);
  }

  // ----- Numbers

  /** The number that digits stand for, read from left to right after `before`. */
  function ReadOn(before: nat, digits: string): nat
    requires forall c | c in digits :: IsDigit(c)
    decreases |digits|
  {
    if digits == [] then before
    else
      assert IsDigit(digits[0]);
      ReadOn(10 * before + (digits[0] as int - '0' as int), digits[1..])
  }

  lemma {:induction false} ReadOnSnoc(before: nat, digits: string, c: char)
    requires (forall x | x in digits :: IsDigit(x)) && IsDigit(c)
    ensures ReadOn(before, digits + [c]) == 10 * ReadOn(before, digits) + (c as int - '0' as int)
    decreases |digits|
  {
    if digits == [] {
      assert (digits + [c])[1..] == [];
    } else {
      assert IsDigit(digits[0]);
      ReadOnSnoc(10 * before + (digits[0] as int - '0' as int), digits[1..], c);
      assert (digits + [c])[1..] == digits[1..] + [c];
    }
  }

  /** A number is printed in decimal, the highest digit first and without leading zeros. */
  lemma {:induction false} DecimalReadsLeftToRight(n: nat)
    ensures forall c | c in Decimal(n) :: IsDigit(c)
    ensures ReadOn(0, Decimal(n)) == n && (n > 0 ==> Decimal(n)[0] != '0')
  {
    DecimalDigits(n);
    if n < 10 {
      assert Decimal(n)[1..] == [];
    } else {
      DecimalReadsLeftToRight(n / 10);
      ReadOnSnoc(0, Decimal(n / 10), (n % 10 + '0' as int) as char);
    }
  }

  /** Leading blanks do not matter, a leading line break does. */
  lemma ScanBlank(b: char, s: string)
    requires IsSpace(b)
    ensures ScanInt([b] + s) == if b == '\n' then None else ScanInt(s)
  {
    assert ([b] + s)[1..] == s;
  }

  lemma {:induction false} DigitRunStops(digits: string, rest: string)
    requires (forall c | c in digits :: IsDigit(c)) && (rest == [] || !IsDigit(rest[0]))
    ensures DigitRun(digits + rest) == digits
  {
    if digits == [] {
      assert digits + rest == rest;
    } else {
      assert digits[0] in digits;
      DigitRunStops(digits[1..], rest);
      assert (digits + rest)[1..] == digits[1..] + rest;
    }
  }

  lemma ScanUnsigned(t: string)
    requires t != [] && !IsSpace(t[0]) && t[0] != '-' && t[0] != '+' && DigitRun(t) != []
    ensures
      var n := DecimalValue(DigitRun(t));
      ScanInt(t) == if n < 0x8000_0000_0000_0000 then Some(n) else None
  {
  }

  lemma ScanWithSign(sign: char, t: string)
    requires sign in {'+', '-'} && DigitRun(t) != []
    ensures
      var n: int := if sign == '-' then 0 - DecimalValue(DigitRun(t)) else DecimalValue(DigitRun(t));
      ScanInt([sign] + t) == if -0x8000_0000_0000_0000 <= n < 0x8000_0000_0000_0000 then Some(n) else None
  {
    assert ([sign] + t)[1..] == t;
  }

  lemma DigitsThenRest(n: nat, rest: string)
    requires rest == [] || !IsDigit(rest[0])
    ensures
      var t := Decimal(n) + rest;
      && t != [] && !IsSpace(t[0]) && t[0] != '-' && t[0] != '+'
      && DigitRun(t) != [] && DecimalValue(DigitRun(t)) == n
  {
    var d := Decimal(n);
    DecimalDigits(n);
    DigitRunStops(d, rest);
    assert d[0] in d && (d + rest)[0] == d[0];
    DigitIsPlain(d[0]);
  }

  /** A number is read with its sign and up to the first character that is no digit, if it fits 64 bits. */
  lemma ScanSigned(n: nat, rest: string)
    requires rest == [] || !IsDigit(rest[0])
    ensures ScanInt(Decimal(n) + rest) == if n < 0x8000_0000_0000_0000 then Some(n) else None
    ensures ScanInt("+" + (Decimal(n) + rest)) == if n < 0x8000_0000_0000_0000 then Some(n) else None
    ensures ScanInt("-" + (Decimal(n) + rest)) == if n <= 0x8000_0000_0000_0000 then Some(0 - n) else None
  {
    var t := Decimal(n) + rest;
    DigitsThenRest(n, rest);
    ScanUnsigned(t);
    ScanWithSign('+', t);
    ScanWithSign('-', t);
  }

  /**
   Parsing gives a printed challenge back if and only if none of its fields holds
   a comma or begins or ends with a double quote.
   */
  lemma RoundTripIff(c: StepUpChallenge)
    ensures RoundTrips(c) <==> Clean(Normal(c))
  {
    if Clean(Normal(c)) {
      ReadPrinted(c);
      ParsePrintable(Parts(c));
    } else {
      ParsedIsClean(Header(c));
    }
  }
}
