/**
 Proof Key for Code Exchange, pkg/core/pkce/pkce.go.  SHA-256 is the parameter
 `sha`; strings are byte sequences, and a byte outside ASCII is never legal in a
 verifier, however it would decode.
 */
module Pkce {
  import opened Base64Url
  import opened Options

  const MIN_VERIFIER_LENGTH := 43
  const MAX_VERIFIER_LENGTH := 128

  datatype Method = S256 | Plain | Unknown(name: string)

  /** The unreserved characters of section 4.1 of RFC 7636: letters, digits and - . _ ~ */
  predicate Unreserved(c: bv8) {
    65 <= c <= 90 || 97 <= c <= 122 || 48 <= c <= 57 || c == 45 || c == 46 || c == 95 || c == 126
  }

  /** In ASCII: A to Z, a to z, 0 to 9, '-', '.', '_' and '~', and nothing else. */
  lemma UnreservedIff(c: bv8)
    ensures Unreserved(c) <==>
      c in {65, 66, 67, 68, 69, 70, 71, 72, 73, 74, 75, 76, 77, 78, 79, 80,
          81, 82, 83, 84, 85, 86, 87, 88, 89, 90, 97, 98, 99, 100, 101, 102,
          103, 104, 105, 106, 107, 108, 109, 110, 111, 112, 113, 114, 115, 116, 117, 118,
          119, 120, 121, 122, 48, 49, 50, 51, 52, 53, 54, 55, 56, 57, 45, 46,
          95, 126}
  {
  }

  ghost predicate LegalVerifier(v: Bytes) {
    MIN_VERIFIER_LENGTH <= |v| <= MAX_VERIFIER_LENGTH && forall i | 0 <= i < |v| :: Unreserved(v[i])
  }

  function S256Challenge(sha: Bytes -> Bytes, verifier: Bytes): Bytes {
    Encoded(sha(verifier))
  }

  /** The challenge a legal verifier stands for, section 4.6 of RFC 7636. */
  function Derived(sha: Bytes -> Bytes, verifier: Bytes, m: Method): Option<Bytes> {
    match m
    case S256 => Some(S256Challenge(sha, verifier))
    case Plain => Some(verifier)
    case Unknown(_) => None
  }

  /** `bytes` are the 96 random bytes. */
  method GenerateVerifier(bytes: Bytes) returns (v: Bytes)
    requires |bytes| == 96
    ensures |v| == 128 && LegalVerifier(v)
    ensures Decode(v) == Some(bytes)
  {
    v := Encode(bytes);
    RoundTrip(bytes);
    if |v| > MAX_VERIFIER_LENGTH {
      assert false;  // 96 bytes give 128 symbols: the truncation never applies
    }
    forall i | 0 <= i < |v| ensures Unreserved(v[i]) {
      SymbolsAreUnreserved(v[i]);
    }
  }

  lemma SymbolsAreUnreserved(c: bv8)
    requires IsSymbol(c)
    ensures Unreserved(c)
  {
  }

  method ValidateVerifier(v: Bytes) returns (ok: bool)
    ensures ok <==> LegalVerifier(v)
  {
    if |v| < MIN_VERIFIER_LENGTH {
      return false;
    }
    if |v| > MAX_VERIFIER_LENGTH {
      return false;
    }
    for i := 0 to |v|
      invariant forall k | 0 <= k < i :: Unreserved(v[k])
    {
      if !Unreserved(v[i]) {
        return false;
      }
    }
    return true;
  }

  /** Accumulates the differences of all positions; zero exactly when there are none. */
  method SecureEqual(a: Bytes, b: Bytes) returns (eq: bool)
    ensures eq <==> a == b
  {
    if |a| != |b| {
      return false;
    }
    var diff: bv8 := 0;
    for i := 0 to |a|
      invariant diff == 0 <==> forall k | 0 <= k < i :: a[k] == b[k]
    {
      XorOr(diff, a[i], b[i]);
      diff := diff | (a[i] ^ b[i]);
    }
    return diff == 0;
  }

  lemma XorOr(d: bv8, x: bv8, y: bv8)
    ensures d | (x ^ y) == 0 <==> d == 0 && x == y
  {
  }

  /** Accepts if and only if the verifier is legal, the method known and the challenge the derived one. */
  method Verify(sha: Bytes -> Bytes, verifier: Bytes, challenge: Bytes, m: Method) returns (ok: bool)
    ensures ok <==> LegalVerifier(verifier) && Derived(sha, verifier, m) == Some(challenge)
    ensures ok <==>
            && 43 <= |verifier| <= 128 && (forall i | 0 <= i < |verifier| :: Unreserved(verifier[i]))
            && (m == S256 || m == Plain) && challenge == if m == S256 then Encoded(sha(verifier)) else verifier
  {
    ok := ValidateVerifier(verifier);
    if !ok {
      return;
    }
    match m
    case S256 =>
      var expected := Encode(sha(verifier));
      ok := SecureEqual(expected, challenge);
    case Plain =>
      ok := SecureEqual(verifier, challenge);
    case Unknown(_) =>
      ok := false;
  }

  /** A generated verifier passes against its own S256 challenge, whatever the random bytes. */
  method GenerateThenVerify(sha: Bytes -> Bytes, bytes: Bytes) returns (ok: bool)
    requires |bytes| == 96
    ensures ok
  {
    var v := GenerateVerifier(bytes);
    ok := Verify(sha, v, S256Challenge(sha, v), S256);
  }
}
