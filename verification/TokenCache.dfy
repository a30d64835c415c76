/**
 The shared in-memory cache of pkg/core/token/cache.go: one map with an expiry per
 entry, used for token claims, for the secondary revocation index and for the
 identifiers of DPoP proofs.  Times are nanoseconds; every operation reads the
 clock once, and one operation is one atomic step.
 */
module TokenCache {
  import opened Options
  import opened Base64Url
  import Rar

  /** `CommonClaims`; `hashes` is Extra["hashes"], `parReference` a non-empty request_uri or par_id. */
  datatype Claims = Claims(
    active: bool, subject: string, issuer: string, jti: string, sessionId: string, expiresAt: Option<int>,
    jkt: string, acr: string, amr: seq<string>, scopes: seq<string>, authTime: Option<int>,
    details: seq<Rar.AuthorizationDetail>, nonce: string, parReference: bool, hashes: Option<seq<string>>)
  {
    /** 0 when the token carries no auth_time. */
    function AuthAge(now: int): int {
      if authTime.None? then 0 else now - authTime.value
    }
  }

  const BLANK := Claims(false, "", "", "", "", None, "", "", [], [], None, [], "", false, None)

  datatype Entry = Entry(claims: Claims, expiresAt: int)
  type Store = map<string, Entry>

  function Lookup(m: Store, key: string, now: int): Option<Claims> {
    if key !in m || now > m[key].expiresAt then None else Some(m[key].claims)
  }

  function Put(m: Store, key: string, claims: Claims, ttl: int, now: int): Store {
    m[key := Entry(claims, now + ttl)]
  }

  function Purge(m: Store, now: int): Store {
    map k | k in m && !(now > m[k].expiresAt) :: m[k]
  }

  class MemoryCache {
    var entries: Store

    constructor ()
      ensures entries == map[]
    {
      entries := map[];
    }

    method Get(key: string, now: int) returns (r: Option<Claims>)
      ensures r == Lookup(entries, key, now)
    {
      if key !in entries || now > entries[key].expiresAt {
        return None;
      }
      return Some(entries[key].claims);
    }

    method Set(key: string, claims: Claims, ttl: int, now: int)
      modifies this
      ensures entries == Put(old(entries), key, claims, ttl, now)
    {
      entries := entries[key := Entry(claims, now + ttl)];
    }

    method Delete(key: string)
      modifies this
      ensures entries == old(entries) - {key}
    {
      entries := entries - {key};
    }

    method Flush()
      modifies this
      ensures entries == map[]
    {
      entries := map[];
    }

    method Cleanup(now: int)
      modifies this
      ensures entries == Purge(old(entries), now)
    {
      var todo := entries.Keys;
      while todo != {}
        invariant todo <= old(entries).Keys
        invariant entries == map k | k in old(entries) && (k in todo || !(now > old(entries)[k].expiresAt)) :: old(entries)[k]
        decreases todo
      {
        var k :| k in todo;
        if now > entries[k].expiresAt {
          entries := entries - {k};
        }
        todo := todo - {k};
      }
    }
  }

  // ----- The cache is a timed map

  datatype Op =
    | SetOp(at: int, key: string, claims: Claims, ttl: int)
    | DeleteOp(at: int, key: string)
    | FlushOp(at: int)
    | CleanupOp(at: int)

  function Apply(m: Store, op: Op): Store {
    match op
    case SetOp(at, key, claims, ttl) => Put(m, key, claims, ttl, at)
    case DeleteOp(_, key) => m - {key}
    case FlushOp(_) => map[]
    case CleanupOp(at) => Purge(m, at)
  }

  function After(ops: seq<Op>): Store {
    if ops == [] then map[] else Apply(After(ops[..|ops| - 1]), ops[|ops| - 1])
  }

  /** The reference: the newest operation about the key decides, and cleanups do not exist. */
  function Logged(ops: seq<Op>, key: string, now: int): Option<Claims> {
    if ops == [] then None
    else
      match ops[|ops| - 1]
      case SetOp(at, k, claims, ttl) =>
        if k != key then Logged(ops[..|ops| - 1], key, now)
        else if now <= at + ttl then Some(claims) else None
      case DeleteOp(_, k) => if k == key then None else Logged(ops[..|ops| - 1], key, now)
      case FlushOp(_) => None
      case CleanupOp(_) => Logged(ops[..|ops| - 1], key, now)
  }

  ghost predicate OrderedOps(ops: seq<Op>, now: int) {
    (forall i, j | 0 <= i < j < |ops| :: ops[i].at <= ops[j].at) && forall i | 0 <= i < |ops| :: ops[i].at <= now
  }

  /** Under a clock that does not run backwards, every lookup is the log's answer, wherever cleanups fall. */
  lemma {:induction false} CacheIsTimedMap(ops: seq<Op>, key: string, now: int)
    requires OrderedOps(ops, now)
    ensures Lookup(After(ops), key, now) == Logged(ops, key, now)
  {
    if ops != [] {
      CacheIsTimedMap(ops[..|ops| - 1], key, now);
    }
  }

  // ----- Key spaces

  type Digest = b: Bytes | |b| == 32 witness seq(32, _ => 0)

  const HEX := "0123456789abcdef"

  function HexDigit(n: bv8): char {
    if n < 16 then HEX[n as int] else '0'
  }

  function Hex(b: Bytes): string {
    if b == [] then [] else [HexDigit(b[0] >> 4), HexDigit(b[0] & 15)] + Hex(b[1..])
  }

  /** The cache key of a token: the hex form of its SHA-256 digest. */
  function HashToken(sha: string -> Digest, token: string): (k: string)
    ensures IsTokenKey(k)
  {
    HexShape(sha(token));
    Hex(sha(token))
  }

  ghost predicate IsTokenKey(k: string) {
    |k| == 64 && forall i | 0 <= i < 64 :: k[i] in HEX
  }

  lemma {:induction false} HexShape(b: Bytes)
    ensures |Hex(b)| == 2 * |b| && forall i | 0 <= i < |Hex(b)| :: Hex(b)[i] in HEX
  {
    if b != [] {
      HexShape(b[1..]);
    }
  }

  lemma HexDigitInjective(x: bv8, y: bv8)
    requires x < 16 && y < 16 && HexDigit(x) == HexDigit(y)
    ensures x == y
  {
    var (i, j) := (x as int, y as int);
    assert HEX[i] == HEX[j];
    assert i == j;
    assert x == i as bv8 == j as bv8 == y;
  }

  lemma Nibbles(x: bv8, y: bv8)
    requires x >> 4 == y >> 4 && x & 15 == y & 15
    ensures x == y
  {
  }

  lemma OctetFromHex(x: bv8, y: bv8)
    requires HexDigit(x >> 4) == HexDigit(y >> 4) && HexDigit(x & 15) == HexDigit(y & 15)
    ensures x == y
  {
    HexDigitInjective(x >> 4, y >> 4);
    HexDigitInjective(x & 15, y & 15);
    Nibbles(x, y);
  }

  lemma HexCons(b: Bytes)
    requires b != []
    ensures |Hex(b)| >= 2 && Hex(b)[0] == HexDigit(b[0] >> 4) && Hex(b)[1] == HexDigit(b[0] & 15)
    ensures Hex(b)[2..] == Hex(b[1..])
  {
  }

  /** Two tokens share a key only if their digests are equal. */
  lemma {:induction false} HexInjective(a: Bytes, b: Bytes)
    requires Hex(a) == Hex(b)
    ensures a == b
  {
    if a != [] && b != [] {
      HexCons(a);
      HexCons(b);
      OctetFromHex(a[0], b[0]);
      HexInjective(a[1..], b[1..]);
      assert a == [a[0]] + a[1..] && b == [b[0]] + b[1..];
    }
  }

  /** The value of a hexadecimal digit. */
  function DigitValue(c: char): int {
    if '0' <= c <= '9' then c as int - '0' as int else c as int - 'a' as int + 10
  }

  lemma DigitReadsBack(x: bv8)
    requires x < 16
    ensures DigitValue(HexDigit(x)) == x as int
  {
    var i := x as int;
    assert i < 16;
  }

  lemma HalvesOfOctet(x: bv8)
    ensures x == (x >> 4) * 16 + (x & 15) && x >> 4 < 16 && x & 15 < 16
  {
  }

  lemma OctetReadsBack(x: bv8)
    ensures 16 * DigitValue(HexDigit(x >> 4)) + DigitValue(HexDigit(x & 15)) == x as int
  {
    HalvesOfOctet(x);
    DigitReadsBack(x >> 4);
    DigitReadsBack(x & 15);
    var (h, l) := (x >> 4, x & 15);
    assert x as int == (h * 16 + l) as int == h as int * 16 + l as int;
  }

  lemma HexSkip(b: Bytes, j: nat)
    requires b != [] && j + 2 < |Hex(b)|
    ensures j < |Hex(b[1..])| && Hex(b)[j + 2] == Hex(b[1..])[j]
  {
  }

  /** The octet that two digits, the high one first, stand for. */
  function OctetAt(k: string, i: nat): int
    requires 2 * i + 1 < |k|
  {
    16 * DigitValue(k[2 * i]) + DigitValue(k[2 * i + 1])
  }

  lemma {:induction false} HexReadsBack(b: Bytes, i: nat)
    requires i < |b| && 2 * i + 1 < |Hex(b)|
    ensures OctetAt(Hex(b), i) == b[i] as int
  {
    HexCons(b);
    if i == 0 {
      OctetReadsBack(b[0]);
    } else {
      HexSkip(b, 2 * i - 2);
      HexSkip(b, 2 * i - 1);
      HexReadsBack(b[1..], i - 1);
    }
  }

  /** A token key spells the digest, two digits for each octet. */
  lemma TokenKeySpellsDigest(sha: string -> Digest, token: string, i: nat)
    requires i < 32
    ensures |HashToken(sha, token)| == 64 && OctetAt(HashToken(sha, token), i) == sha(token)[i] as int
  {
    HexShape(sha(token));
    HexReadsBack(sha(token), i);
  }

  lemma SameKeySameDigest(sha: string -> Digest, t: string, u: string)
    requires HashToken(sha, t) == HashToken(sha, u)
    ensures sha(t) == sha(u)
  {
    HexInjective(sha(t), sha(u));
  }

  datatype Space = JtiIndex | SubjectIndex | SessionIndex | ProofJti

  function Prefix(s: Space): (p: string) {
    match s
    case JtiIndex => "idx:jti:"
    case SubjectIndex => "idx:sub:"
    case SessionIndex => "idx:sid:"
    case ProofJti => "dpop:jti:"
  }

  function Key(s: Space, id: string): string {
    Prefix(s) + id
  }

  lemma NoSpaceHoldsTokenKeys(s: Space, id: string)
    ensures !IsTokenKey(Key(s, id))
  {
    var k := Key(s, id);
    if s == ProofJti {
      assert k[1] == 'p';
    } else {
      assert k[0] == 'i';
    }
  }

  /** The five kinds of keys never collide: no key belongs to two spaces or to two identifiers. */
  lemma KeySpacesDisjoint(s: Space, id: string, t: Space, id': string)
    ensures !IsTokenKey(Key(s, id))
    ensures Key(s, id) == Key(t, id') <==> s == t && id == id'
  {
    NoSpaceHoldsTokenKeys(s, id);
    var (k, l) := (Key(s, id), Key(t, id'));
    if k == l {
      assert k[0] == Prefix(s)[0] == Prefix(t)[0];
      assert k[4] == Prefix(s)[4] == Prefix(t)[4];
      assert k[5] == Prefix(s)[5] == Prefix(t)[5];
      assert id == k[|Prefix(s)|..] && id' == l[|Prefix(t)|..];
    }
  }
}
