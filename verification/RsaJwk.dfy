/**
 The RSA public key as a JSON Web Key: written by `PublicKeyJSON` in
 pkg/devkit/tokenfactory/factory.go, read back by `rsaKeyFromJWK` in
 pkg/core/token/dpop.go.  The JSON object around the two members `n` and `e` is
 taken as it stands.
 */
module RsaJwk {
  import opened Base64Url
  import opened Options

  datatype PublicKey = PublicKey(n: nat, e: int)
  datatype Jwk = Jwk(n: Bytes, e: Bytes)

  /** The byte with the value `y`. */
  function Octet(y: nat): (b: bv8)
    requires y < 256
    ensures b as int == y
  {
    if y == 0 then 0
    else
      var c := Octet(y - 1);
      BelowTop(c, y - 1);
      Successor(c);
      c + 1
  }

  lemma BelowTop(c: bv8, y: nat)
    requires c as int == y && y < 255
    ensures c < 255
  {
  }

  lemma Successor(c: bv8)
    requires c < 255
    ensures (c + 1) as int == c as int + 1
  {
  }

  /** The conversion `byte(x)`: the low eight bits. */
  function Byte(x: int): (b: bv8)
    ensures b as int == x % 256
  {
    Octet(x % 256)
  }

  /** `big.Int.SetBytes`: big-endian, any number of leading zeros. */
  function BigEndian(b: Bytes): nat {
    if b == [] then 0 else BigEndian(b[..|b| - 1]) * 256 + b[|b| - 1] as int
  }

  /** `big.Int.Bytes`: big-endian without leading zeros. */
  function MinimalBytes(x: nat): Bytes {
    if x == 0 then [] else MinimalBytes(x / 256) + [Byte(x)]
  }

  /** `big.Int.Int64`: the low 64 bits as a signed number. */
  function Int64(x: nat): int {
    var low := x % 0x1_0000_0000_0000_0000;
    if low < 0x8000_0000_0000_0000 then low else low - 0x1_0000_0000_0000_0000
  }

  /** The four bytes the source stores for an exponent, most significant first. */
  function FourBytes(e: int): Bytes {
    [Byte(e / 0x100_0000), Byte(e / 0x1_0000), Byte(e / 0x100), Byte(e)]
  }

  /** Leading zeros dropped, one byte always kept. */
  function TrimZeros(b: Bytes): Bytes {
    if |b| > 1 && b[0] == 0 then TrimZeros(b[1..]) else b
  }

  method ExponentBytes(e: int) returns (r: Bytes)
    ensures r == TrimZeros(FourBytes(e))
    ensures BigEndian(r) == e % 0x1_0000_0000
    ensures 1 <= |r| <= 4 && (|r| > 1 ==> r[0] != 0)
  {
    var buf := new bv8[4];
    buf[3] := Byte(e);
    buf[2] := Byte(e / 0x100);
    buf[1] := Byte(e / 0x1_0000);
    buf[0] := Byte(e / 0x100_0000);
    r := buf[..];
    assert r == FourBytes(e);
    while |r| > 1 && r[0] == 0
      invariant 1 <= |r| <= 4
      invariant TrimZeros(r) == TrimZeros(FourBytes(e))
      decreases |r|
    {
      r := r[1..];
    }
    TrimKeepsValue(FourBytes(e));
    FourBytesValue(e);
  }

  method PublicKeyJwk(key: PublicKey) returns (j: Jwk)
    ensures j == Emitted(key)
    ensures Decode(j.n).Some? && BigEndian(Decode(j.n).value) == key.n
    ensures Decode(j.n).value == [] || Decode(j.n).value[0] != 0
    ensures Decode(j.e).Some? && BigEndian(Decode(j.e).value) == key.e % 0x1_0000_0000
  {
    RoundTrip(MinimalBytes(key.n));
    MinimalValue(key.n);
    var e := ExponentBytes(key.e);
    var n := Encode(MinimalBytes(key.n));
    e := Encode(e);
    j := Jwk(n, e);
  }

  function Emitted(key: PublicKey): Jwk {
    Jwk(Encoded(MinimalBytes(key.n)), Encoded(TrimZeros(FourBytes(key.e))))
  }

  /** `rsaKeyFromJWK`; None is its error return. */
  function Read(j: Jwk): Option<PublicKey> {
    if j.n == [] || j.e == [] then None
    else
      match (Decode(j.n), Decode(j.e))
      case (Some(n), Some(e)) =>
        var exponent := Int64(BigEndian(e));
        if exponent <= 0 then None else Some(PublicKey(BigEndian(n), exponent))
      case _ => None
  }

  // ----- Values of byte sequences

  lemma {:induction false} MinimalValue(x: nat)
    ensures BigEndian(MinimalBytes(x)) == x
    ensures MinimalBytes(x) == [] <==> x == 0
    ensures x > 0 ==> MinimalBytes(x)[0] != 0
  {
    if x != 0 {
      MinimalValue(x / 256);
      var b := MinimalBytes(x);
      assert b[..|b| - 1] == MinimalBytes(x / 256);
      assert x < 256 ==> b == [Byte(x)] && Byte(x) as int == x;
    }
  }

  lemma {:induction false} LeadingZero(b: Bytes)
    requires b != [] && b[0] == 0
    ensures BigEndian(b[1..]) == BigEndian(b)
  {
    if |b| > 1 {
      LeadingZero(b[..|b| - 1]);
      assert b[..|b| - 1][1..] == b[1..][..|b| - 2];
    }
  }

  lemma {:induction false} TrimKeepsValue(b: Bytes)
    ensures BigEndian(TrimZeros(b)) == BigEndian(b)
  {
    if |b| > 1 && b[0] == 0 {
      LeadingZero(b);
      TrimKeepsValue(b[1..]);
    }
  }

  lemma FourBytesValue(e: int)
    ensures BigEndian(FourBytes(e)) == e % 0x1_0000_0000
  {
    var b := FourBytes(e);
    BigEndianOfFour(b[0], b[1], b[2], b[3]);
    Digits(e);
  }

  lemma BigEndianSnoc(b: Bytes, c: bv8)
    ensures BigEndian(b + [c]) == BigEndian(b) * 256 + c as int
  {
    assert (b + [c])[..|b|] == b;
  }

  lemma BigEndianOfFour(b0: bv8, b1: bv8, b2: bv8, b3: bv8)
    ensures BigEndian([b0, b1, b2, b3]) == ((b0 as int * 256 + b1 as int) * 256 + b2 as int) * 256 + b3 as int
  {
    BigEndianSnoc([], b0);
    BigEndianSnoc([b0], b1);
    BigEndianSnoc([b0, b1], b2);
    BigEndianSnoc([b0, b1, b2], b3);
    assert [] + [b0] == [b0];
    assert [b0] + [b1] == [b0, b1];
    assert [b0, b1] + [b2] == [b0, b1, b2];
    assert [b0, b1, b2] + [b3] == [b0, b1, b2, b3];
  }

  lemma Digits(e: int)
    ensures (((e / 0x100_0000 % 256) * 256 + e / 0x1_0000 % 256) * 256 + e / 0x100 % 256) * 256 + e % 256
         == e % 0x1_0000_0000
  {
    var (c, b, a) := (e / 0x100, e / 0x1_0000, e / 0x100_0000);
    DivDiv(e);
    DivDiv(e / 0x100);
    assert e == 256 * c + e % 256 && c == 256 * b + c % 256 && b == 256 * a + b % 256 && a == 256 * (a / 256) + a % 256;
    Remainder(e, a / 256, (((a % 256) * 256 + b % 256) * 256 + c % 256) * 256 + e % 256);
  }

  lemma DivDiv(e: int)
    ensures e / 0x100 / 0x100 == e / 0x1_0000
    ensures e / 0x100 / 0x1_0000 == e / 0x100_0000
  {
  }

  lemma Remainder(e: int, q: int, r: int)
    requires e == 0x1_0000_0000 * q + r && 0 <= r < 0x1_0000_0000
    ensures e % 0x1_0000_0000 == r
  {
  }

  // ----- Main result

  lemma ReadOfEncoded(n: Bytes, e: Bytes)
    ensures
      var x := BigEndian(e) % 0x1_0000_0000_0000_0000;
      Read(Jwk(Encoded(n), Encoded(e)))
      == if n == [] || x == 0 || x >= 0x8000_0000_0000_0000 then None else Some(PublicKey(BigEndian(n), x))
  {
    RoundTrip(n);
    RoundTrip(e);
  }

  /** What a reader gets: the exponent modulo 2^32, or an error when that is 0 or there is no modulus. */
  lemma ReadEmitted(key: PublicKey)
    ensures Read(Emitted(key))
         == if key.n == 0 || key.e % 0x1_0000_0000 == 0 then None
            else Some(PublicKey(key.n, key.e % 0x1_0000_0000))
  {
    var (n, e) := (MinimalBytes(key.n), TrimZeros(FourBytes(key.e)));
    MinimalValue(key.n);
    ExponentValue(key.e);
    ReadOfEncoded(n, e);
  }

  lemma ExponentValue(e: int)
    ensures TrimZeros(FourBytes(e)) != []
    ensures BigEndian(TrimZeros(FourBytes(e))) == e % 0x1_0000_0000
    ensures Int64(e % 0x1_0000_0000) == e % 0x1_0000_0000
  {
    TrimKeepsValue(FourBytes(e));
    FourBytesValue(e);
    TrimNotEmpty(FourBytes(e));
  }

  lemma {:induction false} TrimNotEmpty(b: Bytes)
    requires b != []
    ensures TrimZeros(b) != []
  {
    if |b| > 1 && b[0] == 0 {
      TrimNotEmpty(b[1..]);
    }
  }

  lemma SameKeyIff(key: PublicKey, r: Option<PublicKey>)
    requires r == if key.n == 0 || key.e % 0x1_0000_0000 == 0 then None
                  else Some(PublicKey(key.n, key.e % 0x1_0000_0000))
    ensures r == Some(key) <==> key.n > 0 && 0 < key.e < 0x1_0000_0000
  {
  }

  /** The key is read back as written if and only if it has a modulus and a 32-bit positive exponent. */
  lemma ReadsBackIff(key: PublicKey)
    ensures Read(Emitted(key)) == Some(key) <==> key.n > 0 && 0 < key.e < 0x1_0000_0000
  {
    ReadEmitted(key);
    SameKeyIff(key, Read(Emitted(key)));
  }
}
