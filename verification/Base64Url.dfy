/**
 Unpadded base64url: the hand-written encoder of
 pkg/devkit/tokenfactory/factory.go, and a decoder written from the other side,
 as section 5 of RFC 4648 describes it.
 */
module Base64Url {
  import opened Options

  type Bytes = seq<bv8>

  /** The alphabet of section 5 of RFC 4648, as bytes: A-Z, a-z, 0-9, '-', '_'. */
  function Symbol(v: bv8): bv8 {
    if v < 26 then v + 65
    else if v < 52 then v + 71
    else if v < 62 then v - 4
    else if v == 62 then 45
    else 95
  }

  /** The value of a symbol; 64 for a byte outside the alphabet. */
  function Value(c: bv8): bv8 {
    if 65 <= c <= 90 then c - 65
    else if 97 <= c <= 122 then c - 71
    else if 48 <= c <= 57 then c + 4
    else if c == 45 then 62
    else if c == 95 then 63
    else 64
  }

  predicate IsSymbol(c: bv8) {
    Value(c) < 64
  }

  function Symbols(v: Bytes): (s: Bytes)
    ensures |s| == |v|
  {
    seq(|v|, i requires 0 <= i < |v| => Symbol(v[i]))
  }

  function Values(s: Bytes): (v: Bytes)
    ensures |v| == |s|
  {
    seq(|s|, i requires 0 <= i < |s| => Value(s[i]))
  }

  // The four sextets of a group of three bytes.
  function S0(b0: bv8): bv8 { b0 >> 2 }
  function S1(b0: bv8, b1: bv8): bv8 { ((b0 & 3) << 4) | (b1 >> 4) }
  function S2(b1: bv8, b2: bv8): bv8 { ((b1 & 15) << 2) | (b2 >> 6) }
  function S3(b2: bv8): bv8 { b2 & 63 }

  /** The sextets of a byte sequence; bytes missing from the last group count as zero. */
  function Sextets(b: Bytes): (s: Bytes)
    ensures |s| == (4 * |b| + 2) / 3
  {
    if |b| == 0 then []
    else if |b| == 1 then [S0(b[0]), S1(b[0], 0)]
    else if |b| == 2 then [S0(b[0]), S1(b[0], b[1]), S2(b[1], 0)]
    else [S0(b[0]), S1(b[0], b[1]), S2(b[1], b[2]), S3(b[2])] + Sextets(b[3..])
  }

  function Encoded(b: Bytes): (s: Bytes)
    ensures |s| == (4 * |b| + 2) / 3
  {
    Symbols(Sextets(b))
  }

  // The three bytes of a group of four symbol values.
  function B0(v0: bv8, v1: bv8): bv8 { (v0 << 2) | (v1 >> 4) }
  function B1(v1: bv8, v2: bv8): bv8 { (v1 << 4) | (v2 >> 2) }
  function B2(v2: bv8, v3: bv8): bv8 { (v2 << 6) | v3 }

  /** Bits of the last symbol that fill no byte are dropped. */
  function Merge(v: Bytes): Bytes
    requires |v| % 4 != 1
  {
    if |v| == 0 then []
    else if |v| == 2 then [B0(v[0], v[1])]
    else if |v| == 3 then [B0(v[0], v[1]), B1(v[1], v[2])]
    else [B0(v[0], v[1]), B1(v[1], v[2]), B2(v[2], v[3])] + Merge(v[4..])
  }

  /** A byte outside the alphabet or a lone last symbol is an error. */
  function Decode(s: Bytes): Option<Bytes> {
    if |s| % 4 == 1 || exists i | 0 <= i < |s| :: !IsSymbol(s[i]) then None
    else Some(Merge(Values(s)))
  }

  // ----- Decoding inverts encoding

  lemma Recombine(b0: bv8, b1: bv8, b2: bv8)
    ensures S0(b0) < 64 && S1(b0, b1) < 64 && S2(b1, b2) < 64 && S3(b2) < 64
    ensures B0(S0(b0), S1(b0, b1)) == b0
    ensures B1(S1(b0, b1), S2(b1, b2)) == b1
    ensures B2(S2(b1, b2), S3(b2)) == b2
  {
  }

  lemma SymbolValue(v: bv8)
    requires v < 64
    ensures Value(Symbol(v)) == v
  {
  }

  ghost predicate AllBelow64(v: Bytes) {
    forall i | 0 <= i < |v| :: v[i] < 64
  }

  lemma {:induction false} SextetsBelow64(b: Bytes)
    ensures AllBelow64(Sextets(b))
  {
    if |b| == 1 {
      Recombine(b[0], 0, 0);
    } else if |b| == 2 {
      Recombine(b[0], b[1], 0);
    } else if |b| > 2 {
      Recombine(b[0], b[1], b[2]);
      SextetsBelow64(b[3..]);
    }
  }

  lemma {:induction false} MergeSextets(b: Bytes)
    ensures |Sextets(b)| % 4 != 1 && Merge(Sextets(b)) == b
  {
    if |b| == 1 {
      Recombine(b[0], 0, 0);
    } else if |b| == 2 {
      Recombine(b[0], b[1], 0);
    } else if |b| > 2 {
      Recombine(b[0], b[1], b[2]);
      MergeSextets(b[3..]);
      assert Sextets(b)[4..] == Sextets(b[3..]);
      assert b == [b[0], b[1], b[2]] + b[3..];
    }
  }

  lemma ValuesOfSymbols(v: Bytes)
    requires AllBelow64(v)
    ensures Values(Symbols(v)) == v
    ensures forall i | 0 <= i < |v| :: IsSymbol(Symbols(v)[i])
  {
    forall i | 0 <= i < |v| ensures Value(Symbols(v)[i]) == v[i] {
      SymbolValue(v[i]);
    }
  }

  // ----- The alphabet and the order of the bits, section 4 and 5 of RFC 4648

  /** The alphabet in ASCII: from 'A' on, from 'a' on, from '0' on, then '-' and '_'. */
  lemma AlphabetIs(v: bv8)
    requires v < 63
    ensures Symbol(0) == 65 && Symbol(26) == 97 && Symbol(52) == 48 && Symbol(62) == 45 && Symbol(63) == 95
    ensures v != 25 && v != 51 && v < 61 ==> Symbol(v + 1) == Symbol(v) + 1
  {
  }

  /** Three bytes, and four symbol values, as 24 bits with the first one on top. */
  function ThreeBytes(b0: bv8, b1: bv8, b2: bv8): bv32 {
    (b0 as bv32 << 16) | (b1 as bv32 << 8) | b2 as bv32
  }

  function FourValues(v0: bv8, v1: bv8, v2: bv8, v3: bv8): bv32 {
    (v0 as bv32 << 18) | (v1 as bv32 << 12) | (v2 as bv32 << 6) | v3 as bv32
  }

  function At(b: Bytes, i: nat): bv8 {
    if i < |b| then b[i] else 0
  }

  lemma GroupBits(b0: bv8, b1: bv8, b2: bv8)
    ensures FourValues(S0(b0), S1(b0, b1), S2(b1, b2), S3(b2)) == ThreeBytes(b0, b1, b2)
  {
  }

  lemma NoBits()
    ensures S2(0, 0) == 0 && S3(0) == 0
  {
  }

  lemma FirstSextets(b: Bytes)
    requires b != []
    ensures
      var (v, b0, b1, b2) := (Sextets(b), b[0], At(b, 1), At(b, 2));
      At(v, 0) == S0(b0) && At(v, 1) == S1(b0, b1) && At(v, 2) == S2(b1, b2) && At(v, 3) == S3(b2)
  {
    if |b| == 1 {
      NoBits();
    } else if |b| == 2 {
      NoBits();
    } else {
      var first := [S0(b[0]), S1(b[0], b[1]), S2(b[1], b[2]), S3(b[2])];
      assert Sextets(b) == first + Sextets(b[3..]);
    }
  }

  lemma LaterSextets(b: Bytes)
    requires |b| > 3
    ensures Sextets(b)[4..] == Sextets(b[3..])
  {
  }

  lemma ValuesOfEncoded(b: Bytes)
    ensures Values(Encoded(b)) == Sextets(b)
  {
    SextetsBelow64(b);
    ValuesOfSymbols(Sextets(b));
  }

  /**
   The first group: four symbols carry the bits of three bytes in order, what is missing
   counting as zero; the other groups follow.
   */
  lemma EncodedGroup(b: Bytes)
    requires b != []
    ensures
      var v := Values(Encoded(b));
      FourValues(At(v, 0), At(v, 1), At(v, 2), At(v, 3)) == ThreeBytes(At(b, 0), At(b, 1), At(b, 2))
    ensures |b| > 3 ==> Values(Encoded(b))[4..] == Values(Encoded(b[3..]))
  {
    ValuesOfEncoded(b);
    FirstSextets(b);
    GroupBits(b[0], At(b, 1), At(b, 2));
    if |b| > 3 {
      LaterSextets(b);
      ValuesOfEncoded(b[3..]);
    }
  }

  /** Decoding gives back every byte sequence. */
  lemma RoundTrip(b: Bytes)
    ensures Decode(Encoded(b)) == Some(b)
    ensures forall i | 0 <= i < |Encoded(b)| :: IsSymbol(Encoded(b)[i])
  {
    SextetsBelow64(b);
    MergeSextets(b);
    ValuesOfSymbols(Sextets(b));
  }

  lemma EncodedInjective(a: Bytes, b: Bytes)
    requires Encoded(a) == Encoded(b)
    ensures a == b
  {
    RoundTrip(a);
    RoundTrip(b);
  }

  // ----- The loop of the source

  /** The sextets of the group that starts at `i`. */
  ghost function Group(b: Bytes, i: nat): Bytes
    requires i < |b|
  {
    if i + 1 == |b| then [S0(b[i]), S1(b[i], 0)]
    else if i + 2 == |b| then [S0(b[i]), S1(b[i], b[i + 1]), S2(b[i + 1], 0)]
    else [S0(b[i]), S1(b[i], b[i + 1]), S2(b[i + 1], b[i + 2]), S3(b[i + 2])]
  }

  ghost function From(b: Bytes, i: nat): Bytes {
    if i <= |b| then b[i..] else []
  }

  lemma SextetsStep(b: Bytes, i: nat)
    requires i < |b|
    ensures Sextets(From(b, i)) == Group(b, i) + Sextets(From(b, i + 3))
  {
    if i + 3 <= |b| {
      assert b[i..][3..] == b[i + 3..];
    }
  }

  lemma SymbolsAppend(v: Bytes, w: Bytes)
    ensures Symbols(v + w) == Symbols(v) + Symbols(w)
  {
  }

  lemma TurnAppends(b: Bytes, i: nat, result: Bytes)
    requires i < |b|
    ensures result + Symbols(Sextets(From(b, i)))
         == result + Symbols(Group(b, i)) + Symbols(Sextets(From(b, i + 3)))
  {
    SextetsStep(b, i);
    var (g, rest) := (Group(b, i), Sextets(From(b, i + 3)));
    SymbolsAppend(g, rest);
    Associate(result, Symbols(g), Symbols(rest));
  }

  lemma Associate(a: Bytes, b: Bytes, c: Bytes)
    ensures a + (b + c) == a + b + c
  {
  }

  /** The appends of one turn of the loop. */
  method EncodeGroup(b: Bytes, i: nat, result: Bytes) returns (r: Bytes)
    requires i < |b|
    ensures r == result + Symbols(Group(b, i))
  {
    var b0, b1, b2: bv8 := b[i], 0, 0;
    if i + 1 < |b| {
      b1 := b[i + 1];
    }
    if i + 2 < |b| {
      b2 := b[i + 2];
    }
    var c0, c1, c2, c3 := S0(b0), S1(b0, b1), S2(b1, b2), S3(b2);
    r := result + [Symbol(c0)];
    r := r + [Symbol(c1)];
    if i + 1 < |b| {
      r := r + [Symbol(c2)];
    }
    if i + 2 < |b| {
      r := r + [Symbol(c3)];
    }
    FourSymbols(c0, c1, c2, c3);
  }

  lemma FourSymbols(a: bv8, b: bv8, c: bv8, d: bv8)
    ensures Symbols([a, b]) == [Symbol(a), Symbol(b)]
    ensures Symbols([a, b, c]) == [Symbol(a), Symbol(b), Symbol(c)]
    ensures Symbols([a, b, c, d]) == [Symbol(a), Symbol(b), Symbol(c), Symbol(d)]
  {
  }

  /** Three bytes a turn, appending to `result`. */
  method Encode(b: Bytes) returns (result: Bytes)
    ensures result == Encoded(b)
    ensures |result| == (4 * |b| + 2) / 3
    ensures Decode(result) == Some(b)
  {
    result := [];
    var i := 0;
    while i < |b|
      invariant 0 <= i
      invariant result + Symbols(Sextets(From(b, i))) == Encoded(b)
    {
      TurnAppends(b, i, result);
      result := EncodeGroup(b, i, result);
      i := i + 3;
    }
    RoundTrip(b);
  }
}
