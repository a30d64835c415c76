/**
 The few string operations the gateway leans on (Go's `strings` package):
 trimming, splitting at a character, joining.
 */
module Text {
  import opened Options

  /** `unicode.IsSpace`. */
  predicate IsSpace(c: char) {
    || '\t' <= c <= '\r' || c == ' ' || c == '\U{0085}' || c == '\U{00A0}' || c == '\U{1680}'
    || '\U{2000}' <= c <= '\U{200A}' || c == '\U{2028}' || c == '\U{2029}' || c == '\U{202F}'
    || c == '\U{205F}' || c == '\U{3000}'
  }

  /** Blanks by their code points. */
  lemma SpacesAre(c: char)
    ensures IsSpace(c) <==>
      c as int in {0x09, 0x0A, 0x0B, 0x0C, 0x0D, 0x20, 0x85, 0xA0, 0x1680, 0x2000, 0x2001, 0x2002, 0x2003, 0x2004, 0x2005,
                   0x2006, 0x2007, 0x2008, 0x2009, 0x200A, 0x2028, 0x2029, 0x202F, 0x205F, 0x3000}
  {
  }

  function TrimLeft(s: string, p: char -> bool): string {
    if s != [] && p(s[0]) then TrimLeft(s[1..], p) else s
  }

  function TrimRight(s: string, p: char -> bool): string {
    if s != [] && p(s[|s| - 1]) then TrimRight(s[..|s| - 1], p) else s
  }

  function Trim(s: string, p: char -> bool): string {
    TrimRight(TrimLeft(s, p), p)
  }

  function TrimSpace(s: string): string {
    Trim(s, IsSpace)
  }

  /** The pieces of `s` between occurrences of `c`: one more than there are occurrences. */
  function Split(s: string, c: char): (parts: seq<string>)
    ensures parts != []
  {
    if s == [] then [[]]
    else
      var rest := Split(s[1..], c);
      if s[0] == c then [[]] + rest else Prepend(s[0], rest)
  }

  function Prepend(x: char, parts: seq<string>): (r: seq<string>)
    requires parts != []
    ensures |r| == |parts|
  {
    [[x] + parts[0]] + parts[1..]
  }

  function Join(parts: seq<string>, sep: string): string {
    if parts == [] then []
    else if |parts| == 1 then parts[0]
    else parts[0] + sep + Join(parts[1..], sep)
  }

  /** The text before and after the first `c`, if there is one. */
  function Cut(s: string, c: char): Option<(string, string)> {
    if s == [] then None
    else if s[0] == c then Some(([], s[1..]))
    else
      match Cut(s[1..], c)
      case None => None
      case Some((k, v)) => Some(([s[0]] + k, v))
  }

  lemma {:induction false} CutParts(s: string, c: char)
    ensures Cut(s, c).Some? ==> forall x | x in Cut(s, c).value.1 :: x in s
  {
    if s != [] && s[0] != c {
      CutParts(s[1..], c);
    }
  }

  lemma {:induction false} CutAt(k: string, c: char, v: string)
    requires c !in k
    ensures Cut(k + [c] + v, c) == Some((k, v))
  {
    var s := k + [c] + v;
    if k == [] {
      assert s == [c] + v;
      assert s[1..] == v;
    } else {
      CutAt(k[1..], c, v);
      assert s[1..] == k[1..] + [c] + v;
      assert [k[0]] + k[1..] == k;
    }
  }

  lemma {:induction false} CutSound(s: string, c: char)
    ensures Cut(s, c).None? ==> c !in s
    ensures Cut(s, c).Some? ==> c !in Cut(s, c).value.0 && s == Cut(s, c).value.0 + [c] + Cut(s, c).value.1
  {
    if s != [] {
      assert s == [s[0]] + s[1..];
      if s[0] != c {
        CutSound(s[1..], c);
      }
    }
  }

  /** A cut is at the first `c`: before it there is none. */
  lemma CutIff(s: string, c: char, k: string, v: string)
    ensures Cut(s, c) == Some((k, v)) <==> c !in k && s == k + [c] + v
  {
    CutSound(s, c);
    if c !in k {
      CutAt(k, c, v);
    }
  }

  // ----- Trimming

  /** `s` has nothing to trim at either end. */
  predicate Trimmed(s: string, p: char -> bool) {
    s == [] || (!p(s[0]) && !p(s[|s| - 1]))
  }

  lemma TrimNothing(s: string, p: char -> bool)
    requires Trimmed(s, p)
    ensures Trim(s, p) == s
  {
  }

  lemma {:induction false} TrimLeftSuffix(s: string, p: char -> bool)
    ensures exists k | 0 <= k <= |s| :: TrimLeft(s, p) == s[k..]
    ensures TrimLeft(s, p) == [] || !p(TrimLeft(s, p)[0])
  {
    if s != [] && p(s[0]) {
      TrimLeftSuffix(s[1..], p);
      var k :| 0 <= k <= |s[1..]| && TrimLeft(s[1..], p) == s[1..][k..];
      assert TrimLeft(s, p) == s[k + 1..];
    } else {
      assert s == s[0..];
    }
  }

  lemma {:induction false} TrimRightPrefix(s: string, p: char -> bool)
    ensures TrimRight(s, p) <= s
    ensures TrimRight(s, p) == [] || !p(TrimRight(s, p)[|TrimRight(s, p)| - 1])
  {
    if s != [] && p(s[|s| - 1]) {
      TrimRightPrefix(s[..|s| - 1], p);
    }
  }

  /** What a trim leaves: nothing more to trim, and only characters of `s`. */
  lemma TrimResult(s: string, p: char -> bool)
    ensures Trimmed(Trim(s, p), p)
    ensures forall c | c in Trim(s, p) :: c in s
  {
    TrimLeftSuffix(s, p);
    TrimRightPrefix(TrimLeft(s, p), p);
  }

  // ----- Splitting and joining

  lemma {:induction false} SplitNone(s: string, c: char)
    requires c !in s
    ensures Split(s, c) == [s]
  {
    if s != [] {
      SplitNone(s[1..], c);
      assert [s[0]] + s[1..] == s;
    }
  }

  lemma PrependAppend(x: char, p: seq<string>, q: seq<string>)
    requires p != []
    ensures Prepend(x, p + q) == Prepend(x, p) + q
  {
    assert (p + q)[1..] == p[1..] + q;
  }

  lemma {:induction false} SplitAt(a: string, c: char, b: string)
    ensures Split(a + [c] + b, c) == Split(a, c) + Split(b, c)
  {
    if a == [] {
      assert a + [c] + b == [c] + b;
      SplitSeparator(b, c);
    } else {
      var (x, rest) := (a[0], a[1..]);
      SplitAt(rest, c, b);
      SplitConsAppend(x, rest, c, b);
      assert a == [x] + rest;
    }
  }

  lemma SplitConsAppend(x: char, rest: string, c: char, b: string)
    requires Split(rest + [c] + b, c) == Split(rest, c) + Split(b, c)
    ensures Split([x] + rest + [c] + b, c) == Split([x] + rest, c) + Split(b, c)
  {
    var s := rest + [c] + b;
    assert [x] + rest + [c] + b == [x] + s;
    if x == c {
      SplitSeparator(s, c);
      SplitSeparator(rest, c);
      Associate([[]], Split(rest, c), Split(b, c));
    } else {
      SplitOther(x, s, c);
      SplitOther(x, rest, c);
      PrependAppend(x, Split(rest, c), Split(b, c));
    }
  }

  lemma SplitSeparator(s: string, c: char)
    ensures Split([c] + s, c) == [[]] + Split(s, c)
  {
    assert ([c] + s)[1..] == s;
  }

  lemma SplitOther(x: char, s: string, c: char)
    requires x != c
    ensures Split([x] + s, c) == Prepend(x, Split(s, c))
  {
    assert ([x] + s)[1..] == s;
  }

  lemma Associate(p: seq<string>, q: seq<string>, r: seq<string>)
    ensures p + (q + r) == p + q + r
  {
  }

  /** No piece of a split holds the separator, and its characters are those of `s`. */
  lemma {:induction false} SplitPiece(s: string, c: char, i: nat, x: char)
    requires i < |Split(s, c)| && x in Split(s, c)[i]
    ensures x != c && x in s
  {
    if s != [] {
      var rest := Split(s[1..], c);
      if s[0] == c {
        assert i > 0;
        SplitPiece(s[1..], c, i - 1, x);
      } else if i > 0 || x != s[0] {
        assert x in rest[i];
        SplitPiece(s[1..], c, i, x);
      }
    }
  }

  lemma JoinPrepend(x: char, parts: seq<string>, sep: string)
    requires parts != []
    ensures Join(Prepend(x, parts), sep) == [x] + Join(parts, sep)
  {
    var p := Prepend(x, parts);
    assert p[0] == [x] + parts[0] && p[1..] == parts[1..];
    if |parts| > 1 {
      assert [x] + parts[0] + sep + Join(parts[1..], sep) == [x] + (parts[0] + sep + Join(parts[1..], sep));
    }
  }

  lemma JoinEmptyHead(parts: seq<string>, sep: string)
    requires parts != []
    ensures Join([[]] + parts, sep) == sep + Join(parts, sep)
  {
    assert ([[]] + parts)[1..] == parts;
    assert [] + sep == sep;
  }

  /** Joining with the separator undoes a split. */
  lemma {:induction false} JoinSplit(s: string, c: char)
    ensures Join(Split(s, c), [c]) == s
  {
    if s != [] {
      JoinSplit(s[1..], c);
      var rest := Split(s[1..], c);
      JoinPrepend(s[0], rest, [c]);
      JoinEmptyHead(rest, [c]);
      assert s == [s[0]] + s[1..];
    }
  }

  lemma JoinCons(p: string, rest: seq<string>, sep: string)
    requires rest != []
    ensures Join([p] + rest, sep) == p + sep + Join(rest, sep)
  {
    assert ([p] + rest)[1..] == rest;
  }

  lemma {:induction false} JoinAppend(a: seq<string>, b: seq<string>, sep: string)
    requires a != [] && b != []
    ensures Join(a + b, sep) == Join(a, sep) + sep + Join(b, sep)
  {
    var (p, rest) := (a[0], a[1..]);
    assert a == [p] + rest;
    if rest == [] {
      assert a + b == [p] + b;
      JoinCons(p, b, sep);
    } else {
      JoinAppend(rest, b, sep);
      assert a + b == [p] + (rest + b);
      JoinCons(p, rest + b, sep);
      JoinCons(p, rest, sep);
      Regroup(p, sep, Join(rest, sep), Join(b, sep));
    }
  }

  lemma Regroup(p: string, sep: string, x: string, y: string)
    ensures p + sep + (x + sep + y) == p + sep + x + sep + y
  {
  }
}
