/**
 Resource, method and ACR matching, pkg/core/policy/matcher.go.  Go's
 `path.Match`, used for patterns without `**`, is the parameter `glob` (false
 where the library reports a bad pattern).
 */
module Matcher {
  import opened Options
  import opened Text

  type Glob = (string, string) -> bool

  predicate IsSlash(c: char) {
    c == '/'
  }

  function NoSlashEnd(s: string): string {
    TrimRight(s, IsSlash)
  }

  /** The text before the first `**`. */
  function BeforeStars(s: string): Option<string> {
    if |s| < 2 then None
    else if s[0] == '*' && s[1] == '*' then Some([])
    else
      match BeforeStars(s[1..])
      case None => None
      case Some(t) => Some([s[0]] + t)
  }

  predicate MatchResource(glob: Glob, pattern: string, requestPath: string) {
    var p := NoSlashEnd(pattern);
    var r := NoSlashEnd(requestPath);
    if p == "" || r == "" then p == r
    else
      match BeforeStars(p)
      case Some(before) =>
        var prefix := NoSlashEnd(before);
        prefix == "" || r == prefix || prefix + "/" <= r
      case None => glob(p, r)
  }

  // ----- Segments

  function Segments(path: string): seq<string> {
    Split(path, '/')
  }

  /** A string is another one, or that one continued after a slash, exactly when its segments start with the other's. */
  lemma PrefixIsSegmentPrefix(a: string, b: string)
    ensures (b == a || a + "/" <= b) <==> Segments(a) <= Segments(b)
  {
    if a + "/" <= b {
      var rest := b[|a| + 1..];
      assert b == a + ['/'] + rest;
      SplitAt(a, '/', rest);
    }
    if Segments(a) <= Segments(b) {
      var rest := Segments(b)[|Segments(a)|..];
      assert Segments(b) == Segments(a) + rest;
      JoinSplit(a, '/');
      JoinSplit(b, '/');
      if rest == [] {
        assert Segments(b) == Segments(a);
      } else {
        JoinAppend(Segments(a), rest, ['/']);
      }
    }
  }

  /** The literal part of a `**` pattern, if it is one. */
  function LiteralPrefix(pattern: string): Option<string> {
    match BeforeStars(NoSlashEnd(pattern))
    case None => None
    case Some(before) => Some(NoSlashEnd(before))
  }

  lemma {:induction false} StarsNotEmpty(s: string)
    ensures BeforeStars(s).Some? ==> s != ""
  {
  }

  /**
   A `**` pattern matches a path exactly when the path is not the root and the
   segments of its literal prefix, if it has any, are an initial run of the
   path's segments.
   */
  lemma DoubleStarMatchesSegments(glob: Glob, pattern: string, path: string)
    requires LiteralPrefix(pattern).Some?
    ensures
      var (prefix, r) := (LiteralPrefix(pattern).value, NoSlashEnd(path));
      MatchResource(glob, pattern, path) <==> r != "" && (prefix == "" || Segments(prefix) <= Segments(r))
  {
    PrefixIsSegmentPrefix(LiteralPrefix(pattern).value, NoSlashEnd(path));
    StarsNotEmpty(NoSlashEnd(pattern));
  }

  /** The root is matched by the root alone, not even by a double star. */
  lemma RootMatchesRootOnly(glob: Glob, pattern: string, path: string)
    requires NoSlashEnd(path) == ""
    ensures MatchResource(glob, pattern, path) <==> forall i | 0 <= i < |pattern| :: pattern[i] == '/'
  {
    TrimDropsSlashes(pattern);
    TrimRightPrefix(pattern, IsSlash);
  }

  /** Trailing slashes change nothing, on the pattern or on the path. */
  lemma TrailingSlash(glob: Glob, pattern: string, path: string)
    ensures MatchResource(glob, pattern, path + "/") == MatchResource(glob, pattern, path)
    ensures MatchResource(glob, pattern + "/", path) == MatchResource(glob, pattern, path)
  {
    assert (path + "/")[..|path|] == path;
    assert (pattern + "/")[..|pattern|] == pattern;
    assert NoSlashEnd(path + "/") == NoSlashEnd(path);
    assert NoSlashEnd(pattern + "/") == NoSlashEnd(pattern);
  }

  lemma {:induction false} TrimKeeps(s: string, n: nat)
    requires n <= |s| && (n == 0 || !IsSlash(s[n - 1]))
    ensures n <= |NoSlashEnd(s)|
  {
    if s != [] && IsSlash(s[|s| - 1]) {
      TrimKeeps(s[..|s| - 1], n);
    }
  }

  lemma {:induction false} TrimDropsSlashes(s: string)
    ensures forall i | |NoSlashEnd(s)| <= i < |s| :: s[i] == '/'
  {
    if s != [] && IsSlash(s[|s| - 1]) {
      TrimDropsSlashes(s[..|s| - 1]);
    }
  }

  /** What lies below a path, trimmed, is the path itself or continues it after a slash. */
  lemma BelowPath(path: string, more: string)
    ensures
      var (r, x) := (NoSlashEnd(path), NoSlashEnd(path + "/" + more));
      x == r || r + "/" <= x
  {
    var (r, full) := (NoSlashEnd(path), path + "/" + more);
    var x := NoSlashEnd(full);
    TrimRightPrefix(path, IsSlash);
    TrimRightPrefix(full, IsSlash);
    TrimDropsSlashes(path);
    assert r == full[..|r|];
    TrimKeeps(full, |r|);
    assert full[|r|] == '/';
    assert x == full[..|x|];
    if |x| > |r| {
      assert r + "/" == full[..|r| + 1];
    }
  }

  /** A `**` pattern that matches a path matches everything below it. */
  lemma DoubleStarClosedBelow(glob: Glob, pattern: string, path: string, more: string)
    requires LiteralPrefix(pattern).Some? && MatchResource(glob, pattern, path)
    ensures MatchResource(glob, pattern, path + "/" + more)
  {
    BelowPath(path, more);
    StarsNotEmpty(NoSlashEnd(pattern));
  }

  // ----- What a pattern says, without the helpers

  ghost predicate StarsAt(s: string, i: nat) {
    i + 1 < |s| && s[i] == '*' && s[i + 1] == '*'
  }

  /** Two stars stand at position `i` and at no earlier one. */
  ghost predicate FirstStars(s: string, i: nat) {
    StarsAt(s, i) && forall j | 0 <= j < i :: !StarsAt(s, j)
  }

  lemma {:induction false} BeforeStarsIs(s: string, i: nat)
    requires FirstStars(s, i)
    ensures BeforeStars(s) == Some(s[..i])
  {
    if i > 0 {
      assert !StarsAt(s, 0);
      forall j | 0 <= j < i - 1 ensures !StarsAt(s[1..], j) {
        assert !StarsAt(s, j + 1);
      }
      BeforeStarsIs(s[1..], i - 1);
      assert s[..i] == [s[0]] + s[1..][..i - 1];
    }
  }

  lemma {:induction false} NoStars(s: string)
    requires forall j :: !StarsAt(s, j)
    ensures BeforeStars(s) == None
  {
    if |s| >= 2 {
      assert !StarsAt(s, 0);
      forall j: nat ensures !StarsAt(s[1..], j) {
        assert !StarsAt(s, j + 1);
      }
      NoStars(s[1..]);
    }
  }

  /** No slash at the end, and not empty. */
  predicate Bare(s: string) {
    s != "" && s[|s| - 1] != '/'
  }

  /** Without two stars, the library matches the path against the pattern. */
  lemma PlainPatternIsGlob(glob: Glob, pattern: string, path: string)
    requires Bare(pattern) && Bare(path) && forall j :: !StarsAt(pattern, j)
    ensures MatchResource(glob, pattern, path) <==> glob(pattern, path)
  {
    NoStars(pattern);
  }

  lemma LiteralPrefixIs(pattern: string, i: nat, before: string)
    requires FirstStars(pattern, i) && (before == "" || Bare(before))
    requires pattern[..i] == before || pattern[..i] == before + "/"
    ensures LiteralPrefix(pattern) == Some(before)
  {
    TrimKeeps(pattern, i + 2);
    TrimRightPrefix(pattern, IsSlash);
    StarsOfPrefix(pattern, NoSlashEnd(pattern), i);
    BeforeStarsIs(NoSlashEnd(pattern), i);
    WithoutSlash(before);
  }

  /** With two stars, a path matches that is the text before them or continues it after a slash; anything, if that is empty. */
  lemma StarsMatchBelow(glob: Glob, pattern: string, i: nat, before: string, path: string)
    requires FirstStars(pattern, i) && Bare(path) && (before == "" || Bare(before))
    requires pattern[..i] == before || pattern[..i] == before + "/"
    ensures MatchResource(glob, pattern, path) <==> before == "" || path == before || before + "/" <= path
  {
    LiteralPrefixIs(pattern, i, before);
    StarsNotEmpty(NoSlashEnd(pattern));
    WithoutSlash(path);
  }

  lemma WithoutSlash(s: string)
    requires s == "" || Bare(s)
    ensures NoSlashEnd(s) == s && NoSlashEnd(s + "/") == s
  {
    assert (s + "/")[..|s|] == s;
    assert NoSlashEnd(s) == s;
  }

  lemma StarsOfPrefix(s: string, p: string, i: nat)
    requires FirstStars(s, i) && p <= s && i + 2 <= |p|
    ensures FirstStars(p, i) && p[..i] == s[..i]
  {
    forall j | 0 <= j < i ensures !StarsAt(p, j) {
      assert !StarsAt(s, j);
    }
  }

  // ----- Methods

  function UpperChar(c: char): char {
    if 'a' <= c <= 'z' then (c as int - 32) as char else c
  }

  function ToUpper(s: string): (t: string)
    ensures |t| == |s| && forall i | 0 <= i < |s| :: t[i] == UpperChar(s[i])
  {
    seq(|s|, i requires 0 <= i < |s| => UpperChar(s[i]))
  }

  /** No methods listed means every method. */
  predicate MatchMethod(methods: seq<string>, m: string) {
    methods == [] || exists i | 0 <= i < |methods| :: ToUpper(methods[i]) == ToUpper(m)
  }

  /** Equal, or the same ASCII letter in the other case. */
  predicate SameLetter(c: char, d: char) {
    || c == d
    || ('a' <= c <= 'z' && c as int == d as int + 32)
    || ('a' <= d <= 'z' && d as int == c as int + 32)
  }

  /** Methods are compared letter by letter, whatever their case. */
  lemma MatchMethodIff(methods: seq<string>, m: string)
    ensures MatchMethod(methods, m) <==>
            methods == [] || exists x :: x in methods && |x| == |m| && forall i | 0 <= i < |x| :: SameLetter(x[i], m[i])
  {
    forall x ensures ToUpper(x) == ToUpper(m) <==> |x| == |m| && forall i | 0 <= i < |x| :: SameLetter(x[i], m[i]) {
      SameUpper(x, m);
    }
  }

  lemma SameUpper(x: string, m: string)
    ensures ToUpper(x) == ToUpper(m) <==> |x| == |m| && forall i | 0 <= i < |x| :: SameLetter(x[i], m[i])
  {
    if ToUpper(x) == ToUpper(m) {
      assert |x| == |m|;
      forall i | 0 <= i < |x| ensures SameLetter(x[i], m[i]) {
        assert ToUpper(x)[i] == ToUpper(m)[i];
      }
    }
  }

  // ----- Authentication context classes

  /** The first position of `v`, or -1. */
  function IndexOf(s: seq<string>, v: string): (i: int)
    ensures -1 <= i < |s|
    ensures i >= 0 ==> s[i] == v && v !in s[..i]
    ensures i == -1 <==> v !in s
  {
    if s == [] then -1
    else if s[0] == v then 0
    else
      var k := IndexOf(s[1..], v);
      if k < 0 then -1 else
      assert s[..k + 1] == [s[0]] + s[1..][..k];
      k + 1
  }

  predicate ACRSatisfies(provided: string, required: string, hierarchy: seq<string>) {
    if provided == required then true
    else if |hierarchy| == 0 then false
    else
      var (p, r) := (IndexOf(hierarchy, provided), IndexOf(hierarchy, required));
      if p < 0 || r < 0 then provided == required else p >= r
  }

  /** For any hierarchy, repeated entries included: a partial order, total on the listed levels. */
  lemma ACRIsPartialOrder(h: seq<string>, a: string, b: string, c: string)
    ensures ACRSatisfies(a, a, h)
    ensures ACRSatisfies(a, b, h) && ACRSatisfies(b, c, h) ==> ACRSatisfies(a, c, h)
    ensures ACRSatisfies(a, b, h) && ACRSatisfies(b, a, h) ==> a == b
    ensures a in h && b in h ==> ACRSatisfies(a, b, h) || ACRSatisfies(b, a, h)
    ensures ACRSatisfies(a, b, h) && a != b ==> a in h && b in h
  {
    var (i, j) := (IndexOf(h, a), IndexOf(h, b));
    if i == j && i >= 0 {
      assert h[i] == a && h[j] == b;
    }
  }

  /** A level satisfies another exactly when they are equal or both are listed and it is not listed earlier. */
  lemma LaterLevelSatisfies(h: seq<string>, a: string, b: string)
    ensures ACRSatisfies(a, b, h) <==>
            a == b || exists i, j | 0 <= i <= j < |h| :: h[i] == b && h[j] == a && b !in h[..i] && a !in h[..j]
  {
    forall x, i | 0 <= i < |h| && h[i] == x && x !in h[..i] ensures IndexOf(h, x) == i {
      FirstIsIndex(h, x, i);
    }
  }

  lemma {:induction false} FirstIsIndex(h: seq<string>, x: string, i: nat)
    requires i < |h| && h[i] == x && x !in h[..i]
    ensures IndexOf(h, x) == i
  {
    if i > 0 {
      assert h[..i] == [h[0]] + h[1..][..i - 1];
      FirstIsIndex(h[1..], x, i - 1);
    }
  }
}
