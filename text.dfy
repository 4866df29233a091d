/**
 * The operations of Python's `str` that the contest manager applies to the lines of its
 * configuration files and to the listings of the firewall tools: `strip`, `split`, `in`,
 * `startswith`, `isdigit`, `int(...)` and `str(n)`, over `seq<char>`.
 */
module Text {
  import opened Seqs

  /** `c.isspace()`: the characters Python treats as whitespace in `strip()` and `split()`. */
  predicate IsSpace(c: char) {
    || c == ' '
    || ('\t' <= c <= '\r')
    || ('\U{1C}' <= c <= '\U{1F}')
    || c == '\U{85}' || c == '\U{A0}' || c == '\U{1680}'
    || ('\U{2000}' <= c <= '\U{200A}')
    || c == '\U{2028}' || c == '\U{2029}' || c == '\U{202F}' || c == '\U{205F}' || c == '\U{3000}'
  }

  predicate AllSpace(s: string) {
    forall k :: 0 <= k < |s| ==> IsSpace(s[k])
  }

  /** `s.lstrip(...)`: drops the leading characters for which `drop` holds. */
  function TrimStart(s: string, drop: char -> bool): (r: string)
    ensures |r| <= |s| && r == s[|s| - |r|..]
    ensures forall k :: 0 <= k < |s| - |r| ==> drop(s[k])
    ensures r != [] ==> !drop(r[0])
  {
    if s != [] && drop(s[0]) then TrimStart(s[1..], drop) else s
  }

  /** `s.rstrip(...)`: drops the trailing characters for which `drop` holds. */
  function TrimEnd(s: string, drop: char -> bool): (r: string)
    ensures |r| <= |s| && r == s[..|r|]
    ensures forall k :: |r| <= k < |s| ==> drop(s[k])
    ensures r != [] ==> !drop(r[|r| - 1])
  {
    if s != [] && drop(s[|s| - 1]) then TrimEnd(s[..|s| - 1], drop) else s
  }

  /** `s.strip(chars)`, the set of characters given as the predicate `drop`. */
  function StripBy(s: string, drop: char -> bool): (r: string)
    ensures |r| <= |s|
    ensures r != [] ==> !drop(r[0]) && !drop(r[|r| - 1])
    ensures r == [] <==> forall k :: 0 <= k < |s| ==> drop(s[k])
  {
    var u := TrimStart(s, drop);
    var r := TrimEnd(u, drop);
    assert r == [] ==> u == [];
    r
  }

  /** `s.strip()` with no argument: removes surrounding whitespace. */
  function Strip(s: string): (r: string)
    ensures |r| <= |s|
    ensures r != [] ==> !IsSpace(r[0]) && !IsSpace(r[|r| - 1])
    ensures r == [] <==> AllSpace(s)
  {
    StripBy(s, IsSpace)
  }

  /** A string without whitespace at either end is its own `strip()`. */
  lemma StripStripped(t: string)
    requires t != [] ==> !IsSpace(t[0]) && !IsSpace(t[|t| - 1])
    ensures Strip(t) == t
  {
    assert TrimStart(t, IsSpace) == t;
  }

  /** A line of a configuration file that is read: not blank and not a `#` comment, once stripped. */
  predicate IsContentLine(stripped: string) {
    stripped != [] && !("#" <= stripped)
  }

  /** What one line contributes to the lines a reader keeps: itself stripped, if it is content. */
  function LineContent(line: string): (r: seq<string>)
    ensures |r| <= 1
    ensures forall k :: 0 <= k < |r| ==> IsContentLine(r[k])
  {
    var s := Strip(line);
    if IsContentLine(s) then [s] else []
  }

  /**
   * The loop shared by the blacklist, extension and package readers: each line stripped,
   * blank lines and `#` comments dropped, file order kept.
   */
  function ContentLines(lines: seq<string>): seq<string> {
    FlatMap(lines, LineContent)
  }

  /** Every line kept is content and already stripped. */
  lemma ContentLinesStripped(lines: seq<string>, x: string)
    requires x in ContentLines(lines)
    ensures IsContentLine(x) && Strip(x) == x
  {
    FlatMapMember(lines, LineContent, x);
    var k :| 0 <= k < |lines| && x in LineContent(lines[k]);
    LineContentStripped(lines[k], x);
  }

  lemma LineContentStripped(line: string, x: string)
    requires x in LineContent(line)
    ensures IsContentLine(x) && Strip(x) == x
  {
    var s := Strip(line);
    assert x == s;
    StripStripped(s);
  }

  /** A blank or comment line contributes nothing, wherever it stands. */
  lemma ContentLinesSkip(a: seq<string>, line: string, b: seq<string>)
    requires !IsContentLine(Strip(line))
    ensures ContentLines(a + [line] + b) == ContentLines(a) + ContentLines(b)
  {
    FlatMapAt(a, line, b, LineContent);
  }

  /** Any other line contributes itself, stripped, at its place. */
  lemma ContentLinesKeep(a: seq<string>, line: string, b: seq<string>)
    requires IsContentLine(Strip(line))
    ensures ContentLines(a + [line] + b) == ContentLines(a) + [Strip(line)] + ContentLines(b)
  {
    FlatMapAt(a, line, b, LineContent);
  }

  /** A word of `split()`: a non-empty run of non-whitespace characters. */
  predicate IsToken(t: string) {
    t != [] && forall k :: 0 <= k < |t| ==> !IsSpace(t[k])
  }

  /** The length of the longest prefix of `s` that holds no whitespace. */
  function TokenLength(s: string): (n: nat)
    ensures n <= |s|
    ensures forall k :: 0 <= k < n ==> !IsSpace(s[k])
    ensures n < |s| ==> IsSpace(s[n])
  {
    if s == [] || IsSpace(s[0]) then 0 else 1 + TokenLength(s[1..])
  }

  /** `s.split()`: the maximal runs of non-whitespace characters of `s`, in order. */
  function Split(s: string): (r: seq<string>)
    ensures forall k :: 0 <= k < |r| ==> IsToken(r[k])
    ensures r == [] <==> AllSpace(s)
    decreases |s|
  {
    if s == [] then []
    else if IsSpace(s[0]) then Split(s[1..])
    else
      var n := TokenLength(s);
      [s[..n]] + Split(s[n..])
  }

  lemma {:induction false} TokenLengthConcat(a: string, c: char, b: string)
    requires IsSpace(c)
    ensures TokenLength(a + [c] + b) == TokenLength(a)
    decreases |a|
  {
    var s := a + [c] + b;
    if a == [] {
      assert s[0] == c;
    } else if !IsSpace(a[0]) {
      assert s[1..] == a[1..] + [c] + b;
      TokenLengthConcat(a[1..], c, b);
    }
  }

  /** Whitespace separates words: splitting at a whitespace character splits the word list. */
  lemma {:induction false} SplitConcat(a: string, c: char, b: string)
    requires IsSpace(c)
    ensures Split(a + [c] + b) == Split(a) + Split(b)
    decreases |a|
  {
    var s := a + [c] + b;
    if a == [] {
      assert s[1..] == b;
    } else if IsSpace(a[0]) {
      assert s[1..] == a[1..] + [c] + b;
      SplitConcat(a[1..], c, b);
    } else {
      var n := TokenLength(a);
      TokenLengthConcat(a, c, b);
      assert s[..n] == a[..n];
      assert s[n..] == a[n..] + [c] + b;
      SplitConcat(a[n..], c, b);
    }
  }

  /** A single word splits into itself. */
  lemma SplitToken(t: string)
    requires IsToken(t)
    ensures Split(t) == [t]
  {
    var n := TokenLength(t);
    assert n == |t|;
    assert t[..n] == t && t[n..] == [];
  }

  lemma {:induction false} SplitAfterSpace(w: string, x: string)
    requires AllSpace(w)
    ensures Split(w + x) == Split(x)
    decreases |w|
  {
    if w == [] {
      assert w + x == x;
    } else {
      assert (w + x)[1..] == w[1..] + x;
      SplitAfterSpace(w[1..], x);
    }
  }

  lemma SplitBeforeSpace(x: string, w: string)
    requires AllSpace(w)
    ensures Split(x + w) == Split(x)
  {
    if w == [] {
      assert x + w == x;
    } else {
      assert x + w == x + [w[0]] + w[1..];
      SplitConcat(x, w[0], w[1..]);
      assert AllSpace(w[1..]);
    }
  }

  lemma SplitTrimStart(s: string)
    ensures Split(TrimStart(s, IsSpace)) == Split(s)
  {
    var u := TrimStart(s, IsSpace);
    var w := s[..|s| - |u|];
    assert s == w + u;
    assert AllSpace(w) by {
      forall k | 0 <= k < |w| ensures IsSpace(w[k]) {
        assert w[k] == s[k];
      }
    }
    SplitAfterSpace(w, u);
  }

  lemma SplitTrimEnd(u: string)
    ensures Split(TrimEnd(u, IsSpace)) == Split(u)
  {
    var r := TrimEnd(u, IsSpace);
    var w := u[|r|..];
    assert u == r + w;
    assert AllSpace(w) by {
      forall k | 0 <= k < |w| ensures IsSpace(w[k]) {
        assert w[k] == u[|r| + k];
      }
    }
    SplitBeforeSpace(r, w);
  }

  /** Python's `s.strip().split()` and `s.split()` give the same words. */
  lemma SplitStrip(s: string)
    ensures Split(Strip(s)) == Split(s)
  {
    SplitTrimStart(s);
    SplitTrimEnd(TrimStart(s, IsSpace));
  }

  /** The words of a line with two or more words that starts with `t` followed by whitespace. */
  lemma SplitFirstToken(t: string, c: char, rest: string)
    requires IsToken(t) && IsSpace(c)
    ensures Split(t + [c] + rest) == [t] + Split(rest)
  {
    SplitConcat(t, c, rest);
    SplitToken(t);
  }

  // ---- substrings ------------------------------------------------------------------------

  /** `p` occurs in `s` starting at position `i`. */
  predicate OccursAt(s: string, p: string, i: int) {
    0 <= i && i + |p| <= |s| && s[i..i + |p|] == p
  }

  /** Python's `p in s` for strings. */
  predicate Contains(s: string, p: string) {
    exists i :: 0 <= i <= |s| && OccursAt(s, p, i)
  }

  lemma ContainsInfix(a: string, p: string, b: string)
    ensures Contains(a + p + b, p)
  {
    var s := a + p + b;
    assert s[|a|..|a| + |p|] == p;
    assert OccursAt(s, p, |a|);
  }

  lemma ContainsPrepend(a: string, s: string, p: string)
    requires Contains(s, p)
    ensures Contains(a + s, p)
  {
    var i :| 0 <= i <= |s| && OccursAt(s, p, i);
    assert (a + s)[|a| + i..|a| + i + |p|] == s[i..i + |p|];
    assert OccursAt(a + s, p, |a| + i);
  }

  /** A text lacking one of the pattern's characters cannot contain the pattern. */
  lemma MissingCharNotContained(s: string, p: string, k: nat)
    requires k < |p| && p[k] !in s
    ensures !Contains(s, p)
  {
    forall i | 0 <= i <= |s| ensures !OccursAt(s, p, i) {
      if i + |p| <= |s| {
        assert s[i..i + |p|][k] == s[i + k];
      }
    }
  }

  /** Whatever contains `a + p + b` contains `p`. */
  lemma ContainsWithin(s: string, a: string, p: string, b: string)
    requires Contains(s, a + p + b)
    ensures Contains(s, p)
  {
    var q := a + p + b;
    var i :| 0 <= i <= |s| && OccursAt(s, q, i);
    var w := s[i..i + |q|];
    assert w == q;
    forall k | 0 <= k < |p| ensures s[i + |a| + k] == p[k] {
      assert s[i + |a| + k] == w[|a| + k] == q[|a| + k];
    }
    assert s[i + |a|..i + |a| + |p|] == p;
    assert OccursAt(s, p, i + |a|);
  }

  /** No occurrence of `p` (two or more characters) can start at position `j` of `a + b`. */
  predicate CannotStartAt(a: string, p: string, j: nat)
    requires j < |a| && |p| >= 2
  {
    a[j] != p[0] || (j + 1 < |a| && a[j + 1] != p[1])
  }

  lemma NoStartInPrefix(a: string, b: string, p: string, j: nat)
    requires j < |a| && |p| >= 2 && j + 1 < |a + b|
    requires CannotStartAt(a, p, j)
    ensures (a + b)[j] != p[0] || (a + b)[j + 1] != p[1]
  {
  }

  /**
   * A pattern of two or more characters cannot start inside a prefix `a` in which no
   * position starts the pattern's first two characters; so an occurrence lies in `b`.
   */
  lemma ContainsAfterPrefix(a: string, b: string, p: string)
    requires Contains(a + b, p)
    requires |p| >= 2
    requires forall j :: 0 <= j < |a| ==> CannotStartAt(a, p, j)
    ensures Contains(b, p)
  {
    var s := a + b;
    var i :| 0 <= i <= |s| && OccursAt(s, p, i);
    var w := s[i..i + |p|];
    assert w == p;
    assert s[i] == p[0] && s[i + 1] == p[1];
    if i < |a| {
      NoStartInPrefix(a, b, p, i);
      assert false;
    } else {
      assert b[i - |a|..i - |a| + |p|] == s[i..i + |p|];
      assert OccursAt(b, p, i - |a|);
    }
  }

  /** A prefix in which the pattern cannot start neither adds nor hides an occurrence. */
  lemma ContainsPrefixIff(a: string, b: string, p: string)
    requires |p| >= 2
    requires forall j :: 0 <= j < |a| ==> CannotStartAt(a, p, j)
    ensures Contains(a + b, p) <==> Contains(b, p)
  {
    if Contains(b, p) {
      ContainsPrepend(a, b, p);
    }
    if Contains(a + b, p) {
      ContainsAfterPrefix(a, b, p);
    }
  }

  /** A pattern longer than the text does not occur in it. */
  lemma NotContainsLonger(s: string, p: string)
    requires |p| > |s|
    ensures !Contains(s, p)
  {
  }

  // ---- digits and numbers ---------------------------------------------------------------

  predicate IsDigit(c: char) {
    '0' <= c <= '9'
  }

  predicate AllDigits(s: string) {
    forall k :: 0 <= k < |s| ==> IsDigit(s[k])
  }

  /** `s.isdigit()` for ASCII digits: non-empty and digits only. */
  predicate IsDigits(s: string) {
    s != [] && AllDigits(s)
  }

  /** `int(s)` for a string of decimal digits. */
  function DigitsValue(s: string): nat
    requires AllDigits(s)
  {
    if s == [] then 0 else 10 * DigitsValue(s[..|s| - 1]) + (s[|s| - 1] as int - '0' as int)
  }

  function DigitChar(d: nat): (c: char)
    requires d < 10
    ensures IsDigit(c) && c as int - '0' as int == d
  {
    ('0' as int + d) as char
  }

  /** `str(n)`: the decimal rendering of a natural number, which `int` reads back. */
  function Decimal(n: nat): (r: string)
    ensures IsDigits(r)
    ensures DigitsValue(r) == n
    ensures r[0] == '0' ==> r == "0"
  {
    if n < 10 then [DigitChar(n)]
    else
      var r := Decimal(n / 10) + [DigitChar(n % 10)];
      assert r[..|r| - 1] == Decimal(n / 10);
      r
  }

  lemma DecimalIsToken(n: nat)
    ensures IsToken(Decimal(n))
  {
    var r := Decimal(n);
    forall k | 0 <= k < |r| ensures !IsSpace(r[k]) {
      assert IsDigit(r[k]);
    }
  }

  /** Distinct numbers render differently. */
  lemma DecimalInjective(m: nat, n: nat)
    requires Decimal(m) == Decimal(n)
    ensures m == n
  {
  }

  /** The rendering of `10 * u + d` is that of `u` followed by one more digit. */
  lemma DecimalAppendDigit(u: nat, d: nat)
    requires 1 <= u && d < 10
    ensures Decimal(10 * u + d) == Decimal(u) + [DigitChar(d)]
  {
    var n := 10 * u + d;
    assert n / 10 == u && n % 10 == d;
  }
}
