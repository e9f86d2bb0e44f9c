/** String helpers with Python's meaning: `str.strip`, `str.startswith`,
    slicing `s[:n]`, `sep.join`, splitting on one separator character,
    `str.splitlines` (on "\n" only), `str(n)` for integers and the
    code-point ordering `sorted` uses for strings. */
module Text {

  // ---------------------------------------------------------------------------
  // Character classes
  // ---------------------------------------------------------------------------

  /** Python's `str.isspace`, restricted to the Latin-1 range; the regex class
      `\s` uses the same definition for `str` patterns. */
  predicate IsSpace(c: char) {
    var n := c as int;
    n == 32 || 9 <= n <= 13 || 28 <= n <= 31 || n == 0x85 || n == 0xA0
  }

  /** The regex class `\d` (Unicode decimal digits), restricted to the
      Latin-1 range, where the only decimal digits are the ASCII ones. */
  predicate IsDigit(c: char) {
    '0' <= c <= '9'
  }

  /** The regex class `\w` for `str` patterns, restricted to the Latin-1
      range: `_` and the characters for which `str.isalnum` holds, that is
      the ASCII letters and digits, the letters ª µ º À-Ö Ø-ö ø-ÿ, the
      superscripts ² ³ ¹ and the fractions ¼ ½ ¾. */
  predicate IsWordChar(c: char) {
    var n := c as int;
    IsDigit(c) || 'a' <= c <= 'z' || 'A' <= c <= 'Z' || c == '_' ||
    n == 0xAA || n == 0xB2 || n == 0xB3 || n == 0xB5 || n == 0xB9 || n == 0xBA ||
    0xBC <= n <= 0xBE || 0xC0 <= n <= 0xD6 || 0xD8 <= n <= 0xF6 || 0xF8 <= n <= 0xFF
  }

  predicate AllSpace(s: string) {
    forall i :: 0 <= i < |s| ==> IsSpace(s[i])
  }

  // ---------------------------------------------------------------------------
  // strip, startswith, slicing, containment
  // ---------------------------------------------------------------------------

  /** The length of the longest prefix of `s` whose characters satisfy `p`
      (what a greedy `x*` consumes). */
  function Span(s: string, p: char -> bool): (n: nat)
    ensures n <= |s|
    ensures forall i :: 0 <= i < n ==> p(s[i])
    ensures n < |s| ==> !p(s[n])
  {
    if s == [] || !p(s[0]) then 0 else 1 + Span(s[1..], p)
  }

  /** A span is determined by where the first non-matching character is. */
  lemma {:induction false} SpanExact(s: string, p: char -> bool, n: nat)
    requires n <= |s|
    requires forall i :: 0 <= i < n ==> p(s[i])
    requires n < |s| ==> !p(s[n])
    ensures Span(s, p) == n
  {
    if n > 0 {
      SpanExact(s[1..], p, n - 1);
    }
  }

  /** The length of the longest suffix of `s` that is all whitespace. */
  function TrailingSpaces(s: string): (n: nat)
    ensures n <= |s|
    ensures forall i :: |s| - n <= i < |s| ==> IsSpace(s[i])
    ensures n < |s| ==> !IsSpace(s[|s| - n - 1])
  {
    if s == [] || !IsSpace(s[|s| - 1]) then 0 else 1 + TrailingSpaces(s[..|s| - 1])
  }

  /** Drops leading whitespace: the result is a suffix of `s` that does not
      start with whitespace, and everything dropped was whitespace. */
  function TrimLeft(s: string): (r: string)
    ensures |r| <= |s| && r == s[|s| - |r|..]
    ensures AllSpace(s[..|s| - |r|])
    ensures r == [] || !IsSpace(r[0])
  {
    var n := Span(s, IsSpace);
    assert forall i :: 0 <= i < n ==> s[..n][i] == s[i];
    s[n..]
  }

  /** Drops trailing whitespace: the result is a prefix of `s` that does not
      end with whitespace, and everything dropped was whitespace. */
  function TrimRight(s: string): (r: string)
    ensures |r| <= |s| && r == s[..|r|]
    ensures AllSpace(s[|r|..])
    ensures r == [] || !IsSpace(r[|r| - 1])
  {
    var n := TrailingSpaces(s);
    assert forall i :: |s| - n <= i < |s| ==> s[|s| - n..][i - (|s| - n)] == s[i];
    s[..|s| - n]
  }

  /** Python's `s.strip()`: the longest slice of `s` that neither starts nor
      ends with whitespace; empty exactly when `s` is all whitespace. */
  function Strip(s: string): (r: string)
    ensures r == [] || (!IsSpace(r[0]) && !IsSpace(r[|r| - 1]))
    ensures r == [] <==> AllSpace(s)
    ensures exists i :: 0 <= i <= |s| - |r| && r == s[i..][..|r|] && AllSpace(s[..i]) && AllSpace(s[i + |r|..])
  {
    var left := TrimLeft(s);
    var r := TrimRight(left);
    var i := |s| - |left|;
    assert s[i + |r|..] == left[|r|..];
    assert r == [] ==> AllSpace(s) by {
      if r == [] {
        assert left == [];
        assert s[..i] == s;
      }
    }
    assert r == s[i..][..|r|];
    r
  }

  /** Python's `s.startswith(p)`. */
  predicate StartsWith(s: string, p: string) {
    p <= s
  }

  /** `sub` occurs somewhere inside `s` (Python's `sub in s`). */
  predicate Contains(s: string, sub: string) {
    exists i :: 0 <= i <= |s| && sub <= s[i..]
  }

  lemma ContainsInfix(a: string, sub: string, b: string)
    ensures Contains(a + sub + b, sub)
  {
    var s := a + sub + b;
    assert s[|a|..] == sub + b;
  }

  /** What a string contains, its extensions contain. */
  lemma ContainsPrefix(a: string, b: string, sub: string)
    requires Contains(a, sub)
    ensures Contains(a + b, sub)
  {
    var i :| 0 <= i <= |a| && sub <= a[i..];
    assert sub <= (a + b)[i..];
  }

  lemma ContainsSuffix(a: string, b: string, sub: string)
    requires Contains(b, sub)
    ensures Contains(a + b, sub)
  {
    var i :| 0 <= i <= |b| && sub <= b[i..];
    assert (a + b)[|a| + i..] == b[i..];
  }

  /** Every variable part of a message assembled from fixed and variable
      parts occurs in it. */
  lemma InterleavedContains(x1: string, p: string, x2: string, n: string, x3: string, c: string)
    ensures var m := x1 + p + x2 + n + x3 + c;
            Contains(m, p) && Contains(m, n) && Contains(m, c)
  {
    ContainsSelf(p);
    ContainsSuffix(x1, p, p);
    ContainsPrefix(x1 + p, x2, p);
    ContainsPrefix(x1 + p + x2, n, p);
    ContainsPrefix(x1 + p + x2 + n, x3, p);
    ContainsPrefix(x1 + p + x2 + n + x3, c, p);
    ContainsSelf(n);
    ContainsSuffix(x1 + p + x2, n, n);
    ContainsPrefix(x1 + p + x2 + n, x3, n);
    ContainsPrefix(x1 + p + x2 + n + x3, c, n);
    ContainsSelf(c);
    ContainsSuffix(x1 + p + x2 + n + x3, c, c);
  }

  /** The leading part and the variable parts of an assembled message all
      occur in it. */
  lemma HeadContains(lead: string, x1: string, t: string, x2: string, p: string, x3: string)
    ensures var m := lead + x1 + t + x2 + p + x3;
            Contains(m, lead) && Contains(m, t) && Contains(m, p)
  {
    ContainsSelf(lead);
    ContainsPrefix(lead, x1, lead);
    ContainsPrefix(lead + x1, t, lead);
    ContainsPrefix(lead + x1 + t, x2, lead);
    ContainsPrefix(lead + x1 + t + x2, p, lead);
    ContainsPrefix(lead + x1 + t + x2 + p, x3, lead);
    InterleavedContains(lead + x1, t, x2, p, x3, []);
    assert lead + x1 + t + x2 + p + x3 + [] == lead + x1 + t + x2 + p + x3;
  }

  lemma ContainsSelf(s: string)
    ensures Contains(s, s)
  {
    assert s[0..] == s;
  }

  /** Every listed part the tail contains, the whole contains. */
  lemma ContainsSuffixEach(a: string, b: string, parts: seq<string>)
    requires forall i :: 0 <= i < |parts| ==> Contains(b, parts[i])
    ensures forall i :: 0 <= i < |parts| ==> Contains(a + b, parts[i])
  {
    forall i | 0 <= i < |parts| ensures Contains(a + b, parts[i]) {
      ContainsSuffix(a, b, parts[i]);
    }
  }

  // ---------------------------------------------------------------------------
  // join and split
  // ---------------------------------------------------------------------------

  function SumLengths(parts: seq<string>): nat {
    if |parts| == 0 then 0 else |parts[0]| + SumLengths(parts[1..])
  }

  /** Python's `sep.join(parts)`: the parts in order, one separator between
      each neighbouring pair. */
  function Join(parts: seq<string>, sep: string): (r: string)
    ensures |parts| == 0 ==> r == ""
    ensures |parts| == 1 ==> r == parts[0]
    ensures |r| == SumLengths(parts) + (if |parts| == 0 then 0 else (|parts| - 1) * |sep|)
  {
    if |parts| == 0 then ""
    else if |parts| == 1 then parts[0]
    else parts[0] + sep + Join(parts[1..], sep)
  }

  /** Each part of a join occurs in the joined text. */
  lemma {:induction false} JoinContainsParts(parts: seq<string>, sep: string)
    ensures forall i :: 0 <= i < |parts| ==> Contains(Join(parts, sep), parts[i])
    decreases |parts|
  {
    if |parts| > 1 {
      var init := parts[..|parts| - 1];
      JoinContainsParts(init, sep);
      JoinSnoc(init, parts[|parts| - 1], sep);
      assert parts == init + [parts[|parts| - 1]];
      forall i | 0 <= i < |parts| ensures Contains(Join(parts, sep), parts[i]) {
        if i < |init| {
          ContainsPrefix(Join(init, sep), sep + parts[|parts| - 1], parts[i]);
          assert Join(init, sep) + (sep + parts[|parts| - 1]) == Join(init, sep) + sep + parts[|parts| - 1];
        } else {
          ContainsInfix(Join(init, sep) + sep, parts[i], []);
          assert Join(init, sep) + sep + parts[i] + [] == Join(init, sep) + sep + parts[i];
        }
      }
    } else if |parts| == 1 {
      ContainsInfix([], parts[0], []);
      assert [] + parts[0] + [] == parts[0];
    }
  }

  /** Each part of a join occurs in a line that embeds the join. */
  lemma JoinInLine(pre: string, parts: seq<string>, sep: string, post: string)
    ensures forall i :: 0 <= i < |parts| ==> Contains(pre + Join(parts, sep) + post, parts[i])
  {
    JoinContainsParts(parts, sep);
    forall i | 0 <= i < |parts| ensures Contains(pre + Join(parts, sep) + post, parts[i]) {
      ContainsSuffix(pre, Join(parts, sep), parts[i]);
      ContainsPrefix(pre + Join(parts, sep), post, parts[i]);
    }
  }

  /** A join with a non-empty separator is empty exactly when there is
      nothing to join or only one empty part. */
  lemma JoinEmpty(parts: seq<string>, sep: string)
    requires sep != ""
    ensures Join(parts, sep) == "" <==> parts == [] || parts == [""]
  {
    if |parts| == 1 && Join(parts, sep) == "" {
      assert |parts[0]| == SumLengths(parts);
    }
  }

  /** Appending one more part appends one separator and that part. */
  lemma {:induction false} JoinSnoc(parts: seq<string>, last: string, sep: string)
    requires |parts| >= 1
    ensures Join(parts + [last], sep) == Join(parts, sep) + sep + last
  {
    if |parts| == 1 {
      assert parts + [last] == [parts[0], last];
    } else {
      assert (parts + [last])[1..] == parts[1..] + [last];
      JoinSnoc(parts[1..], last, sep);
    }
  }

  /** Index of the first occurrence of `c` in `s`. */
  function IndexOf(s: string, c: char): (i: nat)
    requires c in s
    ensures i < |s| && s[i] == c && c !in s[..i]
  {
    if s[0] == c then 0
    else
      assert c in s[1..] by { assert s == [s[0]] + s[1..]; }
      var j := IndexOf(s[1..], c);
      assert s[..j + 1] == [s[0]] + s[1..][..j];
      1 + j
  }

  /** The pieces of `s` between occurrences of `c` (Python's `s.split(c)`
      for a one-character separator). */
  function SplitOn(s: string, c: char): (r: seq<string>)
    ensures |r| >= 1
    ensures forall i :: 0 <= i < |r| ==> c !in r[i]
    decreases |s|
  {
    if c !in s then [s]
    else
      var i := IndexOf(s, c);
      [s[..i]] + SplitOn(s[i + 1..], c)
  }

  /** Joining the pieces with the separator gives back the string. */
  lemma {:induction false} JoinSplitOn(s: string, c: char)
    ensures Join(SplitOn(s, c), [c]) == s
    decreases |s|
  {
    if c in s {
      var i := IndexOf(s, c);
      var rest := SplitOn(s[i + 1..], c);
      JoinSplitOn(s[i + 1..], c);
      assert SplitOn(s, c) == [s[..i]] + rest;
      assert ([s[..i]] + rest)[1..] == rest;
      assert s == s[..i] + [c] + s[i + 1..];
    }
  }

  /** Splitting a join of separator-free parts gives back the parts. */
  lemma {:induction false} SplitOnJoin(parts: seq<string>, c: char)
    requires |parts| >= 1
    requires forall i :: 0 <= i < |parts| ==> c !in parts[i]
    ensures SplitOn(Join(parts, [c]), c) == parts
  {
    if |parts| > 1 {
      var rest := Join(parts[1..], [c]);
      var s := parts[0] + [c] + rest;
      assert Join(parts, [c]) == s;
      assert s[|parts[0]|] == c;
      assert s[..|parts[0]|] == parts[0];
      assert IndexOf(s, c) == |parts[0]|;
      assert s[|parts[0]| + 1..] == rest;
      SplitOnJoin(parts[1..], c);
      assert parts == [parts[0]] + parts[1..];
    }
  }

  /** A string ending in `c` splits into at least two pieces, the last one
      empty. */
  lemma {:induction false} SplitOnTrailing(s: string, c: char)
    requires |s| > 0 && s[|s| - 1] == c
    ensures |SplitOn(s, c)| >= 2
    ensures SplitOn(s, c)[|SplitOn(s, c)| - 1] == ""
    decreases |s|
  {
    var i := IndexOf(s, c);
    var t := s[i + 1..];
    assert SplitOn(s, c) == [s[..i]] + SplitOn(t, c);
    if t == [] {
      assert SplitOn(t, c) == [""];
    } else {
      assert t[|t| - 1] == c;
      SplitOnTrailing(t, c);
    }
  }

  /** Python's `s.splitlines()` with "\n" as the only line break: the pieces
      between newlines, without an empty piece after a final newline. */
  function Lines(s: string): (r: seq<string>)
    ensures forall i :: 0 <= i < |r| ==> '\n' !in r[i]
    ensures s == [] <==> r == []
  {
    if s == [] then []
    else
      var pieces := SplitOn(s, '\n');
      if s[|s| - 1] == '\n' then
        SplitOnTrailing(s, '\n');
        pieces[..|pieces| - 1]
      else pieces
  }

  predicate EndsWithNewline(s: string) {
    |s| > 0 && s[|s| - 1] == '\n'
  }

  /** Lines loses nothing but the final newline: joining the lines with "\n"
      and restoring a final newline rebuilds the text. */
  lemma {:induction false} LinesRoundTrip(s: string)
    ensures Join(Lines(s), "\n") + (if EndsWithNewline(s) then "\n" else "") == s
  {
    if s != [] {
      var pieces := SplitOn(s, '\n');
      JoinSplitOn(s, '\n');
      if EndsWithNewline(s) {
        TrailingLines(s, pieces);
      }
    }
  }

  lemma {:induction false} TrailingLines(s: string, pieces: seq<string>)
    requires EndsWithNewline(s) && pieces == SplitOn(s, '\n')
    requires Join(pieces, "\n") == s
    ensures Join(Lines(s), "\n") + "\n" == s
  {
    SplitOnTrailing(s, '\n');
    var init := pieces[..|pieces| - 1];
    assert pieces == init + [""];
    JoinSnoc(init, "", "\n");
  }

  // ---------------------------------------------------------------------------
  // Integers as decimal text
  // ---------------------------------------------------------------------------

  function DigitChar(d: nat): (c: char)
    requires d < 10
    ensures IsDigit(c) && c as int - '0' as int == d
  {
    "0123456789"[d]
  }

  /** The value of a string of decimal digits. */
  function DigitsValue(s: string): int
    requires forall i :: 0 <= i < |s| ==> IsDigit(s[i])
  {
    if s == [] then 0
    else 10 * DigitsValue(s[..|s| - 1]) + (s[|s| - 1] as int - '0' as int)
  }

  /** Python's `str(n)` for a natural number: at least one decimal digit. */
  function NatToString(n: nat): (r: string)
    ensures |r| >= 1
    ensures forall i :: 0 <= i < |r| ==> IsDigit(r[i])
  {
    if n < 10 then [DigitChar(n)] else NatToString(n / 10) + [DigitChar(n % 10)]
  }

  /** Reading the digits back gives the number. */
  lemma {:induction false} NatToStringRoundTrip(n: nat)
    ensures DigitsValue(NatToString(n)) == n
  {
    var r := NatToString(n);
    if n >= 10 {
      NatToStringRoundTrip(n / 10);
      assert r[..|r| - 1] == NatToString(n / 10);
    }
  }

  /** Python's `str(i)` for an integer. */
  function IntToString(i: int): (r: string)
    ensures i < 0 <==> (|r| > 0 && r[0] == '-')
  {
    if i < 0 then "-" + NatToString(-i) else NatToString(i)
  }

  /** Different natural numbers print differently. */
  lemma NatToStringInjective(a: nat, b: nat)
    requires NatToString(a) == NatToString(b)
    ensures a == b
  {
    NatToStringRoundTrip(a);
    NatToStringRoundTrip(b);
  }

  /** Different integers print differently. */
  lemma IntToStringInjective(a: int, b: int)
    requires IntToString(a) == IntToString(b)
    ensures a == b
  {
    var s := IntToString(a);
    assert a < 0 <==> b < 0;
    if a < 0 {
      var na: nat, nb: nat := -a, -b;
      var ta, tb := NatToString(na), NatToString(nb);
      assert s == "-" + ta == "-" + tb;
      assert ta == s[1..] == tb;
      NatToStringInjective(na, nb);
    } else {
      NatToStringInjective(a, b);
    }
  }

  // ---------------------------------------------------------------------------
  // Python's string ordering and sorting a set of strings
  // ---------------------------------------------------------------------------

  /** Python's `a <= b` on strings: lexicographic by code point, a proper
      prefix first. */
  predicate LexLeq(a: string, b: string) {
    a == [] || (b != [] && (a[0] < b[0] || (a[0] == b[0] && LexLeq(a[1..], b[1..]))))
  }

  predicate LexLess(a: string, b: string) {
    LexLeq(a, b) && a != b
  }

  lemma {:induction false} LexLeqTotal(a: string, b: string)
    ensures LexLeq(a, b) || LexLeq(b, a)
  {
    if a != [] && b != [] && a[0] == b[0] {
      LexLeqTotal(a[1..], b[1..]);
    }
  }

  lemma {:induction false} LexLeqAntisymmetric(a: string, b: string)
    ensures LexLeq(a, b) && LexLeq(b, a) ==> a == b
  {
    if a != [] && b != [] && a[0] == b[0] {
      LexLeqAntisymmetric(a[1..], b[1..]);
      assert a == [a[0]] + a[1..] && b == [b[0]] + b[1..];
    }
  }

  lemma {:induction false} LexLeqTransitive(a: string, b: string, c: string)
    ensures LexLeq(a, b) && LexLeq(b, c) ==> LexLeq(a, c)
  {
    if a != [] && b != [] && c != [] && a[0] == b[0] && b[0] == c[0] {
      LexLeqTransitive(a[1..], b[1..], c[1..]);
    }
  }

  predicate IsLeast(m: string, s: set<string>) {
    m in s && forall y :: y in s ==> LexLeq(m, y)
  }

  lemma {:induction false} LeastExists(s: set<string>)
    requires s != {}
    ensures exists m :: IsLeast(m, s)
    decreases |s|
  {
    var x :| x in s;
    if s - {x} == {} {
      assert s == {x};
      assert LexLeq(x, x) by { LexLeqTotal(x, x); }
      assert IsLeast(x, s);
    } else {
      LeastExists(s - {x});
      var m :| IsLeast(m, s - {x});
      LexLeqTotal(m, x);
      if LexLeq(m, x) {
        assert IsLeast(m, s);
      } else {
        forall y | y in s
          ensures LexLeq(x, y)
        {
          if y == x {
            LexLeqTotal(x, x);
          } else {
            LexLeqTransitive(x, m, y);
          }
        }
        assert IsLeast(x, s);
      }
    }
  }

  lemma LeastUnique()
    ensures forall a, b, s :: IsLeast(a, s) && IsLeast(b, s) ==> a == b
  {
    forall a, b, s | IsLeast(a, s) && IsLeast(b, s)
      ensures a == b
    {
      LexLeqAntisymmetric(a, b);
    }
  }

  /** Python's `sorted(s)` for a set of strings: every element once, in
      strictly increasing order. */
  function SortedStrings(s: set<string>): (r: seq<string>)
    ensures |r| == |s|
    ensures forall x :: x in r <==> x in s
    ensures forall i, j :: 0 <= i < j < |r| ==> LexLess(r[i], r[j])
    decreases |s|
  {
    if s == {} then []
    else
      LeastExists(s);
      LeastUnique();
      var m :| IsLeast(m, s);
      [m] + SortedStrings(s - {m})
  }
}
