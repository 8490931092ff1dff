/** The handful of Python string operations the modelled code relies on:
    `str.strip()`, `str.startswith`, the `in` substring test, `str.replace`
    with an empty replacement and `str.join`, together with `str.split` at a
    separator, the inverse against which a join is stated. Strings are
    sequences of Unicode scalar values; a Python `str` can also hold lone
    surrogates such as `'\ud800'`, which are not modelled. */
module Text {

  /** The characters Python's `str.isspace()` accepts; `str.strip()` with no
      argument removes exactly these from both ends. */
  predicate IsSpace(c: char) {
    || ('\t' <= c <= '\r')
    || ('\U{1C}' <= c <= '\U{1F}')
    || c == ' ' || c == '\U{85}' || c == '\U{A0}' || c == '\U{1680}'
    || ('\U{2000}' <= c <= '\U{200A}')
    || c == '\U{2028}' || c == '\U{2029}' || c == '\U{202F}' || c == '\U{205F}'
    || c == '\U{3000}'
  }

  /** No character of `s` equals `c`. */
  predicate Avoids(s: string, c: char) {
    forall k :: 0 <= k < |s| ==> s[k] != c
  }

  /** Drops leading whitespace (Python `str.lstrip()`). */
  function TrimLeft(s: string): (r: string)
    ensures |r| <= |s| && r == s[|s| - |r|..]
    ensures r == [] || !IsSpace(r[0])
    ensures forall k :: 0 <= k < |s| - |r| ==> IsSpace(s[k])
  {
    if s != [] && IsSpace(s[0]) then TrimLeft(s[1..]) else s
  }

  /** Drops trailing whitespace (Python `str.rstrip()`). */
  function TrimRight(s: string): (r: string)
    ensures |r| <= |s| && r == s[..|r|]
    ensures r == [] || !IsSpace(r[|r| - 1])
    ensures forall k :: |r| <= k < |s| ==> IsSpace(s[k])
  {
    if s != [] && IsSpace(s[|s| - 1]) then TrimRight(s[..|s| - 1]) else s
  }

  /** Python `str.strip()`: the longest infix of `s` that neither starts nor
      ends with whitespace, obtained by removing whitespace from both ends. */
  function Strip(s: string): (r: string)
    ensures |r| <= |s|
    ensures r == [] || (!IsSpace(r[0]) && !IsSpace(r[|r| - 1]))
  {
    TrimRight(TrimLeft(s))
  }

  /** Python `s.startswith(p)`. */
  predicate StartsWith(s: string, p: string) {
    |p| <= |s| && s[..|p|] == p
  }

  /** Python `p in s`: `p` occurs somewhere in `s`. */
  predicate Contains(s: string, p: string)
    decreases |s|
  {
    StartsWith(s, p) || (s != [] && Contains(s[1..], p))
  }

  /** Python `s.replace(p, "")`: scans left to right and drops every
      non-overlapping occurrence of `p`, leftmost first. */
  function RemoveAll(s: string, p: string): (r: string)
    requires |p| > 0
    ensures |r| <= |s|
    decreases |s|
  {
    if StartsWith(s, p) then RemoveAll(s[|p|..], p)
    else if s == [] then []
    else [s[0]] + RemoveAll(s[1..], p)
  }

  /** Python `sep.join(parts)`. */
  function Join(parts: seq<string>, sep: string): (r: string)
    ensures |parts| > 0 ==> StartsWith(r, parts[0])
    ensures |parts| == 0 ==> r == []
  {
    if |parts| == 0 then []
    else if |parts| == 1 then parts[0]
    else parts[0] + sep + Join(parts[1..], sep)
  }

  /** Python `s.split(sep)` for a non-empty separator: the pieces between
      the non-overlapping occurrences of `sep`, leftmost first. */
  function SplitOn(s: string, sep: string): (r: seq<string>)
    requires |sep| > 0
    ensures |r| >= 1
    decreases |s|
  {
    if StartsWith(s, sep) then [[]] + SplitOn(s[|sep|..], sep)
    else if s == [] then [[]]
    else
      var rest := SplitOn(s[1..], sep);
      [[s[0]] + rest[0]] + rest[1..]
  }

  // ---------------------------------------------------------------------
  // Strip

  /** Stripping ignores whitespace in front of the text. */
  lemma StripSkipsLeadingSpace(c: char, s: string)
    requires IsSpace(c)
    ensures Strip([c] + s) == Strip(s)
  {
    assert ([c] + s)[1..] == s;
  }

  /** Text that neither starts nor ends with whitespace is left as it is. */
  lemma StripKeepsTrimmed(s: string)
    requires s == [] || (!IsSpace(s[0]) && !IsSpace(s[|s| - 1]))
    ensures Strip(s) == s
  {
  }

  /** Stripping twice is stripping once. */
  lemma StripIdempotent(s: string)
    ensures Strip(Strip(s)) == Strip(s)
  {
    StripKeepsTrimmed(Strip(s));
  }

  /** Trailing whitespace is only looked for after a non-blank prefix. */
  lemma {:induction false} TrimRightAfterPrefix(a: string, b: string)
    requires a != [] && !IsSpace(a[|a| - 1])
    ensures TrimRight(a + b) == a + TrimRight(b)
    decreases |b|
  {
    if b != [] && IsSpace(b[|b| - 1]) {
      assert (a + b)[..|a + b| - 1] == a + b[..|b| - 1];
      TrimRightAfterPrefix(a, b[..|b| - 1]);
    } else if b == [] {
      assert a + b == a;
    }
  }

  /** Removing trailing whitespace first does not change the strip. */
  lemma {:induction false} StripAfterTrimRight(s: string)
    ensures Strip(TrimRight(s)) == Strip(s)
    decreases |s|
  {
    if s != [] && IsSpace(s[|s| - 1]) {
      StripAfterTrimRight(s[..|s| - 1]);
      TrimLeftDropLastSpace(s);
    }
  }

  /** Dropping one trailing space commutes with removing leading ones. */
  lemma {:induction false} TrimLeftDropLastSpace(s: string)
    requires s != [] && IsSpace(s[|s| - 1])
    ensures TrimRight(TrimLeft(s)) == TrimRight(TrimLeft(s[..|s| - 1]))
    decreases |s|
  {
    if !IsSpace(s[0]) {
      DropLastSpaceNoLead(s);
    } else if |s| == 1 {
      DropLastSpaceOnly(s);
    } else {
      LastOfTail(s);
      TrimLeftDropLastSpace(s[1..]);
      DropLastSpaceLead(s);
    }
  }

  lemma DropLastSpaceOnly(s: string)
    requires |s| == 1 && IsSpace(s[0])
    ensures TrimRight(TrimLeft(s)) == TrimRight(TrimLeft(s[..|s| - 1]))
  {
    assert s[1..] == [] && s[..0] == [];
  }

  lemma DropLastSpaceNoLead(s: string)
    requires s != [] && IsSpace(s[|s| - 1]) && !IsSpace(s[0])
    ensures TrimRight(TrimLeft(s)) == TrimRight(TrimLeft(s[..|s| - 1]))
  {
    assert |s| > 1 && s[..|s| - 1][0] == s[0];
    assert TrimLeft(s) == s && TrimLeft(s[..|s| - 1]) == s[..|s| - 1];
  }

  /** With a leading space, the step reduces to the text without it. */
  lemma DropLastSpaceLead(s: string)
    requires |s| > 1 && IsSpace(s[0])
    requires TrimRight(TrimLeft(s[1..])) == TrimRight(TrimLeft(s[1..][..|s[1..]| - 1]))
    ensures TrimRight(TrimLeft(s)) == TrimRight(TrimLeft(s[..|s| - 1]))
  {
    TrimLeftSkip(s);
    InitTail(s);
    TrimLeftSkip(s[..|s| - 1]);
  }

  lemma LastOfTail(s: string)
    requires |s| > 1
    ensures s[1..] != [] && s[1..][|s[1..]| - 1] == s[|s| - 1]
  {
  }

  lemma InitTail(s: string)
    requires |s| > 1
    ensures s[..|s| - 1][0] == s[0]
    ensures s[..|s| - 1][1..] == s[1..][..|s[1..]| - 1]
  {
  }

  lemma TrimLeftSkip(s: string)
    requires s != [] && IsSpace(s[0])
    ensures TrimLeft(s) == TrimLeft(s[1..])
  {
  }

  // ---------------------------------------------------------------------
  // Contains

  /** An occurrence cannot begin inside a prefix none of whose characters
      is the first character of the pattern. */
  lemma {:induction false} ContainsPastPrefix(a: string, x: string, p: string)
    requires |p| > 0 && Avoids(a, p[0])
    ensures Contains(a + x, p) <==> Contains(x, p)
    decreases |a|
  {
    if a != [] {
      assert (a + x)[1..] == a[1..] + x;
      ContainsPastPrefix(a[1..], x, p);
    } else {
      assert a + x == x;
    }
  }

  /** The pattern occurs wherever it has been written in. */
  lemma {:induction false} ContainsInfix(a: string, p: string, b: string)
    ensures Contains(a + p + b, p)
    decreases |a|
  {
    if a == [] {
      assert (a + p + b)[..|p|] == p;
    } else {
      assert (a + p + b)[1..] == a[1..] + p + b;
      ContainsInfix(a[1..], p, b);
    }
  }

  /** A prefix of a text free of the pattern is free of it too. */
  lemma {:induction false} NotContainsPrefix(s: string, n: nat, p: string)
    requires n <= |s| && !Contains(s, p)
    ensures !Contains(s[..n], p)
    decreases n
  {
    if n > 0 {
      assert s[..n][1..] == s[1..][..n - 1];
      NotContainsPrefix(s[1..], n - 1, p);
    }
  }

  // ---------------------------------------------------------------------
  // RemoveAll

  /** Removing a pattern that does not occur changes nothing. */
  lemma {:induction false} RemoveAllAbsent(s: string, p: string)
    requires |p| > 0 && !Contains(s, p)
    ensures RemoveAll(s, p) == s
    decreases |s|
  {
    if s != [] {
      RemoveAllAbsent(s[1..], p);
    }
  }

  /** An occurrence at the very front is removed. */
  lemma RemoveAllLeading(p: string, rest: string)
    requires |p| > 0
    ensures RemoveAll(p + rest, p) == RemoveAll(rest, p)
  {
    var s := p + rest;
    assert s[..|p|] == p && s[|p|..] == rest;
  }

  /** Two occurrences, one at the front and one after a separating
      character, both go: what is left is the text around them. */
  lemma RemoveAllBoth(p: string, x: string, c: char, y: string)
    requires |p| > 0 && Avoids(p, c) && !Contains(x, p) && !Contains(y, p)
    ensures RemoveAll(p + x + [c] + p + y, p) == x + [c] + y
  {
    var tail := x + [c] + (p + y);
    assert p + x + [c] + p + y == p + tail;
    RemoveAllLeading(p, tail);
    RemoveAllLeading(p, y);
    RemoveAllAbsent(x, p);
    RemoveAllAbsent(y, p);
    assert RemoveAll(p + y, p) == y;
    RemoveAllAcross(x, c, p + y, p);
    assert RemoveAll(tail, p) == x + [c] + y;
  }

  /** Occurrences on either side of a character that is not part of the
      pattern are removed independently: every occurrence goes, not only the
      first one. */
  lemma {:induction false} RemoveAllAcross(x: string, c: char, y: string, p: string)
    requires |p| > 0 && Avoids(p, c)
    ensures RemoveAll(x + [c] + y, p) == RemoveAll(x, p) + [c] + RemoveAll(y, p)
    decreases |x|
  {
    if StartsWith(x + [c] + y, p) {
      AcrossMatch(x, c, y, p);
      RemoveAllAcross(x[|p|..], c, y, p);
      AcrossMatchStep(x, c, y, p);
    } else if x == [] {
      AcrossEmpty(c, y, p);
    } else {
      RemoveAllAcross(x[1..], c, y, p);
      AcrossMissStep(x, c, y, p);
    }
  }

  lemma AcrossMatchStep(x: string, c: char, y: string, p: string)
    requires |p| > 0 && Avoids(p, c) && StartsWith(x + [c] + y, p) && |p| <= |x|
    requires RemoveAll(x[|p|..] + [c] + y, p) == RemoveAll(x[|p|..], p) + [c] + RemoveAll(y, p)
    ensures RemoveAll(x + [c] + y, p) == RemoveAll(x, p) + [c] + RemoveAll(y, p)
  {
    AcrossMatch(x, c, y, p);
  }

  lemma AcrossMissStep(x: string, c: char, y: string, p: string)
    requires |p| > 0 && x != [] && !StartsWith(x + [c] + y, p)
    requires RemoveAll(x[1..] + [c] + y, p) == RemoveAll(x[1..], p) + [c] + RemoveAll(y, p)
    ensures RemoveAll(x + [c] + y, p) == RemoveAll(x, p) + [c] + RemoveAll(y, p)
  {
    AcrossMiss(x, c, y, p);
    ConsAcross(RemoveAll(x + [c] + y, p), RemoveAll(x, p), x[0], RemoveAll(x[1..], p), c, RemoveAll(y, p));
  }

  /** Re-association behind AcrossMissStep, kept apart from RemoveAll. */
  lemma ConsAcross(whole: string, left: string, h: char, a: string, c: char, b: string)
    requires whole == [h] + (a + [c] + b) && left == [h] + a
    ensures whole == left + [c] + b
  {
  }

  /** An occurrence at the front cannot reach the character, so it is an
      occurrence at the front of `x`. */
  lemma AcrossMatch(x: string, c: char, y: string, p: string)
    requires |p| > 0 && Avoids(p, c) && StartsWith(x + [c] + y, p)
    ensures StartsWith(x, p) && |p| <= |x|
    ensures RemoveAll(x + [c] + y, p) == RemoveAll(x[|p|..] + [c] + y, p)
    ensures RemoveAll(x, p) == RemoveAll(x[|p|..], p)
  {
    var s := x + [c] + y;
    assert forall k :: 0 <= k < |p| ==> p[k] == s[k];
    assert s[|x|] == c;
    assert |x| >= |p|;
    assert x[..|p|] == p;
    assert s[|p|..] == x[|p|..] + [c] + y;
  }

  lemma AcrossEmpty(c: char, y: string, p: string)
    requires |p| > 0 && Avoids(p, c)
    ensures RemoveAll([] + [c] + y, p) == RemoveAll([], p) + [c] + RemoveAll(y, p)
  {
    var s := [] + [c] + y;
    assert s[0] == c && s[1..] == y;
    assert !StartsWith(s, p) by {
      assert p[0] != c;
    }
  }

  /** Without an occurrence at the front, the first character is kept on
      both sides. */
  lemma AcrossMiss(x: string, c: char, y: string, p: string)
    requires |p| > 0 && x != [] && !StartsWith(x + [c] + y, p)
    ensures RemoveAll(x + [c] + y, p) == [x[0]] + RemoveAll(x[1..] + [c] + y, p)
    ensures RemoveAll(x, p) == [x[0]] + RemoveAll(x[1..], p)
  {
    var s := x + [c] + y;
    assert s[0] == x[0] && s[1..] == x[1..] + [c] + y;
    assert !StartsWith(x, p) by {
      if |p| <= |x| {
        assert s[..|p|] == x[..|p|];
      }
    }
  }

  // ---------------------------------------------------------------------
  // SplitOn and Join

  /** A piece free of the separator's first character splits to itself,
      followed by whatever the rest splits to. */
  lemma {:induction false} SplitOnPiece(x: string, sep: string, y: string)
    requires |sep| > 0 && Avoids(x, sep[0])
    ensures SplitOn(x + sep + y, sep) == [x] + SplitOn(y, sep)
    decreases |x|
  {
    var s := x + sep + y;
    if x == [] {
      assert s[..|sep|] == sep && s[|sep|..] == y;
    } else {
      assert !StartsWith(s, sep) by { assert s[0] == x[0]; }
      assert s[1..] == x[1..] + sep + y;
      SplitOnPiece(x[1..], sep, y);
      assert [x[0]] + x[1..] == x;
    }
  }

  /** A text free of the separator's first character does not split. */
  lemma {:induction false} SplitOnWhole(x: string, sep: string)
    requires |sep| > 0 && Avoids(x, sep[0])
    ensures SplitOn(x, sep) == [x]
    decreases |x|
  {
    if x != [] {
      assert !StartsWith(x, sep) by { assert x[0] != sep[0]; }
      SplitOnWhole(x[1..], sep);
      assert [x[0]] + x[1..] == x;
    }
  }

  /** Splitting undoes joining, as long as no part contains the separator's
      first character (and there is at least one part, since splitting the
      empty text yields one empty piece). */
  lemma {:induction false} SplitJoin(parts: seq<string>, sep: string)
    requires |sep| > 0 && |parts| > 0
    requires forall i :: 0 <= i < |parts| ==> Avoids(parts[i], sep[0])
    ensures SplitOn(Join(parts, sep), sep) == parts
    decreases |parts|
  {
    if |parts| == 1 {
      SplitOnWhole(parts[0], sep);
    } else {
      SplitOnPiece(parts[0], sep, Join(parts[1..], sep));
      SplitJoin(parts[1..], sep);
    }
  }
}
