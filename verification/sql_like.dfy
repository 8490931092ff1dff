/** SQLite's `LIKE` operator as the catalogue query uses it: `%` matches any
    run of characters, `_` matches exactly one character, and every other
    pattern character matches itself up to ASCII case (SQLite's default
    `LIKE` folds only the letters A-Z). No `ESCAPE` clause is involved. */
module SqlLike {

  /** ASCII lower-casing; every other character is left alone. */
  function AsciiFold(c: char): char {
    if 'A' <= c <= 'Z' then (c as int + 32) as char else c
  }

  /** `s LIKE pattern` under SQLite's default rules. */
  predicate Like(s: string, pattern: string)
    decreases |s| + |pattern|
  {
    if pattern == [] then s == []
    else if pattern[0] == '%' then
      Like(s, pattern[1..]) || (s != [] && Like(s[1..], pattern))
    else
      && s != []
      && (pattern[0] == '_' || AsciiFold(pattern[0]) == AsciiFold(s[0]))
      && Like(s[1..], pattern[1..])
  }

  /** A pattern character that is neither wildcard. */
  predicate Literal(c: char) {
    c != '%' && c != '_'
  }

  /** `s` starts with `lit` up to ASCII case. */
  predicate FoldedPrefix(s: string, lit: string) {
    && |lit| <= |s|
    && forall k :: 0 <= k < |lit| ==> AsciiFold(s[k]) == AsciiFold(lit[k])
  }

  /** A lone `%` matches every text. */
  lemma {:induction false} PercentMatchesAll(s: string)
    ensures Like(s, "%")
    decreases |s|
  {
    if s != [] {
      PercentMatchesAll(s[1..]);
    }
  }

  /** A wildcard-free head of the pattern has to be matched, up to case, by
      the same number of leading characters of the text. */
  lemma {:induction false} LiteralHead(s: string, lit: string, rest: string)
    requires forall k :: 0 <= k < |lit| ==> Literal(lit[k])
    ensures Like(s, lit + rest) <==> FoldedPrefix(s, lit) && Like(s[|lit|..], rest)
    decreases |lit|
  {
    if lit == [] {
      assert lit + rest == rest;
    } else {
      assert (lit + rest)[0] == lit[0] && (lit + rest)[1..] == lit[1..] + rest;
      assert Literal(lit[0]);
      if s != [] {
        LiteralHead(s[1..], lit[1..], rest);
        if FoldedPrefix(s[1..], lit[1..]) && AsciiFold(lit[0]) == AsciiFold(s[0]) {
          assert forall k :: 1 <= k < |lit| ==> s[k] == s[1..][k - 1] && lit[k] == lit[1..][k - 1];
        }
        if FoldedPrefix(s, lit) {
          assert AsciiFold(s[0]) == AsciiFold(lit[0]);
          assert forall k :: 0 <= k < |lit| - 1 ==> s[1..][k] == s[k + 1] && lit[1..][k] == lit[k + 1];
        }
        if |lit| <= |s| {
          assert s[1..][|lit| - 1..] == s[|lit|..];
        }
      }
    }
  }

  /** The reserved-name pattern `sqlite_%` matches exactly the names of at
      least seven characters whose first six spell `sqlite` in any ASCII
      case. */
  lemma ReservedNamePattern(name: string)
    ensures Like(name, "sqlite_%") <==>
              |name| >= 7 && forall k :: 0 <= k < 6 ==> AsciiFold(name[k]) == "sqlite"[k]
  {
    var lit, rest := "sqlite", "_%";
    assert lit + rest == "sqlite_%";
    LiteralHead(name, lit, rest);
    if |name| >= 6 {
      var tail := name[|lit|..];
      if tail != [] {
        PercentMatchesAll(tail[1..]);
      }
      assert Like(tail, rest) <==> tail != [];
    }
  }
}
