/**
 The prefix query of app/db/queries/resources.py: an escaped LIKE pattern that
 must agree with a plain prefix test.
 */
module LikePattern {

  const ESCAPE: char := '\\'

  // str.replace of one character by a string.
  function Replace(s: string, c: char, put: string): string {
    if s == "" then "" else (if s[0] == c then put else [s[0]]) + Replace(s[1..], c, put)
  }

  // The three replacements, one after the other.
  function EscapeLike(s: string): string {
    Replace(Replace(Replace(s, '\\', "\\\\"), '%', "\\%"), '_', "\\_")
  }

  // One pass that puts an escape before each special character.
  function EscapeOnce(s: string): string {
    if s == "" then ""
    else (if s[0] == '\\' || s[0] == '%' || s[0] == '_' then ['\\', s[0]] else [s[0]]) + EscapeOnce(s[1..])
  }

  // LIKE with an escape character (section 8.5 of ISO/IEC 9075-2): `%` stands
  // for any string, `_` for any character, an escaped special character for
  // itself; an escape before anything else is an error and matches nothing.
  predicate Like(s: string, pattern: string)
    decreases |s| + |pattern|
  {
    if pattern == "" then s == ""
    else if pattern[0] == ESCAPE then
      && |pattern| >= 2
      && (pattern[1] == ESCAPE || pattern[1] == '%' || pattern[1] == '_')
      && s != "" && s[0] == pattern[1] && Like(s[1..], pattern[2..])
    else if pattern[0] == '%' then Like(s, pattern[1..]) || (s != "" && Like(s[1..], pattern))
    else if pattern[0] == '_' then s != "" && Like(s[1..], pattern[1..])
    else s != "" && s[0] == pattern[0] && Like(s[1..], pattern[1..])
  }

  lemma {:induction false} ReplaceOfConcat(a: string, b: string, c: char, put: string)
    ensures Replace(a + b, c, put) == Replace(a, c, put) + Replace(b, c, put)
  {
    if a == "" {
      assert a + b == b;
    } else {
      assert (a + b)[1..] == a[1..] + b;
      ReplaceOfConcat(a[1..], b, c, put);
    }
  }

  // The replacements do not disturb one another: the backslash goes first.
  lemma {:induction false} EscapeLikeIsOnePass(s: string)
    ensures EscapeLike(s) == EscapeOnce(s)
  {
    if s != "" {
      EscapeLikeIsOnePass(s[1..]);
      var head, tail := Replace([s[0]], '\\', "\\\\"), Replace(s[1..], '\\', "\\\\");
      assert [s[0]][1..] == "";
      assert s == [s[0]] + s[1..];
      ReplaceOfConcat([s[0]], s[1..], '\\', "\\\\");
      ReplaceOfConcat(head, tail, '%', "\\%");
      ReplaceOfConcat(Replace(head, '%', "\\%"), Replace(tail, '%', "\\%"), '_', "\\_");
      EscapeOneCharacter(s[0]);
    }
  }

  lemma EscapeOneCharacter(c: char)
    ensures Replace(Replace(Replace([c], '\\', "\\\\"), '%', "\\%"), '_', "\\_") == EscapeOnce([c])
  {
    ReplaceOne(c, '\\', "\\\\");
    ReplaceOne(c, '%', "\\%");
    ReplaceOne(c, '_', "\\_");
    ReplaceTwo('\\', '\\', '%', "\\%");
    ReplaceTwo('\\', '\\', '_', "\\_");
    ReplaceTwo('\\', '%', '_', "\\_");
    assert [c][1..] == "";
  }

  lemma ReplaceOne(a: char, c: char, put: string)
    ensures Replace([a], c, put) == if a == c then put else [a]
  {
    assert [a][1..] == "";
  }

  lemma ReplaceTwo(a: char, b: char, c: char, put: string)
    ensures Replace([a, b], c, put) == (if a == c then put else [a]) + (if b == c then put else [b])
  {
    assert [a, b] == [a] + [b];
    ReplaceOfConcat([a], [b], c, put);
    ReplaceOne(a, c, put);
    ReplaceOne(b, c, put);
  }

  lemma {:induction false} PercentMatchesAll(s: string)
    ensures Like(s, "%")
  {
    if s == "" {
      assert "%"[1..] == "";
    } else {
      PercentMatchesAll(s[1..]);
    }
  }

  lemma {:induction false} EscapedPrefix(s: string, p: string, rest: string)
    ensures Like(s, EscapeOnce(p) + rest) <==> p <= s && Like(s[|p|..], rest)
  {
    if p == "" {
      assert EscapeOnce(p) + rest == rest && s[0..] == s;
    } else {
      var pattern := EscapeOnce(p) + rest;
      if p[0] == '\\' || p[0] == '%' || p[0] == '_' {
        assert pattern[2..] == EscapeOnce(p[1..]) + rest;
      } else {
        assert pattern[1..] == EscapeOnce(p[1..]) + rest;
      }
      if s != "" {
        EscapedPrefix(s[1..], p[1..], rest);
        assert p <= s <==> s[0] == p[0] && p[1..] <= s[1..];
        if p <= s {
          assert s[1..][|p[1..]|..] == s[|p|..];
        }
      }
    }
  }

  // The pattern finds exactly the names below the prefix, for every prefix.
  lemma PrefixQueryIsPrefixTest(s: string, p: string)
    ensures Like(s, EscapeLike(p) + "/%") <==> p + "/" <= s
  {
    EscapeLikeIsOnePass(p);
    EscapedPrefix(s, p, "/%");
    if p <= s {
      var rest := s[|p|..];
      assert "/%"[1..] == "%";
      if rest != "" {
        PercentMatchesAll(rest[1..]);
      }
      assert p + "/" <= s <==> rest != "" && rest[0] == '/';
    }
  }
}
