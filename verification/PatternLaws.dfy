/**
 What the three kinds of pattern match: a rule's wildcards, ILIKE, and the globs that
 invalidate cached keys.  Each lemma says for one kind what a pattern matches in terms of
 the letters it holds and of what follows them.
 */
module PatternLaws {
  import opened Text
  import opened TextLaws
  import opened RuleSelection
  import opened PolicyDecisions
  import opened PolicyCache

  lemma {:induction false} LetterExact(a: char, b: char)
    ensures LowerChar(a) == LowerChar(b) <==> SameLetter(a, b)
  {
  }

  lemma {:induction false} SameLettersFirst(a: string, b: string)
    requires a != "" && b != ""
    ensures SameLetters(a, b) <==> SameLetter(a[0], b[0]) && SameLetters(a[1..], b[1..])
  {
    if |a| == |b| {
      assert forall i | 0 < i < |a| :: a[i] == a[1..][i - 1] && b[i] == b[1..][i - 1];
      assert forall i | 0 <= i < |a| - 1 :: a[1..][i] == a[i + 1] && b[1..][i] == b[i + 1];
    }
  }

  // ----- wildcards of rules -----

  /** Without a star the letters have to be the same, whatever their case. */
  lemma {:induction false} WildcardPlain(p: string, s: string)
    requires '*' !in p
    ensures Wildcard(p, s) <==> SameLetters(p, s)
  {
    if p != "" && s != "" {
      assert p[0] in p;
      LetterExact(p[0], s[0]);
      SameLettersFirst(p, s);
      WildcardPlain(p[1..], s[1..]);
    }
  }

  /** `k` characters without a line break, and the rest of the pattern matches what follows them. */
  predicate TakesAnyText(q: string, s: string, k: int) {
    0 <= k <= |s| && '\n' !in s[..k] && Wildcard(q, s[k..])
  }

  lemma {:induction false} LeadingStar(q: string, s: string)
    ensures Wildcard("*" + q, s) <==> exists k :: TakesAnyText(q, s, k)
  {
    var p := "*" + q;
    assert p[1..] == q && s[0..] == s;
    if s == "" {
      assert TakesAnyText(q, s, 0) <==> Wildcard(q, s);
      assert forall k | TakesAnyText(q, s, k) :: k == 0;
    } else {
      LeadingStar(q, s[1..]);
      if k :| TakesAnyText(q, s[1..], k) && s[0] != '\n' {
        assert s[..k + 1] == [s[0]] + s[1..][..k] && s[k + 1..] == s[1..][k..];
        assert TakesAnyText(q, s, k + 1);
      }
      if k :| TakesAnyText(q, s, k) && k > 0 {
        assert s[..k] == [s[0]] + s[1..][..k - 1] && s[k..] == s[1..][k - 1..];
        assert s[0] in s[..k] && TakesAnyText(q, s[1..], k - 1);
      }
      if TakesAnyText(q, s, 0) { assert Wildcard(q, s); }
      if Wildcard(q, s) { assert TakesAnyText(q, s, 0); }
    }
  }

  /** Up to its first star a pattern has the letters of the name; the star takes any text without a line break. */
  lemma {:induction false} WildcardStar(p: string, q: string, s: string)
    requires '*' !in p
    ensures Wildcard(p + ("*" + q), s)
            <==> |p| <= |s| && SameLetters(p, s[..|p|]) && exists k :: TakesAnyText(q, s[|p|..], k)
  {
    if p == "" {
      assert p + ("*" + q) == "*" + q && s[0..] == s;
      LeadingStar(q, s);
    } else {
      assert p[0] in p && (p + ("*" + q))[1..] == p[1..] + ("*" + q);
      if s != "" {
        LetterExact(p[0], s[0]);
        WildcardStar(p[1..], q, s[1..]);
        if |p| <= |s| {
          assert s[1..][|p| - 1..] == s[|p|..] && s[..|p|][1..] == s[1..][..|p| - 1];
          SameLettersFirst(p, s[..|p|]);
        }
      }
    }
  }

  /** A resource without a star is for the name it spells, letter case included. */
  lemma {:induction false} HitPlain(r: Rule, n: string)
    requires '*' !in r.resource
    ensures Hit(r, n) <==> r.resource == n
  {
  }

  /** A resource with a star is for the names it matches as a wildcard, and for the name it spells. */
  lemma {:induction false} HitStar(r: Rule, p: string, q: string, n: string)
    requires '*' !in p && r.resource == p + ("*" + q)
    ensures Hit(r, n) <==>
              || r.resource == n
              || (|p| <= |n| && SameLetters(p, n[..|p|]) && exists k :: TakesAnyText(q, n[|p|..], k))
  {
    WildcardStar(p, q, n);
    assert r.resource[|p|] == '*';
  }

  // ----- ILIKE -----

  predicate Special(c: char) {
    c == '%' || c == '_' || c == '\\'
  }

  lemma {:induction false} LikePercent(s: string, q: string)
    ensures Like(s, "%" + q) <==> exists k :: 0 <= k <= |s| && Like(s[k..], q)
  {
    var p := "%" + q;
    assert p[1..] == q && s[0..] == s;
    if s == "" {
      assert Like(s, p) <==> Like(s[0..], q);
    } else {
      LikePercent(s[1..], q);
      if k :| 0 <= k <= |s| - 1 && Like(s[1..][k..], q) { assert s[k + 1..] == s[1..][k..]; }
      if k :| 0 < k <= |s| && Like(s[k..], q) { assert s[k..] == s[1..][k - 1..]; }
      if Like(s, q) { assert Like(s[0..], q); }
    }
  }

  /**
   A percent sign takes any text and an underscore one character; a character after a backslash, and every
   other one, takes the same letter; a backslash at the end takes nothing.
   */
  lemma {:induction false} LikeExact(s: string, c: char, q: string)
    ensures Like(s, "") <==> s == ""
    ensures Like(s, "%" + q) <==> exists k :: 0 <= k <= |s| && Like(s[k..], q)
    ensures Like(s, "_" + q) <==> s != "" && Like(s[1..], q)
    ensures Like(s, "\\" + [c] + q) <==> s != "" && SameLetter(c, s[0]) && Like(s[1..], q)
    ensures !Special(c) ==> (Like(s, [c] + q) <==> s != "" && SameLetter(c, s[0]) && Like(s[1..], q))
    ensures !Like(s, "\\")
  {
    LikePercent(s, q);
    assert ("_" + q)[1..] == q && ([c] + q)[1..] == q;
    assert ("\\" + [c] + q)[2..] == q && ("\\" + [c] + q)[1] == c;
    if s != "" { LetterExact(c, s[0]); }
  }

  // ----- globs -----

  lemma {:induction false} GlobStar(q: string, s: string)
    ensures Glob("*" + q, s) <==> exists k :: 0 <= k <= |s| && Glob(q, s[k..])
  {
    var p := "*" + q;
    assert p[1..] == q && s[0..] == s;
    if s == "" {
      assert Glob(p, s) <==> Glob(q, s[0..]);
    } else {
      GlobStar(q, s[1..]);
      if k :| 0 <= k <= |s| - 1 && Glob(q, s[1..][k..]) { assert s[k + 1..] == s[1..][k..]; }
      if k :| 0 < k <= |s| && Glob(q, s[k..]) { assert s[k..] == s[1..][k - 1..]; }
      if Glob(q, s) { assert Glob(q, s[0..]); }
    }
  }

  /** A star takes any text and a question mark one character; every other character takes itself alone. */
  lemma {:induction false} GlobExact(s: string, c: char, q: string)
    ensures Glob("", s) <==> s == ""
    ensures Glob("*" + q, s) <==> exists k :: 0 <= k <= |s| && Glob(q, s[k..])
    ensures Glob("?" + q, s) <==> s != "" && Glob(q, s[1..])
    ensures c != '*' && c != '?' ==> (Glob([c] + q, s) <==> s != "" && s[0] == c && Glob(q, s[1..]))
  {
    GlobStar(q, s);
    assert ("?" + q)[1..] == q && ([c] + q)[1..] == q;
  }
}
