/** What the string helpers amount to, letter by letter. */
module TextLaws {
  import opened Text

  // ----- letter case -----

  predicate SameLetter(a: char, b: char) {
    a == b || ('A' <= a <= 'Z' && b as int == a as int + 32) || ('A' <= b <= 'Z' && a as int == b as int + 32)
  }

  /** Letter by letter the same, whatever the case of either. */
  predicate SameLetters(a: string, b: string) {
    |a| == |b| && forall i | 0 <= i < |a| :: SameLetter(a[i], b[i])
  }

  /** Folding to either case identifies texts exactly when they have the same letters. */
  lemma {:induction false} CaseFoldsExactly(a: string, b: string)
    ensures Lower(a) == Lower(b) <==> SameLetters(a, b)
    ensures Upper(a) == Upper(b) <==> SameLetters(a, b)
  {
    if |a| == |b| {
      forall i | 0 <= i < |a|
        ensures Lower(a)[i] == Lower(b)[i] <==> SameLetter(a[i], b[i])
        ensures Upper(a)[i] == Upper(b)[i] <==> SameLetter(a[i], b[i])
      {
      }
    } else {
      assert |Lower(a)| == |Upper(a)| == |a| && |Lower(b)| == |Upper(b)| == |b|;
    }
  }

  predicate NoUpper(s: string) {
    forall i | 0 <= i < |s| :: !('A' <= s[i] <= 'Z')
  }

  predicate NoLower(s: string) {
    forall i | 0 <= i < |s| :: !('a' <= s[i] <= 'z')
  }

  /** The folded text is the one with the same letters that has none of the other case. */
  lemma {:induction false} FoldedExact(s: string, t: string)
    ensures t == Lower(s) <==> SameLetters(s, t) && NoUpper(t)
    ensures t == Upper(s) <==> SameLetters(s, t) && NoLower(t)
  {
    if |t| == |s| {
      forall i | 0 <= i < |s|
        ensures t[i] == Lower(s)[i] <==> SameLetter(s[i], t[i]) && !('A' <= t[i] <= 'Z')
        ensures t[i] == Upper(s)[i] <==> SameLetter(s[i], t[i]) && !('a' <= t[i] <= 'z')
      {
      }
    }
  }

  // ----- whitespace and commas -----

  /** Tab, the four that end lines or pages, the four separators, and the blank. */
  lemma {:induction false} SpaceExact(c: char)
    ensures IsSpace(c) <==> c as int in {9, 10, 11, 12, 13, 28, 29, 30, 31, 32}
  {
  }

  lemma {:induction false} StripLeftExact(s: string) returns (a: string)
    ensures s == a + StripLeft(s) && forall c | c in a :: IsSpace(c)
    ensures StripLeft(s) != "" ==> !IsSpace(StripLeft(s)[0])
  {
    a := "";
    if s != "" && IsSpace(s[0]) {
      var rest := StripLeftExact(s[1..]);
      a := [s[0]] + rest;
    }
  }

  lemma {:induction false} StripRightExact(s: string) returns (b: string)
    ensures s == StripRight(s) + b && forall c | c in b :: IsSpace(c)
    ensures StripRight(s) != "" ==> !IsSpace(StripRight(s)[|StripRight(s)| - 1]) && StripRight(s)[0] == s[0]
  {
    b := "";
    if s != "" && IsSpace(s[|s| - 1]) {
      var rest := StripRightExact(s[..|s| - 1]);
      b := rest + [s[|s| - 1]];
    }
  }

  /** `t` is what is left of `s` without some whitespace at its ends. */
  ghost predicate Trimmed(t: string, s: string) {
    exists a, b :: s == a + t + b && (forall c | c in a :: IsSpace(c)) && forall c | c in b :: IsSpace(c)
  }

  lemma {:induction false} TrimmedAt(s: string, a: string, x: string, t: string, b: string)
    requires s == a + x && x == t + b && (forall c | c in a :: IsSpace(c)) && forall c | c in b :: IsSpace(c)
    ensures Trimmed(t, s)
  {
    assert s == a + t + b;
  }

  predicate CleanEnds(t: string) {
    t != "" ==> !IsSpace(t[0]) && !IsSpace(t[|t| - 1])
  }

  lemma {:induction false} SkipSpaces(a: string, x: string)
    requires forall c | c in a :: IsSpace(c)
    ensures StripLeft(a + x) == StripLeft(x)
  {
    if a == "" {
      assert a + x == x;
    } else {
      assert (a + x)[1..] == a[1..] + x && (a + x)[0] == a[0] && a[0] in a;
      SkipSpaces(a[1..], x);
    }
  }

  lemma {:induction false} DropSpaces(x: string, b: string)
    requires forall c | c in b :: IsSpace(c)
    ensures StripRight(x + b) == StripRight(x)
  {
    if b == "" {
      assert x + b == x;
    } else {
      var k := |b| - 1;
      assert (x + b)[..|x| + k] == x + b[..k] && (x + b)[|x| + k] == b[k] && b[k] in b;
      DropSpaces(x, b[..k]);
    }
  }

  lemma {:induction false} TrimmedStrips(t: string, s: string)
    requires Trimmed(t, s) && CleanEnds(t)
    ensures t == Strip(s)
  {
    var a, b :| s == a + t + b && (forall c | c in a :: IsSpace(c)) && forall c | c in b :: IsSpace(c);
    assert s == a + (t + b);
    SkipSpaces(a, t + b);
    if t == "" {
      assert t + b == b && b + "" == b;
      SkipSpaces(b, "");
    } else {
      DropSpaces(t, b);
    }
  }

  /** Stripping takes whitespace from both ends, and leaves none there. */
  lemma {:induction false} StripExact(t: string, s: string)
    ensures t == Strip(s) <==> Trimmed(t, s) && CleanEnds(t)
  {
    var a := StripLeftExact(s);
    var b := StripRightExact(StripLeft(s));
    TrimmedAt(s, a, StripLeft(s), Strip(s), b);
    if Trimmed(t, s) && CleanEnds(t) { TrimmedStrips(t, s); }
  }

  /** The pieces hold no comma, and with commas between them they are the text. */
  predicate Pieces(ps: seq<string>, s: string) {
    ps != [] && JoinCommas(ps) == s && forall p | p in ps :: ',' !in p
  }

  function JoinCommas(ps: seq<string>): string
    requires ps != []
  {
    if |ps| == 1 then ps[0] else ps[0] + "," + JoinCommas(ps[1..])
  }

  lemma {:induction false} SplitPieces(s: string)
    ensures Pieces(SplitCommas(s), s)
  {
    if s != "" {
      var rest, r := SplitCommas(s[1..]), SplitCommas(s);
      SplitPieces(s[1..]);
      assert s == [s[0]] + s[1..];
      if s[0] == ',' {
        assert r[1..] == rest;
        assert JoinCommas(r) == "" + "," + JoinCommas(rest);
      } else {
        assert r[1..] == rest[1..] && rest[0] in rest;
        assert forall p | p in rest[1..] :: p in rest;
        if |rest| > 1 { assert JoinCommas(r) == [s[0]] + (rest[0] + "," + JoinCommas(rest[1..])); }
      }
    }
  }

  lemma {:induction false} PieceAlone(p: string)
    requires ',' !in p
    ensures SplitCommas(p) == [p]
  {
    if p != "" {
      assert p == [p[0]] + p[1..] && p[0] in p;
      PieceAlone(p[1..]);
    }
  }

  lemma {:induction false} PieceFirst(p: string, s: string)
    requires ',' !in p
    ensures SplitCommas(p + "," + s) == [p] + SplitCommas(s)
  {
    var t := p + "," + s;
    if p == "" {
      assert t[0] == ',' && t[1..] == s;
    } else {
      assert p == [p[0]] + p[1..] && p[0] in p;
      assert t[0] == p[0] && t[1..] == p[1..] + "," + s;
      PieceFirst(p[1..], s);
    }
  }

  lemma {:induction false} PiecesSplit(ps: seq<string>, s: string)
    requires Pieces(ps, s)
    ensures ps == SplitCommas(s)
  {
    assert ps[0] in ps;
    if |ps| == 1 {
      PieceAlone(ps[0]);
    } else {
      assert forall p | p in ps[1..] :: p in ps;
      PiecesSplit(ps[1..], JoinCommas(ps[1..]));
      PieceFirst(ps[0], JoinCommas(ps[1..]));
    }
  }

  /** There is one way to cut a text at its commas. */
  lemma {:induction false} SplitExact(ps: seq<string>, s: string)
    ensures ps == SplitCommas(s) <==> Pieces(ps, s)
  {
    SplitPieces(s);
    if Pieces(ps, s) { PiecesSplit(ps, s); }
  }
}
