/**
 Comment stripping: a pass over line comments, then a pass over block comments.  Although
 the passes run one after the other, nothing is left for either of them to strip.
 */
module Comments {

  predicate EndsLine(c: char) {
    c == '\r' || c == '\n'
  }

  /** What follows the rest of a line. */
  function AfterLine(s: string): (r: string)
    ensures |r| <= |s|
  {
    if s == "" || EndsLine(s[0]) then s else AfterLine(s[1..])
  }

  predicate StartsLineComment(s: string) {
    |s| >= 2 && s[0] == '-' && s[1] == '-'
  }

  function StripLines(s: string): string
    decreases |s|
  {
    if s == "" then ""
    else if StartsLineComment(s) then " " + StripLines(AfterLine(s[2..]))
    else [s[0]] + StripLines(s[1..])
  }

  predicate Closes(s: string, j: int) {
    0 <= j < |s| - 1 && s[j] == '*' && s[j + 1] == '/'
  }

  predicate Opens(s: string, i: int) {
    0 <= i < |s| - 1 && s[i] == '/' && s[i + 1] == '*'
  }

  /** The first place a comment closes; past the end if there is none. */
  function FirstClose(s: string): (j: nat)
    ensures j <= |s|
    ensures j < |s| ==> Closes(s, j)
  {
    if s == "" then 0 else if Closes(s, 0) then 0 else 1 + FirstClose(s[1..])
  }

  function StripBlocks(s: string): string
    decreases |s|
  {
    if s == "" then ""
    else if Opens(s, 0) && FirstClose(s[2..]) < |s| - 2 then " " + StripBlocks(s[FirstClose(s[2..]) + 4..])
    else [s[0]] + StripBlocks(s[1..])
  }

  function StripComments(s: string): string {
    StripBlocks(StripLines(s))
  }

  // ----- what a comment is -----

  predicate HasLineComment(s: string) {
    exists i :: 0 <= i < |s| - 1 && StartsLineComment(s[i..])
  }

  predicate HasBlockComment(s: string) {
    exists i, j :: 0 <= i < |s| && 0 <= j < |s| && i + 2 <= j && Opens(s, i) && Closes(s, j)
  }

  /** The text holds `t` at place `i`. */
  predicate ReadsAt(s: string, i: int, t: string) {
    0 <= i && i + |t| <= |s| && s[i..i + |t|] == t
  }

  /** A line comment begins with two dashes; a block comment goes from a slash and star to a later star and slash. */
  lemma {:induction false} CommentsSpelled(s: string)
    ensures HasLineComment(s) <==> exists i :: ReadsAt(s, i, "--")
    ensures HasBlockComment(s) <==> exists i, j :: ReadsAt(s, i, "/*") && ReadsAt(s, j, "*/") && i + 2 <= j
  {
    forall i
      ensures ReadsAt(s, i, "--") <==> 0 <= i < |s| - 1 && StartsLineComment(s[i..])
      ensures ReadsAt(s, i, "/*") <==> Opens(s, i)
      ensures ReadsAt(s, i, "*/") <==> Closes(s, i)
    {
      if 0 <= i <= |s| - 2 { assert s[i..i + 2] == [s[i], s[i + 1]]; }
    }
  }

  lemma {:induction false} LineCommentTail(s: string)
    requires s != ""
    ensures HasLineComment(s) <==> StartsLineComment(s) || HasLineComment(s[1..])
  {
    if HasLineComment(s) {
      var i :| 0 <= i < |s| - 1 && StartsLineComment(s[i..]);
      if i == 0 { assert s[0..] == s; } else { assert s[i..] == s[1..][i - 1..]; }
    }
    if StartsLineComment(s) { assert s[0..] == s; }
    if HasLineComment(s[1..]) {
      var i :| 0 <= i < |s[1..]| - 1 && StartsLineComment(s[1..][i..]);
      assert s[1..][i..] == s[i + 1..];
    }
  }

  lemma {:induction false} FirstCloseExact(s: string, j: int)
    requires Closes(s, j)
    ensures FirstClose(s) <= j
  {
    if !Closes(s, 0) { FirstCloseExact(s[1..], j - 1); }
  }

  lemma {:induction false} BlockCommentTail(s: string)
    requires s != ""
    ensures HasBlockComment(s) <==> (Opens(s, 0) && FirstClose(s[2..]) < |s| - 2) || HasBlockComment(s[1..])
  {
    if HasBlockComment(s) {
      var i, j :| 0 <= i < |s| && 0 <= j < |s| && i + 2 <= j && Opens(s, i) && Closes(s, j);
      if i == 0 {
        assert Closes(s[2..], j - 2);
        FirstCloseExact(s[2..], j - 2);
      } else {
        assert Opens(s[1..], i - 1) && Closes(s[1..], j - 1);
      }
    }
    if Opens(s, 0) && FirstClose(s[2..]) < |s| - 2 {
      var j := FirstClose(s[2..]);
      assert Closes(s[2..], j) && Closes(s, j + 2);
    }
    if HasBlockComment(s[1..]) {
      var i, j :| 0 <= i < |s[1..]| && 0 <= j < |s[1..]| && i + 2 <= j && Opens(s[1..], i) && Closes(s[1..], j);
      assert Opens(s, i + 1) && Closes(s, j + 1);
    }
  }

  // ----- the passes leave nothing -----

  lemma {:induction false} StripLinesClean(s: string)
    ensures !HasLineComment(StripLines(s))
    ensures StripLines(s) != "" ==> s != "" && (StripLines(s)[0] == s[0] || StripLines(s)[0] == ' ')
    decreases |s|
  {
    if s != "" {
      var rest := if StartsLineComment(s) then StripLines(AfterLine(s[2..])) else StripLines(s[1..]);
      if StartsLineComment(s) { StripLinesClean(AfterLine(s[2..])); } else { StripLinesClean(s[1..]); }
      assert StripLines(s)[1..] == rest;
      LineCommentTail(StripLines(s));
    }
  }

  lemma {:induction false} StripLinesKeeps(s: string)
    requires !HasLineComment(s)
    ensures StripLines(s) == s
  {
    if s != "" {
      LineCommentTail(s);
      StripLinesKeeps(s[1..]);
    }
  }

  lemma {:induction false} StripBlocksKeeps(s: string)
    requires !HasBlockComment(s)
    ensures StripBlocks(s) == s
  {
    if s != "" {
      BlockCommentTail(s);
      StripBlocksKeeps(s[1..]);
    }
  }

  /** An opening without a closing is left as it is, with all that follows it. */
  lemma {:induction false} UnclosedKept(s: string)
    requires Opens(s, 0) && FirstClose(s[2..]) >= |s| - 2
    ensures StripBlocks(s[1..]) == s[1..] && !HasBlockComment(s)
  {
    if HasBlockComment(s) {
      var i, j :| 0 <= i < |s| && 0 <= j < |s| && i + 2 <= j && Opens(s, i) && Closes(s, j);
      assert Closes(s[2..], j - 2);
      FirstCloseExact(s[2..], j - 2);
    }
    BlockCommentTail(s);
    StripBlocksKeeps(s[1..]);
  }

  lemma {:induction false} StripBlocksClean(s: string)
    ensures !HasBlockComment(StripBlocks(s))
    ensures StripBlocks(s) != "" ==> s != "" && (StripBlocks(s)[0] == s[0] || StripBlocks(s)[0] == ' ')
    decreases |s|
  {
    if s != "" {
      if Opens(s, 0) && FirstClose(s[2..]) < |s| - 2 {
        var rest := s[FirstClose(s[2..]) + 4..];
        StripBlocksClean(rest);
        assert StripBlocks(s)[1..] == StripBlocks(rest);
        BlockCommentTail(StripBlocks(s));
      } else if Opens(s, 0) {
        UnclosedKept(s);
        assert StripBlocks(s) == s;
      } else {
        StripBlocksClean(s[1..]);
        assert StripBlocks(s)[1..] == StripBlocks(s[1..]);
        BlockCommentTail(StripBlocks(s));
      }
    }
  }

  /** Taking out block comments brings no line comment about. */
  lemma {:induction false} BlocksKeepLines(s: string)
    requires !HasLineComment(s)
    ensures !HasLineComment(StripBlocks(s))
    decreases |s|
  {
    if s != "" {
      LineCommentTail(s);
      if Opens(s, 0) && FirstClose(s[2..]) < |s| - 2 {
        var k := FirstClose(s[2..]) + 4;
        NoLineAfter(s, k);
        BlocksKeepLines(s[k..]);
        assert StripBlocks(s)[1..] == StripBlocks(s[k..]);
      } else {
        BlocksKeepLines(s[1..]);
        StripBlocksClean(s[1..]);
        assert StripBlocks(s)[1..] == StripBlocks(s[1..]);
      }
      LineCommentTail(StripBlocks(s));
    }
  }

  lemma {:induction false} NoLineAfter(s: string, k: nat)
    requires !HasLineComment(s) && k <= |s|
    ensures !HasLineComment(s[k..])
  {
    forall i | 0 <= i < |s[k..]| - 1
      ensures !StartsLineComment(s[k..][i..])
    {
      assert s[k..][i..] == s[k + i..];
    }
  }

  /** What is left has no comment of either kind. */
  lemma {:induction false} NothingLeft(s: string)
    ensures !HasLineComment(StripComments(s)) && !HasBlockComment(StripComments(s))
  {
    StripLinesClean(s);
    BlocksKeepLines(StripLines(s));
    StripBlocksClean(StripLines(s));
  }

  /** Stripping changes a text exactly when there is a comment in it, so stripping again changes nothing. */
  lemma {:induction false} StripsExactly(s: string)
    ensures StripComments(s) == s <==> !HasLineComment(s) && !HasBlockComment(s)
    ensures StripComments(StripComments(s)) == StripComments(s)
  {
    NothingLeft(s);
    StripLinesKeeps(StripComments(s));
    StripBlocksKeeps(StripComments(s));
    if !HasLineComment(s) && !HasBlockComment(s) {
      StripLinesKeeps(s);
      StripBlocksKeeps(s);
    }
  }

  // ----- what survives -----

  lemma {:induction false} AfterLineExact(c: string, rest: string)
    requires '\r' !in c && '\n' !in c && (rest == "" || rest[0] == '\r' || rest[0] == '\n')
    ensures AfterLine(c + rest) == rest
  {
    if c == "" {
      assert c + rest == rest;
    } else {
      assert c[0] in c && forall x | x in c[1..] :: x in c;
      assert (c + rest)[1..] == c[1..] + rest;
      AfterLineExact(c[1..], rest);
    }
  }

  /** A line comment is replaced by a blank up to the end of its line; what stands before and after it survives. */
  lemma {:induction false} LineCommentReplaced(a: string, c: string, rest: string)
    requires !HasLineComment(a) && (a == "" || a[|a| - 1] != '-')
    requires '\r' !in c && '\n' !in c && (rest == "" || rest[0] == '\r' || rest[0] == '\n')
    ensures StripLines(a + "--" + c + rest) == a + " " + StripLines(rest)
  {
    var s := a + "--" + c + rest;
    if a == "" {
      assert s[2..] == c + rest;
      AfterLineExact(c, rest);
      assert StripLines(s) == " " + StripLines(rest);
    } else {
      LineCommentTail(a);
      assert s[1..] == a[1..] + "--" + c + rest;
      assert |a| > 1 ==> a[1..][|a| - 2] == a[|a| - 1];
      assert s[0] == a[0] && (|a| > 1 ==> s[1] == a[1]);
      LineCommentReplaced(a[1..], c, rest);
      assert StripLines(s) == [a[0]] + (a[1..] + " " + StripLines(rest));
    }
  }

  lemma {:induction false} FirstCloseAfter(c: string, rest: string)
    requires forall j :: !Closes(c, j)
    ensures FirstClose(c + "*/" + rest) == |c|
  {
    var s := c + "*/" + rest;
    if c == "" {
      assert Closes(s, 0);
    } else {
      assert !Closes(c, 0) && s[0] == c[0] && s[1] == if |c| == 1 then '*' else c[1];
      assert !Closes(s, 0);
      assert s[1..] == c[1..] + "*/" + rest;
      forall j ensures !Closes(c[1..], j) { assert !Closes(c, j + 1); }
      FirstCloseAfter(c[1..], rest);
    }
  }

  /** A block comment, from the first opening to the first closing after it, is replaced by a blank. */
  lemma {:induction false} BlockCommentReplaced(a: string, c: string, rest: string)
    requires (forall i :: !Opens(a, i)) && forall j :: !Closes(c, j)
    ensures StripBlocks(a + "/*" + c + "*/" + rest) == a + " " + StripBlocks(rest)
  {
    var s := a + "/*" + c + "*/" + rest;
    if a == "" {
      assert Opens(s, 0) && s[2..] == c + "*/" + rest;
      FirstCloseAfter(c, rest);
      assert s[|c| + 4..] == rest;
    } else {
      assert !Opens(a, 0) && s[0] == a[0] && (|a| > 1 ==> s[1] == a[1]) && (|a| == 1 ==> s[1] == '/');
      assert s[1..] == a[1..] + "/*" + c + "*/" + rest;
      forall i ensures !Opens(a[1..], i) { assert !Opens(a, i + 1); }
      BlockCommentReplaced(a[1..], c, rest);
      assert StripBlocks(s) == [a[0]] + (a[1..] + " " + StripBlocks(rest));
    }
  }
}
