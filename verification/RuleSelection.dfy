/**
 Which rule decides about a resource: the rules sorted by the length of their pattern and
 scanned for an exact or wildcard match, then a case-insensitive LIKE as the last resort.
 */
module RuleSelection {
  import opened Wrappers
  import opened Text
  import opened PolicyDecisions

  // ----- matching -----

  /** The whole of `s` matches the pattern, `*` standing for any text without a line break, letters in any case. */
  predicate Wildcard(p: string, s: string)
    decreases |p| + |s|
  {
    if p == "" then s == ""
    else if p[0] == '*' then Wildcard(p[1..], s) || (s != "" && s[0] != '\n' && Wildcard(p, s[1..]))
    else s != "" && LowerChar(p[0]) == LowerChar(s[0]) && Wildcard(p[1..], s[1..])
  }

  /** ILIKE: `%` stands for any text, `_` for one character, a backslash quotes what follows. */
  predicate Like(s: string, p: string)
    decreases |p| + |s|
  {
    if p == "" then s == ""
    else if p[0] == '%' then Like(s, p[1..]) || (s != "" && Like(s[1..], p))
    else if p[0] == '_' then s != "" && Like(s[1..], p[1..])
    else if p[0] == '\\' then |p| > 1 && s != "" && LowerChar(p[1]) == LowerChar(s[0]) && Like(s[1..], p[2..])
    else s != "" && LowerChar(p[0]) == LowerChar(s[0]) && Like(s[1..], p[1..])
  }

  predicate Hit(r: Rule, n: string) {
    r.resource == n || ('*' in r.resource && Wildcard(r.resource, n))
  }

  /** The rule can be chosen for `n` in some store. */
  predicate Selects(r: Rule, n: string) {
    Hit(r, n) || r.resource == "*" || Like(r.resource, n)
  }

  // ----- the scan -----

  /** Before the first shorter pattern: a stable insertion. */
  function Insert(r: Rule, s: seq<Rule>): seq<Rule> {
    if s == [] then [r]
    else if |s[0].resource| < |r.resource| then [r] + s
    else [s[0]] + Insert(r, s[1..])
  }

  function SortByLength(rules: seq<Rule>): seq<Rule> {
    if rules == [] then [] else Insert(rules[|rules| - 1], SortByLength(rules[..|rules| - 1]))
  }

  function FirstHit(s: seq<Rule>, n: string): Option<Rule> {
    if s == [] then None else if Hit(s[0], n) then Some(s[0]) else FirstHit(s[1..], n)
  }

  function FirstGlobal(s: seq<Rule>): Option<Rule> {
    if s == [] then None else if s[0].resource == "*" then Some(s[0]) else FirstGlobal(s[1..])
  }

  function FirstLike(s: seq<Rule>, n: string): Option<Rule> {
    if s == [] then None else if Like(s[0].resource, n) then Some(s[0]) else FirstLike(s[1..], n)
  }

  function OrElse(a: Option<Rule>, b: Option<Rule>): Option<Rule> {
    if a.Some? then a else b
  }

  method SelectRule(rules: seq<Rule>, n: string) returns (rule: Option<Rule>)
    ensures rule == Choose(rules, n)
  {
    var sorted := SortByLength(rules);
    rule := None;
    var i := 0;
    var found := false;
    while i < |sorted|
      invariant 0 <= i <= |sorted|
      invariant found ==> rule.Some? && FirstHit(sorted, n) == rule
      invariant !found ==> FirstHit(sorted, n) == FirstHit(sorted[i..], n)
      invariant !found ==> FirstGlobal(sorted) == OrElse(rule, FirstGlobal(sorted[i..]))
    {
      var r := sorted[i];
      assert sorted[i..][1..] == sorted[i + 1..];
      if r.resource == n {
        rule, found := Some(r), true;
        break;
      }
      if '*' in r.resource {
        if Wildcard(r.resource, n) {
          rule, found := Some(r), true;
          break;
        }
      }
      if r.resource == "*" {
        if rule.None? { rule := Some(r); }
      }
      i := i + 1;
    }
    SortedChoice(rules, n);
    if rule.None? { rule := FirstLike(rules, n); }
  }

  // ----- the choice, without sorting -----

  /** The earliest of the longest matching rules. */
  function Longest(rules: seq<Rule>, n: string): Option<Rule> {
    if rules == [] then None
    else
      var best, r := Longest(rules[..|rules| - 1], n), rules[|rules| - 1];
      if Hit(r, n) && (best.None? || |best.value.resource| < |r.resource|) then Some(r) else best
  }

  function Choose(rules: seq<Rule>, n: string): Option<Rule> {
    OrElse(Longest(rules, n), OrElse(FirstGlobal(rules), FirstLike(rules, n)))
  }

  predicate Sorted(s: seq<Rule>) {
    forall i, j | 0 <= i < j < |s| :: |s[i].resource| >= |s[j].resource|
  }

  lemma {:induction false} InsertMembers(r: Rule, s: seq<Rule>, q: Rule)
    ensures q in Insert(r, s) <==> q == r || q in s
  {
    if s != [] {
      InsertMembers(r, s[1..], q);
      assert s == [s[0]] + s[1..];
    }
  }

  lemma {:induction false} InsertSorted(r: Rule, s: seq<Rule>)
    requires Sorted(s)
    ensures Sorted(Insert(r, s))
  {
    if s != [] && |s[0].resource| >= |r.resource| {
      InsertSorted(r, s[1..]);
      var t := Insert(r, s[1..]);
      forall j | 0 <= j < |t| ensures |s[0].resource| >= |t[j].resource| {
        InsertMembers(r, s[1..], t[j]);
        assert t[j] in t;
      }
    }
  }

  /** The sort keeps the rules and puts longer patterns first. */
  lemma {:induction false} SortOrders(rules: seq<Rule>)
    ensures Sorted(SortByLength(rules)) && multiset(SortByLength(rules)) == multiset(rules)
  {
    if rules != [] {
      var k := |rules| - 1;
      SortOrders(rules[..k]);
      InsertSorted(rules[k], SortByLength(rules[..k]));
      InsertMultiset(rules[k], SortByLength(rules[..k]));
      assert rules == rules[..k] + [rules[k]];
    }
  }

  lemma {:induction false} InsertMultiset(r: Rule, s: seq<Rule>)
    ensures multiset(Insert(r, s)) == multiset(s) + multiset{r}
  {
    if s != [] {
      InsertMultiset(r, s[1..]);
      assert s == [s[0]] + s[1..];
    }
  }

  lemma {:induction false} InsertFirstHit(r: Rule, s: seq<Rule>, n: string)
    requires Sorted(s)
    ensures FirstHit(Insert(r, s), n)
            == if Hit(r, n) && (FirstHit(s, n).None? || |FirstHit(s, n).value.resource| < |r.resource|) then Some(r)
              else FirstHit(s, n)
  {
    if s != [] {
      if |s[0].resource| < |r.resource| {
        assert ([r] + s)[1..] == s;
        FirstHitBounded(s, n, |s[0].resource|);
      } else {
        assert Insert(r, s)[1..] == Insert(r, s[1..]);
        InsertFirstHit(r, s[1..], n);
      }
    }
  }

  lemma {:induction false} FirstHitBounded(s: seq<Rule>, n: string, bound: nat)
    requires forall i | 0 <= i < |s| :: |s[i].resource| <= bound
    ensures FirstHit(s, n).Some? ==> |FirstHit(s, n).value.resource| <= bound
  {
    if s != [] { FirstHitBounded(s[1..], n, bound); }
  }

  lemma {:induction false} InsertFirstGlobal(r: Rule, s: seq<Rule>)
    requires Sorted(s)
    ensures FirstGlobal(Insert(r, s)) == OrElse(FirstGlobal(s), if r.resource == "*" then Some(r) else None)
  {
    if s != [] {
      if |s[0].resource| < |r.resource| {
        assert ([r] + s)[1..] == s;
        if r.resource == "*" { NoGlobal(s); }
      } else {
        assert Insert(r, s)[1..] == Insert(r, s[1..]);
        InsertFirstGlobal(r, s[1..]);
      }
    }
  }

  lemma {:induction false} NoGlobal(s: seq<Rule>)
    requires forall i | 0 <= i < |s| :: |s[i].resource| < 1
    ensures FirstGlobal(s).None?
  {
    if s != [] { NoGlobal(s[1..]); }
  }

  lemma {:induction false} FirstGlobalLast(rules: seq<Rule>)
    requires rules != []
    ensures FirstGlobal(rules)
            == (var last := rules[|rules| - 1];
                OrElse(FirstGlobal(rules[..|rules| - 1]), if last.resource == "*" then Some(last) else None))
  {
    if |rules| > 1 {
      FirstGlobalLast(rules[1..]);
      assert rules[1..][..|rules| - 2] == rules[..|rules| - 1][1..];
    }
  }

  /** Scanning the sorted rules finds the earliest of the longest matching rules. */
  lemma {:induction false} SortedChoice(rules: seq<Rule>, n: string)
    ensures FirstHit(SortByLength(rules), n) == Longest(rules, n)
    ensures FirstGlobal(SortByLength(rules)) == FirstGlobal(rules)
  {
    if rules != [] {
      var k := |rules| - 1;
      SortedChoice(rules[..k], n);
      SortOrders(rules[..k]);
      InsertFirstHit(rules[k], SortByLength(rules[..k]), n);
      InsertFirstGlobal(rules[k], SortByLength(rules[..k]));
      FirstGlobalLast(rules);
    }
  }

  // ----- what is chosen -----

  lemma {:induction false} LongestExact(rules: seq<Rule>, n: string)
    ensures Longest(rules, n).None? <==> forall r | r in rules :: !Hit(r, n)
    ensures Longest(rules, n).Some? ==>
              var best := Longest(rules, n).value;
              best in rules && Hit(best, n) && forall r | r in rules && Hit(r, n) :: |r.resource| <= |best.resource|
  {
    if rules != [] {
      var k := |rules| - 1;
      LongestExact(rules[..k], n);
      assert rules == rules[..k] + [rules[k]];
    }
  }

  lemma {:induction false} GlobalHits(s: string)
    requires '\n' !in s
    ensures Wildcard("*", s)
  {
    if s == "" {
      assert Wildcard("*"[1..], "");
    } else {
      assert s[0] in s && forall c | c in s[1..] :: c in s;
      GlobalHits(s[1..]);
    }
  }

  lemma {:induction false} FirstGlobalExact(rules: seq<Rule>)
    ensures FirstGlobal(rules).Some? ==> FirstGlobal(rules).value in rules && FirstGlobal(rules).value.resource == "*"
    ensures FirstGlobal(rules).None? <==> forall r | r in rules :: r.resource != "*"
  {
    if rules != [] {
      FirstGlobalExact(rules[1..]);
      assert rules == [rules[0]] + rules[1..];
    }
  }

  lemma {:induction false} FirstLikeExact(rules: seq<Rule>, n: string)
    ensures FirstLike(rules, n).Some?
            ==> FirstLike(rules, n).value in rules && Like(FirstLike(rules, n).value.resource, n)
    ensures FirstLike(rules, n).None? <==> forall r | r in rules :: !Like(r.resource, n)
  {
    if rules != [] {
      FirstLikeExact(rules[1..], n);
      assert rules == [rules[0]] + rules[1..];
    }
  }

  /** With any matching rule, a longest one is chosen, whether it matches exactly or by wildcard. */
  lemma {:induction false} ChosenIsLongest(rules: seq<Rule>, n: string, r: Rule)
    requires r in rules && Hit(r, n)
    ensures Choose(rules, n).Some?
    ensures var best := Choose(rules, n).value; best in rules && Hit(best, n) && |r.resource| <= |best.resource|
  {
    LongestExact(rules, n);
  }

  /** Of the rules spelling the name, the first one `e` competes with every matching pattern. */
  lemma {:induction false} LongestSpelled(a: seq<Rule>, e: Rule, b: seq<Rule>, n: string)
    requires e.resource == n && forall r | r in a :: r.resource != n
    ensures var best := Longest(a + [e] + b, n);
            best.Some? && (best == Some(e) || best.value.resource != n)
            && (best == Some(e) <==> (forall r | r in a && Hit(r, n) :: |r.resource| < |n|)
                                     && forall r | r in b && Hit(r, n) :: |r.resource| <= |n|)
  {
    var rules := a + [e] + b;
    LongestExact(rules, n);
    if b == [] {
      assert rules[..|rules| - 1] == a;
      LongestExact(a, n);
    } else {
      var k := |b| - 1;
      assert rules[..|rules| - 1] == a + [e] + b[..k] && b == b[..k] + [b[k]];
      LongestSpelled(a, e, b[..k], n);
      LongestExact(a + [e] + b[..k], n);
    }
  }

  /**
   An exact match comes before a wildcard exactly when no matching pattern is longer than the name
   and none as long stands before it; otherwise the chosen rule does not spell the name.
   */
  lemma {:induction false} ExactWinsExactly(a: seq<Rule>, e: Rule, b: seq<Rule>, n: string)
    requires e.resource == n && forall r | r in a :: r.resource != n
    ensures var best := Choose(a + [e] + b, n);
            best.Some? && (best == Some(e) || best.value.resource != n)
            && (best == Some(e) <==> (forall r | r in a && Hit(r, n) :: |r.resource| < |n|)
                                     && forall r | r in b && Hit(r, n) :: |r.resource| <= |n|)
  {
    LongestSpelled(a, e, b, n);
  }

  lemma {:induction false} PrefixWildcard(p: string, s: string)
    requires '*' !in p && '\n' !in s
    ensures Wildcard(p + "*", p + s)
  {
    if p == "" {
      assert p + "*" == "*" && p + s == s;
      GlobalHits(s);
    } else {
      PrefixWildcard(p[1..], s);
      assert (p + "*")[1..] == p[1..] + "*" && (p + s)[1..] == p[1..] + s;
    }
  }

  /** The pattern `order*` beats the exact `orders` when it comes first, though it is no longer; so for every name. */
  lemma {:induction false} EarlierWildcardWins(p: string, c: char, wild: Rule, exact: Rule)
    requires '*' !in p && c != '*' && c != '\n' && wild.resource == p + "*" && exact.resource == p + [c]
    ensures Choose([wild, exact], p + [c]) == Some(wild) && Choose([exact, wild], p + [c]) == Some(exact)
  {
    var n := p + [c];
    PrefixWildcard(p, [c]);
    assert wild.resource[|p|] == '*' && n[|p|] == c;
    assert Hit(wild, n) && |wild.resource| == |n|;
    ExactWinsExactly([wild], exact, [], n);
    ExactWinsExactly([], exact, [wild], n);
    assert [wild] + [exact] + [] == [wild, exact] && [] + [exact] + [wild] == [exact, wild];
    LongestExact([wild, exact], n);
    assert wild in [wild] && Choose([wild, exact], n) != Some(exact);
  }

  /** A wildcard longer than the name beats the exact match wherever it stands. */
  lemma {:induction false} LongerWildcardWins(rules: seq<Rule>, n: string, wild: Rule)
    requires wild in rules && Hit(wild, n) && |wild.resource| > |n|
    ensures Choose(rules, n).Some? && Choose(rules, n).value.resource != n
  {
    ChosenIsLongest(rules, n, wild);
  }

  /** For a name without line breaks the scan finds nothing exactly when no rule matches. */
  lemma {:induction false} ScanFindsNothing(rules: seq<Rule>, n: string)
    requires '\n' !in n
    ensures OrElse(FirstHit(SortByLength(rules), n), FirstGlobal(SortByLength(rules))).None?
            <==> forall r | r in rules :: !Hit(r, n)
  {
    SortedChoice(rules, n);
    LongestExact(rules, n);
    FirstGlobalExact(rules);
    GlobalHits(n);
    assert forall r: Rule | r.resource == "*" :: r.resource[0] == '*' && Hit(r, n);
  }

  /** A chosen rule is one that selects the name, and only with no such rule is nothing chosen. */
  lemma {:induction false} ChosenSelects(rules: seq<Rule>, n: string)
    ensures Choose(rules, n).Some? ==> Choose(rules, n).value in rules && Selects(Choose(rules, n).value, n)
    ensures Choose(rules, n).None? <==> forall r | r in rules :: !Selects(r, n)
  {
    LongestExact(rules, n);
    FirstGlobalExact(rules);
    FirstLikeExact(rules, n);
  }

  /** Matches, and is longer than every match before it and as long as every match after it. */
  predicate LeadsAt(rules: seq<Rule>, n: string, i: nat) {
    && i < |rules| && Hit(rules[i], n)
    && (forall j | 0 <= j < i && Hit(rules[j], n) :: |rules[j].resource| < |rules[i].resource|)
    && forall j | i < j < |rules| && Hit(rules[j], n) :: |rules[j].resource| <= |rules[i].resource|
  }

  /** The first rule for everything. */
  predicate GlobalAt(rules: seq<Rule>, i: nat) {
    i < |rules| && rules[i].resource == "*" && forall j | 0 <= j < i :: rules[j].resource != "*"
  }

  /** The first rule whose resource is like the name. */
  predicate LikeAt(rules: seq<Rule>, n: string, i: nat) {
    i < |rules| && Like(rules[i].resource, n) && forall j | 0 <= j < i :: !Like(rules[j].resource, n)
  }

  lemma {:induction false} LongestAt(rules: seq<Rule>, n: string)
    ensures Longest(rules, n).Some? ==> exists i: nat :: LeadsAt(rules, n, i) && Longest(rules, n) == Some(rules[i])
  {
    if rules != [] {
      var k := |rules| - 1;
      LongestAt(rules[..k], n);
      LongestExact(rules[..k], n);
      if Longest(rules, n) == Longest(rules[..k], n) && Longest(rules[..k], n).Some? {
        var i: nat :| LeadsAt(rules[..k], n, i) && Longest(rules[..k], n) == Some(rules[..k][i]);
        assert forall j | 0 <= j < k :: rules[..k][j] == rules[j];
        assert Hit(rules[k], n) ==> |rules[k].resource| <= |rules[i].resource|;
        assert LeadsAt(rules, n, i);
      } else if Longest(rules, n).Some? {
        assert forall j | 0 <= j < k :: rules[j] in rules[..k];
        assert LeadsAt(rules, n, k);
      }
    }
  }

  lemma {:induction false} FirstGlobalAt(rules: seq<Rule>)
    ensures FirstGlobal(rules).Some? ==> exists i: nat :: GlobalAt(rules, i) && FirstGlobal(rules) == Some(rules[i])
  {
    if rules != [] {
      if rules[0].resource == "*" {
        assert GlobalAt(rules, 0);
      } else if FirstGlobal(rules).Some? {
        FirstGlobalAt(rules[1..]);
        var i: nat :| GlobalAt(rules[1..], i) && FirstGlobal(rules) == Some(rules[1..][i]);
        assert forall j | 0 < j <= i + 1 :: rules[j] == rules[1..][j - 1];
        assert GlobalAt(rules, i + 1);
      }
    }
  }

  lemma {:induction false} FirstLikeAt(rules: seq<Rule>, n: string)
    ensures FirstLike(rules, n).Some? ==> exists i: nat :: LikeAt(rules, n, i) && FirstLike(rules, n) == Some(rules[i])
  {
    if rules != [] {
      if Like(rules[0].resource, n) {
        assert LikeAt(rules, n, 0);
      } else if FirstLike(rules, n).Some? {
        FirstLikeAt(rules[1..], n);
        var i: nat :| LikeAt(rules[1..], n, i) && FirstLike(rules, n) == Some(rules[1..][i]);
        assert forall j | 0 < j <= i + 1 :: rules[j] == rules[1..][j - 1];
        assert LikeAt(rules, n, i + 1);
      }
    }
  }

  /** No rule comes earlier in the choice than the one at `i`. */
  predicate ChosenAt(rules: seq<Rule>, n: string, i: nat) {
    || LeadsAt(rules, n, i)
    || ((forall r | r in rules :: !Hit(r, n)) && GlobalAt(rules, i))
    || ((forall r | r in rules :: !Hit(r, n) && r.resource != "*") && LikeAt(rules, n, i))
  }

  lemma {:induction false} ChosenOnce(rules: seq<Rule>, n: string, i: nat, j: nat)
    requires ChosenAt(rules, n, i) && ChosenAt(rules, n, j)
    ensures i == j
  {
    assert rules[i] in rules && rules[j] in rules;
  }

  lemma {:induction false} SomeChosenAt(rules: seq<Rule>, n: string)
    ensures Choose(rules, n).Some? ==> exists i: nat :: ChosenAt(rules, n, i) && Choose(rules, n) == Some(rules[i])
  {
    LongestExact(rules, n);
    FirstGlobalExact(rules);
    LongestAt(rules, n);
    FirstGlobalAt(rules);
    FirstLikeAt(rules, n);
    if Longest(rules, n).Some? {
      var i: nat :| LeadsAt(rules, n, i) && Longest(rules, n) == Some(rules[i]);
      assert ChosenAt(rules, n, i);
    } else if FirstGlobal(rules).Some? {
      var i: nat :| GlobalAt(rules, i) && FirstGlobal(rules) == Some(rules[i]);
      assert ChosenAt(rules, n, i);
    } else if FirstLike(rules, n).Some? {
      var i: nat :| LikeAt(rules, n, i) && FirstLike(rules, n) == Some(rules[i]);
      assert ChosenAt(rules, n, i);
    }
  }

  /**
   The chosen rule is the first of the longest that match, or with no match the first for everything, or
   with neither the first that is like the name.
   */
  lemma {:induction false} ChoiceExact(rules: seq<Rule>, n: string, i: nat)
    requires i < |rules|
    ensures ChosenAt(rules, n, i) ==> Choose(rules, n) == Some(rules[i])
    ensures Choose(rules, n).None? <==> forall j: nat :: !ChosenAt(rules, n, j)
  {
    SomeChosenAt(rules, n);
    ChosenSelects(rules, n);
    if j: nat :| ChosenAt(rules, n, j) {
      assert rules[j] in rules && Selects(rules[j], n);
      var k: nat :| ChosenAt(rules, n, k) && Choose(rules, n) == Some(rules[k]);
      ChosenOnce(rules, n, j, k);
      if ChosenAt(rules, n, i) { ChosenOnce(rules, n, i, k); }
    }
  }

  // ----- a rule that does not select a name has no say in it -----

  lemma {:induction false} LongestWithout(a: seq<Rule>, r: Rule, b: seq<Rule>, n: string)
    requires !Hit(r, n)
    ensures Longest(a + [r] + b, n) == Longest(a + b, n)
  {
    var with, without := a + [r] + b, a + b;
    if b == [] {
      assert with[..|with| - 1] == a && without == a;
    } else {
      var k := |b| - 1;
      LongestWithout(a, r, b[..k], n);
      assert with[..|with| - 1] == a + [r] + b[..k] && without[..|without| - 1] == a + b[..k];
    }
  }

  lemma {:induction false} FirstWithout(a: seq<Rule>, r: Rule, b: seq<Rule>, n: string)
    requires r.resource != "*" && !Like(r.resource, n)
    ensures FirstGlobal(a + [r] + b) == FirstGlobal(a + b) && FirstLike(a + [r] + b, n) == FirstLike(a + b, n)
  {
    var with, without := a + [r] + b, a + b;
    if a == [] {
      assert with[1..] == b && without == b;
    } else {
      FirstWithout(a[1..], r, b, n);
      assert with[1..] == a[1..] + [r] + b && without[1..] == a[1..] + b;
    }
  }

  /** Adding, changing or dropping a rule leaves the choice for every name it does not select. */
  lemma {:induction false} ChooseWithout(a: seq<Rule>, r: Rule, b: seq<Rule>, n: string)
    requires !Selects(r, n)
    ensures Choose(a + [r] + b, n) == Choose(a + b, n)
  {
    LongestWithout(a, r, b, n);
    FirstWithout(a, r, b, n);
  }
}
