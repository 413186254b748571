/**
 When the decision cache is coherent: exactly when the invalidation glob of every pattern
 covers the names it selects; names in one letter case and without LIKE wildcards are such,
 and a name with an underscore or another letter case need not be.
 */
module CacheCoherence {
  import opened Wrappers
  import opened Text
  import opened Policies
  import opened PolicyDecisions
  import opened RuleSelection
  import opened PolicyCache
  import opened CacheRuns

  // ----- coherent exactly when covering -----

  /** Whatever the run, cached answers are the uncached ones. */
  ghost predicate Coherent(sc: Scope) {
    forall start: System, steps: seq<Step> | Starts(start, sc) && StepsIn(steps, sc) && StepsFixed(steps) ::
      AnswersAgree(Final(start, steps), sc)
  }

  function EmptyStore(): Store {
    Store(map[], map[], {}, false, 0)
  }

  const DENY_ALL: Items := [("x", ColumnPolicy("deny", []))]

  /** A rule is created, asked for, and changed: three steps that leave its old decision in the cache. */
  function StaleRun(t: nat, p: string, n: string, role: string): seq<Step> {
    [Create(t, p, [], [], []), Ask(t, n, AnyUser(role)), Update(t, 0, Some((DENY_ALL, [])), None)]
  }

  lemma {:induction false} ChooseOnly(r: Rule, n: string)
    requires SelectsText(r.resource, n)
    ensures Choose([r], n) == Some(r)
  {
    ChosenSelects([r], n);
    SelectsByResource(r, n);
    assert r in [r];
  }

  lemma {:induction false} Final3(start: System, a: Step, b: Step, c: Step)
    ensures Final(start, [a, b, c]) == Next(Next(Next(start, a), b), c)
  {
    assert [a, b, c][..2] == [a, b] && [a, b][..1] == [a] && [a][..0] == [];
    assert Final(start, [a]) == Next(start, a);
    assert Final(start, [a, b]) == Next(Next(start, a), b);
  }

  lemma {:induction false} AfterCreate(t: nat, p: string)
    ensures var rule := Rule(0, p, [], [], []);
            Next(System(EmptyStore(), map[], 0), Create(t, p, [], [], []))
            == System(Store(map[t := [rule]], map[], {}, false, 1), map[], 0)
  {
    assert RulesOf(EmptyStore(), t) == [];
    assert [] + [Rule(0, p, [], [], [])] == [Rule(0, p, [], [], [])];
  }

  lemma {:induction false} AfterAsk(t: nat, p: string, n: string, role: string, sys: System)
    requires SelectsText(p, n)
    requires sys == System(Store(map[t := [Rule(0, p, [], [], [])]], map[], {}, false, 1), map[], 0)
    ensures Next(sys, Ask(t, n, AnyUser(role)))
            == (var made := FromRule(Rule(0, p, [], [], []), AnyUser(role), []);
                sys.(entries := map[Key(t, n + NO_RF, role) := Cached(made, TTL)]))
  {
    ChooseOnly(Rule(0, p, [], [], []), n);
  }

  lemma {:induction false} AfterUpdate(t: nat, p: string, sys: System, key: string, old1: Cached)
    requires sys.store == Store(map[t := [Rule(0, p, [], [], [])]], map[], {}, false, 1)
    requires sys.entries == map[key := old1] && !Glob(InvalidationGlob(t, p), key)
    ensures var next := Next(sys, Update(t, 0, Some((DENY_ALL, [])), None));
            && next.store == Store(map[t := [Rule(0, p, DENY_ALL, [], [])]], map[], {}, false, 1)
            && next.entries == sys.entries && next.now == sys.now
  {
    var rules := RulesOf(sys.store, t);
    assert IndexOf(rules, 0) == 0;
    assert rules[0 := Rule(0, p, DENY_ALL, [], [])] == [Rule(0, p, DENY_ALL, [], [])];
  }

  lemma {:induction false} DeniedNow(p: string, role: string)
    ensures FromRule(Rule(0, p, DENY_ALL, [], []), AnyUser(role), []).denied == ["x"]
    ensures FromRule(Rule(0, p, [], [], []), AnyUser(role), []).denied == []
  {
    var rule, plain := Rule(0, p, DENY_ALL, [], []), Rule(0, p, [], [], []);
    assert Tagged([], []) == [] && DENY_ALL[..0] == [];
    assert Merged(rule, []) == Put(PutAll([], DENY_ALL[..0]), "x", ColumnPolicy("deny", [])) == DENY_ALL;
    assert WithAction(DENY_ALL[..0], role, "deny") == [];
    assert Merged(plain, []) == [];
  }

  /** A pattern that selects a name without covering its key lets a changed rule go unnoticed. */
  lemma {:induction false} UncoveredGoesStale(t: nat, p: string, n: string, role: string)
    requires SelectsText(p, n) && !RuleKeyCovered(t, p, n, role)
    ensures var sys := Final(System(EmptyStore(), map[], 0), StaleRun(t, p, n, role));
            CachedDecide(sys, t, n, AnyUser(role)).decision.denied == []
              && Decide(sys.store, t, n, AnyUser(role)).denied == ["x"]
  {
    var start, steps := System(EmptyStore(), map[], 0), StaleRun(t, p, n, role);
    Final3(start, steps[0], steps[1], steps[2]);
    AfterCreate(t, p);
    var one := Next(start, steps[0]);
    AfterAsk(t, p, n, role, one);
    var two := Next(one, steps[1]);
    var key := Key(t, n + NO_RF, role);
    AfterUpdate(t, p, two, key, two.entries[key]);
    ChooseOnly(Rule(0, p, DENY_ALL, [], []), n);
    DeniedNow(p, role);
  }

  lemma {:induction false} CoveringIsCoherent(sc: Scope)
    requires ScopeOk(sc) && Covering(sc)
    ensures Coherent(sc)
  {
    forall start: System, steps: seq<Step> | Starts(start, sc) && StepsIn(steps, sc) && StepsFixed(steps)
      ensures AnswersAgree(Final(start, steps), sc)
    {
      RunFits(start, sc, steps);
      FittingAnswers(Final(start, steps), sc);
    }
  }

  lemma {:induction false} UncoveredIsIncoherent(sc: Scope, t: nat, p: string, n: string, r: string)
    requires p in sc.patterns && n in sc.names && r in sc.roles && SelectsText(p, n) && !RuleKeyCovered(t, p, n, r)
    ensures !Coherent(sc)
  {
    var start, steps := System(EmptyStore(), map[], 0), StaleRun(t, p, n, r);
    UncoveredGoesStale(t, p, n, r);
    assert Starts(start, sc) && StepsIn(steps, sc) && StepsFixed(steps);
    var sys := Final(start, steps);
    assert CachedDecide(sys, t, n, AnyUser(r)).decision != Decide(sys.store, t, n, AnyUser(r));
    assert !AnswersAgree(sys, sc);
  }

  /** The cache never shows in an answer exactly when every pattern's glob covers the names the pattern selects. */
  lemma {:induction false} CoherentExactly(sc: Scope)
    requires ScopeOk(sc)
    ensures Coherent(sc) <==> Covering(sc)
  {
    if Covering(sc) {
      CoveringIsCoherent(sc);
    } else {
      var t, p, n, r :| p in sc.patterns && n in sc.names && r in sc.roles && SelectsText(p, n)
        && !RuleKeyCovered(t, p, n, r);
      UncoveredIsIncoherent(sc, t, p, n, r);
    }
  }

  // ----- plain names are covered -----

  /** In lower case and without the wildcards of LIKE. */
  predicate Plain(s: string) {
    Lower(s) == s && '%' !in s && '_' !in s && '\\' !in s
  }

  ghost predicate PlainScope(sc: Scope) {
    (forall p | p in sc.patterns :: Lower(p) == p) && forall n | n in sc.names :: Plain(n)
  }

  lemma {:induction false} LowerTail(s: string)
    requires Lower(s) == s && s != ""
    ensures LowerChar(s[0]) == s[0] && Lower(s[1..]) == s[1..]
  {
    assert Lower(s)[0] == s[0];
    assert Lower(s[1..]) == Lower(s)[1..];
  }

  lemma {:induction false} WildcardIsGlob(p: string, s: string)
    requires Wildcard(p, s) && Lower(p) == p && Lower(s) == s
    ensures Glob(p, s)
    decreases |p| + |s|
  {
    if p != "" {
      LowerTail(p);
      if s != "" { LowerTail(s); }
      if p[0] == '*' {
        if Wildcard(p[1..], s) { WildcardIsGlob(p[1..], s); } else { WildcardIsGlob(p, s[1..]); }
      } else {
        WildcardIsGlob(p[1..], s[1..]);
      }
    }
  }

  lemma {:induction false} GlobSelf(p: string)
    ensures Glob(p, p)
  {
    if p != "" {
      GlobSelf(p[1..]);
      if p[0] == '*' { StarTakesOne(p[1..], p[0], p[1..]); }
    }
  }

  lemma {:induction false} StarTakesOne(p: string, c: char, s: string)
    requires Glob(p, s)
    ensures Glob("*" + p, [c] + s)
  {
    assert ("*" + p)[1..] == p && ([c] + s)[1..] == s;
    assert Glob("*" + p, s);
  }

  lemma {:induction false} LikePlain(s: string, p: string)
    requires Like(s, p) && Plain(p) && Lower(s) == s
    ensures s == p
  {
    if p != "" {
      assert p[0] in p && forall c | c in p[1..] :: c in p;
      LowerTail(p);
      LowerTail(s);
      LikePlain(s[1..], p[1..]);
      assert s == [s[0]] + s[1..] && p == [p[0]] + p[1..];
    }
  }

  /** The pattern a plain name is selected by matches the name as a glob. */
  lemma {:induction false} PlainSelectionIsGlob(p: string, n: string)
    requires SelectsText(p, n) && Lower(p) == p && Plain(n)
    ensures Glob(if p == "" then "*" else p, n)
  {
    if p == "" || p == "*" {
      GlobRest(n);
    } else if p == n {
      GlobSelf(n);
    } else if Wildcard(p, n) {
      WildcardIsGlob(p, n);
    } else {
      LikePlain(p, n);
    }
  }

  predicate AutoKeyCovered(tenant: nat, pattern: string, name: string, role: string) {
    Glob(InvalidationGlob(tenant, pattern), Key(tenant, name, role))
  }

  /** Changing a rule invalidates the scan decisions of every name its pattern selects. */
  ghost predicate AutoCovering(sc: Scope) {
    forall t, p, n, r | p in sc.patterns && n in sc.names && r in sc.roles && SelectsText(p, n) ::
      AutoKeyCovered(t, p, n, r)
  }

  lemma {:induction false} PlainIsCovering(sc: Scope)
    requires PlainScope(sc)
    ensures Covering(sc) && AutoCovering(sc)
  {
    forall t, p, n, r | p in sc.patterns && n in sc.names && r in sc.roles && SelectsText(p, n)
      ensures RuleKeyCovered(t, p, n, r) && AutoKeyCovered(t, p, n, r)
    {
      PlainSelectionIsGlob(p, n);
      GlobCoversKeys(t, p, n, NO_RF, r);
      GlobCoversKeys(t, p, n, "", r);
      assert n + "" == n;
    }
  }

  // ----- names that are not covered -----

  lemma {:induction false} LiteralGlob(lit: string, p: string, s: string)
    requires '*' !in lit && '?' !in lit && Glob(lit + p, s)
    ensures |lit| <= |s| && s[..|lit|] == lit
  {
    if lit != "" {
      assert lit[0] in lit && forall c | c in lit[1..] :: c in lit;
      assert (lit + p)[1..] == lit[1..] + p;
      LiteralGlob(lit[1..], p, s[1..]);
    }
  }

  /** A pattern without wildcards covers no other name of its length. */
  lemma {:induction false} LiteralUncovered(t: nat, p: string, n: string, role: string)
    requires p != "" && '*' !in p && '?' !in p && |p| == |n| && p != n
    ensures !RuleKeyCovered(t, p, n, role)
  {
    var lit, key := TenantPrefix(t) + p, Key(t, n + NO_RF, role);
    PrefixIsPlain(t);
    assert InvalidationGlob(t, p) == lit + ":*";
    assert key[|TenantPrefix(t)|..|lit|] == n && lit[|TenantPrefix(t)|..] == p;
    if RuleKeyCovered(t, p, n, role) { LiteralGlob(lit, ":*", key); }
  }

  /** An underscore in a name stands for any character when a rule is looked up, but not when it is invalidated. */
  lemma {:induction false} UnderscoreGoesStale(t: nat, role: string)
    ensures var sys := Final(System(EmptyStore(), map[], 0), StaleRun(t, "a-b", "a_b", role));
            CachedDecide(sys, t, "a_b", AnyUser(role)).decision.denied == []
              && Decide(sys.store, t, "a_b", AnyUser(role)).denied == ["x"]
  {
    assert "a-b"[1..] == "-b" && "a_b"[1..] == "_b" && "-b"[1..] == "b" && "_b"[1..] == "b" && "b"[1..] == "";
    assert Like("b", "b") && Like("-b", "_b") && Like("a-b", "a_b");
    LiteralUncovered(t, "a-b", "a_b", role);
    UncoveredGoesStale(t, "a-b", "a_b", role);
  }

  /** So does a name in another letter case. */
  lemma {:induction false} OtherCaseGoesStale(t: nat, role: string)
    ensures var sys := Final(System(EmptyStore(), map[], 0), StaleRun(t, "Ab", "ab", role));
            CachedDecide(sys, t, "ab", AnyUser(role)).decision.denied == []
              && Decide(sys.store, t, "ab", AnyUser(role)).denied == ["x"]
  {
    assert "Ab"[1..] == "b" && "ab"[1..] == "b" && "b"[1..] == "";
    assert Like("b", "b") && Like("Ab", "ab");
    LiteralUncovered(t, "Ab", "ab", role);
    UncoveredGoesStale(t, "Ab", "ab", role);
  }
}
