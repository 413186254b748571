/**
 When no cache entry outlives what it says: exactly when the invalidation glob of every
 pattern covers both keys of the names it selects, that of the rule decision and that of the
 scan decision.  A stale scan decision is not served while a rule is chosen, but it stays
 in the store and comes back when the rule goes.
 */
module CurrentEntries {
  import opened Wrappers
  import opened Policies
  import opened PolicyDecisions
  import opened RuleSelection
  import opened PolicyCache
  import opened CacheRuns
  import opened CacheCoherence

  // ----- covered keys stay current -----

  /** An entry of a scan's decision is there only while no rule is chosen. */
  predicate AutoEntryUnruled(sys: System, t: nat, n: string, role: string) {
    Live(sys.entries, Key(t, n, role), sys.now).Some? ==> Choose(RulesOf(sys.store, t), n).None?
  }

  ghost predicate AutoUnruled(sys: System, sc: Scope) {
    forall t, n, role | n in sc.names && role in sc.roles :: AutoEntryUnruled(sys, t, n, role)
  }

  lemma {:induction false} ChangeUnruled(sys: System, sc: Scope, t: nat, pattern: string, next: System)
    requires AutoCovering(sc) && AutoUnruled(sys, sc) && pattern in sc.patterns
    requires next.now == sys.now && next.entries == Invalidate(sys.entries, InvalidationGlob(t, pattern))
    requires forall u | u != t :: RulesOf(next.store, u) == RulesOf(sys.store, u)
    requires forall n | !SelectsText(pattern, n) ::
             Choose(RulesOf(next.store, t), n) == Choose(RulesOf(sys.store, t), n)
    ensures AutoUnruled(next, sc)
  {
    forall u, n, role | n in sc.names && role in sc.roles
      ensures AutoEntryUnruled(next, u, n, role)
    {
      assert AutoEntryUnruled(sys, u, n, role);
      if u == t && SelectsText(pattern, n) {
        assert AutoKeyCovered(t, pattern, n, role);
      }
    }
  }

  lemma {:induction false} CreateUnruled(sys: System, sc: Scope, t: nat, resource: string, columns: Items, tags: Items,
                                         filters: seq<RowFilter>)
    requires AutoCovering(sc) && AutoUnruled(sys, sc) && resource in sc.patterns
    ensures AutoUnruled(CreateRule(sys, t, resource, columns, tags, filters), sc)
  {
    var next, rules := CreateRule(sys, t, resource, columns, tags, filters), RulesOf(sys.store, t);
    if next != sys {
      var rule := Rule(sys.store.nextId, resource, columns, tags, filters);
      forall n | !SelectsText(resource, n)
        ensures Choose(RulesOf(next.store, t), n) == Choose(rules, n)
      {
        CreateKeepsChoice(rules, rule, n);
      }
      ChangeUnruled(sys, sc, t, resource, next);
    }
  }

  lemma {:induction false} UpdateUnruled(sys: System, sc: Scope, t: nat, id: nat, policies: Option<(Items, Items)>,
                                         filters: Option<seq<RowFilter>>)
    requires AutoCovering(sc) && AutoUnruled(sys, sc) && PatternsIn(sys.store, sc)
    ensures AutoUnruled(UpdateRule(sys, t, id, policies, filters), sc)
  {
    var next, rules := UpdateRule(sys, t, id, policies, filters), RulesOf(sys.store, t);
    var i := IndexOf(rules, id);
    if i < |rules| {
      var rule := Patched(rules[i], policies, filters);
      assert rules[i] in rules;
      forall n | !SelectsText(rule.resource, n)
        ensures Choose(RulesOf(next.store, t), n) == Choose(rules, n)
      {
        SelectsByResource(rule, n);
        PatchKeepsChoice(rules, i, rule, n);
      }
      ChangeUnruled(sys, sc, t, rule.resource, next);
    }
  }

  lemma {:induction false} StepUnruled(sys: System, sc: Scope, step: Step)
    requires ScopeOk(sc) && AutoCovering(sc) && PatternsIn(sys.store, sc) && AutoUnruled(sys, sc) && StepIn(step, sc)
             && Fixed(step)
    ensures AutoUnruled(Next(sys, step), sc)
  {
    var next := Next(sys, step);
    match step
    case Create(t, r, c, g, f) => CreateUnruled(sys, sc, t, r, c, g, f);
    case Update(t, id, p, f) => UpdateUnruled(sys, sc, t, id, p, f);
    case Ask(t, n, user) =>
      forall u, m, role | m in sc.names && role in sc.roles
        ensures AutoEntryUnruled(next, u, m, role)
      {
        assert AutoEntryUnruled(sys, u, m, role);
        OtherKeys(sc, u, m, role, t, n, user.role);
      }
    case Tick(_) =>
      forall t, n, role | n in sc.names && role in sc.roles
        ensures AutoEntryUnruled(next, t, n, role)
      {
        assert AutoEntryUnruled(sys, t, n, role);
      }
    case _ =>
  }

  lemma {:induction false} RunUnruled(start: System, sc: Scope, steps: seq<Step>)
    requires ScopeOk(sc) && Covering(sc) && AutoCovering(sc)
    requires Starts(start, sc) && StepsIn(steps, sc) && StepsFixed(steps)
    ensures AutoUnruled(Final(start, steps), sc)
  {
    if steps != [] {
      var k := |steps| - 1;
      RunFits(start, sc, steps[..k]);
      RunUnruled(start, sc, steps[..k]);
      StepUnruled(Final(start, steps[..k]), sc, steps[k]);
    }
  }

  /** Every live entry about the name is the uncached decision of its tenant, name and role. */
  ghost predicate EntryCurrent(sys: System, t: nat, n: string, user: User) {
    forall key | key == Key(t, n, user.role) || key == Key(t, n + NO_RF, user.role) ::
      var live := Live(sys.entries, key, sys.now);
      live.Some? ==> live.value == ColumnDecision(sys.store, t, n, user)
  }

  /** Whatever the run, no live entry is out of date. */
  ghost predicate AlwaysCurrent(sc: Scope) {
    forall start: System, steps: seq<Step>, t, n, user: User | Starts(start, sc) && StepsIn(steps, sc)
      && StepsFixed(steps) && n in sc.names && user.role in sc.roles :: EntryCurrent(Final(start, steps), t, n, user)
  }

  lemma {:induction false} CoveredIsCurrent(start: System, sc: Scope, steps: seq<Step>, t: nat, n: string, user: User)
    requires ScopeOk(sc) && Covering(sc) && AutoCovering(sc)
    requires Starts(start, sc) && StepsIn(steps, sc) && StepsFixed(steps) && n in sc.names && user.role in sc.roles
    ensures EntryCurrent(Final(start, steps), t, n, user)
  {
    var sys := Final(start, steps);
    RunFits(start, sc, steps);
    RunUnruled(start, sc, steps);
    assert RuleEntryFits(sys, t, n, user.role) && AutoEntryFits(sys, t, n, user.role)
      && AutoEntryUnruled(sys, t, n, user.role);
    var rule := Choose(RulesOf(sys.store, t), n);
    if rule.Some? && rule.value.filters == [] { RoleDecides(rule.value, user, ColumnsOf(sys.store, t, n)); }
  }

  // ----- an uncovered key -----

  const SCANNED := ScannedTable(None, [ScanColumn("x", "", "", "")])

  /** The table of a name has been scanned and no rule is there. */
  function ScannedStart(t: nat, n: string): System {
    System(Store(map[], map[(t, n) := SCANNED], {}, false, 0), map[], 0)
  }

  /** The name is asked for before a rule that selects it is created. */
  function LateRule(t: nat, p: string, n: string, role: string): seq<Step> {
    [Ask(t, n, AnyUser(role)), Create(t, p, [], [], [])]
  }

  lemma {:induction false} AfterFirstAsk(t: nat, n: string, role: string)
    ensures var sys := ScannedStart(t, n);
            Next(sys, Ask(t, n, AnyUser(role)))
            == sys.(entries := map[Key(t, n, role) := Cached(AutoPolicy(n, role, SCANNED.columns), TTL)])
  {
    assert Choose([], n) == None;
  }

  lemma {:induction false} AfterLateRule(t: nat, p: string, n: string, role: string, sys: System, d: Decision)
    requires sys == ScannedStart(t, n).(entries := map[Key(t, n, role) := Cached(d, TTL)])
    requires !AutoKeyCovered(t, p, n, role)
    ensures var next := Next(sys, Create(t, p, [], [], []));
            RulesOf(next.store, t) == [Rule(0, p, [], [], [])] && next.entries == sys.entries && next.now == 0
  {
    assert RulesOf(sys.store, t) == [] && [] + [Rule(0, p, [], [], [])] == [Rule(0, p, [], [], [])];
  }

  /** A rule whose pattern selects a name without covering its scan decision's key leaves that decision behind. */
  lemma {:induction false} ScanDecisionStays(t: nat, p: string, n: string, role: string)
    requires SelectsText(p, n) && !AutoKeyCovered(t, p, n, role)
    ensures !EntryCurrent(Final(ScannedStart(t, n), LateRule(t, p, n, role)), t, n, AnyUser(role))
  {
    var start, steps := ScannedStart(t, n), LateRule(t, p, n, role);
    assert steps[..1] == [steps[0]] && steps[..1][..0] == [];
    assert Final(start, steps[..1]) == Next(start, steps[0]);
    AfterFirstAsk(t, n, role);
    var d := AutoPolicy(n, role, SCANNED.columns);
    AfterLateRule(t, p, n, role, Next(start, steps[0]), d);
    ChooseOnly(Rule(0, p, [], [], []), n);
    var sys := Final(start, steps);
    assert sys == Next(Next(start, steps[0]), steps[1]);
    assert Live(sys.entries, Key(t, n, role), sys.now) == Some(d);
    assert d.autoPolicy && !ColumnDecision(sys.store, t, n, AnyUser(role)).autoPolicy;
  }

  lemma {:induction false} RuleDecisionStays(t: nat, p: string, n: string, role: string)
    requires SelectsText(p, n) && !RuleKeyCovered(t, p, n, role)
    ensures !EntryCurrent(Final(System(EmptyStore(), map[], 0), StaleRun(t, p, n, role)), t, n, AnyUser(role))
  {
    UncoveredGoesStale(t, p, n, role);
    var sys := Final(System(EmptyStore(), map[], 0), StaleRun(t, p, n, role));
    NotServedIsDecided(sys, t, n, AnyUser(role));
  }

  /** An answer other than the uncached one comes from an entry that is out of date. */
  lemma {:induction false} NotServedIsDecided(sys: System, t: nat, n: string, user: User)
    requires CachedDecide(sys, t, n, user).decision != Decide(sys.store, t, n, user)
    ensures !EntryCurrent(sys, t, n, user)
  {
  }

  lemma {:induction false} StaleSomewhere(sc: Scope, start: System, steps: seq<Step>, t: nat, n: string, user: User)
    requires Starts(start, sc) && StepsIn(steps, sc) && StepsFixed(steps) && n in sc.names && user.role in sc.roles
    requires !EntryCurrent(Final(start, steps), t, n, user)
    ensures !AlwaysCurrent(sc)
  {
  }

  lemma {:induction false} UncoveredIsStale(sc: Scope, t: nat, p: string, n: string, r: string)
    requires p in sc.patterns && n in sc.names && r in sc.roles && SelectsText(p, n)
    requires !RuleKeyCovered(t, p, n, r) || !AutoKeyCovered(t, p, n, r)
    ensures !AlwaysCurrent(sc)
  {
    if !RuleKeyCovered(t, p, n, r) {
      RuleDecisionStays(t, p, n, r);
      StaleSomewhere(sc, System(EmptyStore(), map[], 0), StaleRun(t, p, n, r), t, n, AnyUser(r));
    } else {
      ScanDecisionStays(t, p, n, r);
      StaleSomewhere(sc, ScannedStart(t, n), LateRule(t, p, n, r), t, n, AnyUser(r));
    }
  }

  lemma {:induction false} CoveredAlwaysCurrent(sc: Scope)
    requires ScopeOk(sc) && Covering(sc) && AutoCovering(sc)
    ensures AlwaysCurrent(sc)
  {
    forall start: System, steps: seq<Step>, t, n, user: User | Starts(start, sc) && StepsIn(steps, sc)
      && StepsFixed(steps) && n in sc.names && user.role in sc.roles
      ensures EntryCurrent(Final(start, steps), t, n, user)
    {
      CoveredIsCurrent(start, sc, steps, t, n, user);
    }
  }

  /** No live entry is ever out of date exactly when both keys of every selected name are covered. */
  lemma {:induction false} EntriesAreCurrent(sc: Scope)
    requires ScopeOk(sc)
    ensures AlwaysCurrent(sc) <==> Covering(sc) && AutoCovering(sc)
  {
    if Covering(sc) && AutoCovering(sc) {
      CoveredAlwaysCurrent(sc);
    } else {
      var t, p, n, r :| p in sc.patterns && n in sc.names && r in sc.roles && SelectsText(p, n)
        && (!RuleKeyCovered(t, p, n, r) || !AutoKeyCovered(t, p, n, r));
      UncoveredIsStale(sc, t, p, n, r);
    }
  }

  // ----- names that equal their pattern -----

  /** A pattern covers both keys of the name it spells, whatever characters the name holds. */
  lemma {:induction false} OwnNameCovered(t: nat, n: string, role: string)
    ensures RuleKeyCovered(t, n, n, role) && AutoKeyCovered(t, n, n, role)
  {
    if n == "" { GlobRest(n); } else { GlobSelf(n); }
    GlobCoversKeys(t, n, n, NO_RF, role);
    GlobCoversKeys(t, n, n, "", role);
    assert n + "" == n;
  }
}
