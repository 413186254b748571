/**
 Runs of the gateway's policy store and decision cache.  Without deletions and
 reclassification every answer is the one an uncached engine gives, exactly when the
 invalidation glob of a pattern covers the names the pattern selects; with them, an answer
 is at most a minute old.
 */
module CacheRuns {
  import opened Wrappers
  import opened Policies
  import opened PolicyDecisions
  import opened RuleSelection
  import opened PolicyCache

  datatype ScannedTable = ScannedTable(department: Option<nat>, columns: seq<ScanColumn>)

  /** One source: tenants' rules in order of creation, their tables by name, and their settings. */
  datatype Store = Store(
    rules: map<nat, seq<Rule>>,
    tables: map<(nat, string), ScannedTable>,
    maskingOff: set<nat>,         // tenants with global masking disabled
    permissive: bool,             // unclassified resources are allowed
    nextId: nat)

  const NO_RF := "::no_rf"

  // ----- the uncached engine -----

  function RulesOf(st: Store, tenant: nat): seq<Rule> {
    if tenant in st.rules then st.rules[tenant] else []
  }

  function ColumnsOf(st: Store, tenant: nat, name: string): seq<ScanColumn> {
    if (tenant, name) in st.tables then st.tables[(tenant, name)].columns else []
  }

  /** The decisions made before any rule is considered. */
  function Checked(st: Store, tenant: nat, name: string, user: User): Option<Decision> {
    var cols := ColumnsOf(st, tenant, name);
    if user.role != "superadmin" && (tenant, name) in st.tables && st.tables[(tenant, name)].department.Some?
       && st.tables[(tenant, name)].department != user.department then
      Some(Decision(name, false, [], [], [], [], false, false, [], []))
    else if tenant in st.maskingOff && user.role == "admin" then
      Some(Decision(name, true, [], [], [], [], true, false, PiiItems(cols), NamesOf(cols)))
    else None
  }

  function Unclassified(st: Store, name: string): Decision {
    Decision(name, st.permissive, [], [], [], [], false, true, [], [])
  }

  function ColumnDecision(st: Store, tenant: nat, name: string, user: User): Decision {
    var cols := ColumnsOf(st, tenant, name);
    match Choose(RulesOf(st, tenant), name)
    case Some(rule) => FromRule(rule, user, cols)
    case None => if cols != [] then AutoPolicy(name, user.role, cols) else Unclassified(st, name)
  }

  function Decide(st: Store, tenant: nat, name: string, user: User): Decision {
    var c := Checked(st, tenant, name, user);
    if c.Some? then c.value else ColumnDecision(st, tenant, name, user)
  }

  // ----- the engine with its cache -----

  datatype System = System(store: Store, entries: Entries, now: nat)

  /** An answer, and the entry to be cached with it, if any. */
  datatype Answer = Answer(decision: Decision, keep: Option<string>)

  function FromEntry(sys: System, key: string, computed: Decision): Answer {
    match Live(sys.entries, key, sys.now)
    case Some(d) => Answer(d, None)
    case None => Answer(computed, Some(key))
  }

  function CachedColumnDecision(sys: System, tenant: nat, name: string, user: User): Answer {
    var cols := ColumnsOf(sys.store, tenant, name);
    match Choose(RulesOf(sys.store, tenant), name)
    case Some(rule) =>
      if rule.filters == [] then FromEntry(sys, Key(tenant, name + NO_RF, user.role), FromRule(rule, user, cols))
      else Answer(FromRule(rule, user, cols), None)
    case None =>
      if cols != [] then FromEntry(sys, Key(tenant, name, user.role), AutoPolicy(name, user.role, cols))
      else Answer(Unclassified(sys.store, name), None)
  }

  function CachedDecide(sys: System, tenant: nat, name: string, user: User): Answer {
    var c := Checked(sys.store, tenant, name, user);
    if c.Some? then Answer(c.value, None) else CachedColumnDecision(sys, tenant, name, user)
  }

  // ----- steps -----

  datatype Step =
    | Create(tenant: nat, resource: string, columns: Items, tags: Items, filters: seq<RowFilter>)
    | Update(tenant: nat, id: nat, policies: Option<(Items, Items)>, newFilters: Option<seq<RowFilter>>)
    | Delete(tenant: nat, id: nat)
    | Reclassify(tenant: nat, name: string, scan: seq<ScanColumn>)
    | Ask(tenant: nat, name: string, user: User)
    | Tick(seconds: nat)

  function IndexOf(rules: seq<Rule>, id: nat): (i: nat)
    ensures i <= |rules|
    ensures i < |rules| ==> rules[i].id == id
  {
    if rules == [] then 0 else if rules[0].id == id then 0 else 1 + IndexOf(rules[1..], id)
  }

  function WithRules(st: Store, tenant: nat, rules: seq<Rule>): Store {
    st.(rules := st.rules[tenant := rules])
  }

  function Patched(r: Rule, policies: Option<(Items, Items)>, filters: Option<seq<RowFilter>>): Rule {
    r.(columns := if policies.Some? then policies.value.0 else r.columns,
       tags := if policies.Some? then policies.value.1 else r.tags,
       filters := if filters.Some? then filters.value else r.filters)
  }

  /** A pattern that is already there is refused; otherwise the rule is added and its keys are invalidated. */
  function CreateRule(sys: System, tenant: nat, resource: string, columns: Items, tags: Items,
                      filters: seq<RowFilter>): System {
    var st, rules := sys.store, RulesOf(sys.store, tenant);
    if exists r :: r in rules && r.resource == resource then sys
    else
      var rule := Rule(st.nextId, resource, columns, tags, filters);
      sys.(store := WithRules(st, tenant, rules + [rule]).(nextId := st.nextId + 1),
           entries := Invalidate(sys.entries, InvalidationGlob(tenant, resource)))
  }

  function UpdateRule(sys: System, tenant: nat, id: nat, policies: Option<(Items, Items)>,
                      filters: Option<seq<RowFilter>>): System {
    var rules := RulesOf(sys.store, tenant);
    var i := IndexOf(rules, id);
    if i == |rules| then sys
    else
      sys.(store := WithRules(sys.store, tenant, rules[i := Patched(rules[i], policies, filters)]),
           entries := Invalidate(sys.entries, InvalidationGlob(tenant, rules[i].resource)))
  }

  /** Nothing is invalidated. */
  function DeleteRule(sys: System, tenant: nat, id: nat): System {
    var rules := RulesOf(sys.store, tenant);
    var i := IndexOf(rules, id);
    if i == |rules| then sys
    else sys.(store := WithRules(sys.store, tenant, rules[..i] + rules[i + 1..]))
  }

  function ReclassifyTable(sys: System, tenant: nat, name: string, scan: seq<ScanColumn>): System {
    var st := sys.store;
    var department := if (tenant, name) in st.tables then st.tables[(tenant, name)].department else None;
    sys.(store := st.(tables := st.tables[(tenant, name) := ScannedTable(department, scan)]))
  }

  function AskDecision(sys: System, tenant: nat, name: string, user: User): System {
    var a := CachedDecide(sys, tenant, name, user);
    if a.keep.Some? then sys.(entries := SetEntry(sys.entries, a.keep.value, a.decision, sys.now)) else sys
  }

  function Next(sys: System, step: Step): System {
    match step
    case Create(t, r, c, g, f) => CreateRule(sys, t, r, c, g, f)
    case Update(t, id, p, f) => UpdateRule(sys, t, id, p, f)
    case Delete(t, id) => DeleteRule(sys, t, id)
    case Reclassify(t, n, scan) => ReclassifyTable(sys, t, n, scan)
    case Ask(t, n, user) => AskDecision(sys, t, n, user)
    case Tick(s) => sys.(now := sys.now + s)
  }

  /** The state after all the steps. */
  function Final(start: System, steps: seq<Step>): System {
    if steps == [] then start else Next(Final(start, steps[..|steps| - 1]), steps[|steps| - 1])
  }

  // ----- what a step does to the rules and the tables -----

  /** The stores differ in the rules of the tenant at most, and in the number for the next one. */
  ghost predicate OnlyRules(st: Store, after: Store, tenant: nat) {
    && after.tables == st.tables && after.maskingOff == st.maskingOff && after.permissive == st.permissive
    && forall t | t != tenant :: RulesOf(after, t) == RulesOf(st, t)
  }

  /** A new pattern goes behind the tenant's rules under a new number; one that is there changes nothing. */
  lemma {:induction false} RuleCreated(sys: System, tenant: nat, resource: string, columns: Items, tags: Items,
                                       filters: seq<RowFilter>)
    ensures var before, after := sys.store, CreateRule(sys, tenant, resource, columns, tags, filters).store;
            var rules, made := RulesOf(before, tenant), RulesOf(after, tenant);
            if exists i :: 0 <= i < |rules| && rules[i].resource == resource then after == before
            else
              && OnlyRules(before, after, tenant) && after.nextId == before.nextId + 1
              && |made| == |rules| + 1 && (forall i | 0 <= i < |rules| :: made[i] == rules[i])
              && var r := made[|rules|];
                 r.id == before.nextId && r.resource == resource && r.columns == columns && r.tags == tags
                 && r.filters == filters
  {
    var rules := RulesOf(sys.store, tenant);
    if r :| r in rules && r.resource == resource {
      var i :| 0 <= i < |rules| && rules[i] == r;
    }
  }

  /** The first rule of that number. */
  predicate NumberedAt(rules: seq<Rule>, id: nat, i: nat) {
    i < |rules| && rules[i].id == id && forall j | 0 <= j < i :: rules[j].id != id
  }

  lemma {:induction false} IndexExact(rules: seq<Rule>, id: nat)
    ensures forall j | 0 <= j < IndexOf(rules, id) :: rules[j].id != id
  {
    if rules != [] && rules[0].id != id {
      IndexExact(rules[1..], id);
      assert forall j | 0 < j < IndexOf(rules, id) :: rules[j] == rules[1..][j - 1];
    }
  }

  /** What is given replaces what the rule had, and what is not given stays; every other rule stays as it is. */
  lemma {:induction false} RuleUpdated(sys: System, tenant: nat, id: nat, policies: Option<(Items, Items)>,
                                       filters: Option<seq<RowFilter>>, i: nat)
    requires NumberedAt(RulesOf(sys.store, tenant), id, i)
    ensures var before, after := sys.store, UpdateRule(sys, tenant, id, policies, filters).store;
            var rules, made := RulesOf(before, tenant), RulesOf(after, tenant);
            && OnlyRules(before, after, tenant) && after.nextId == before.nextId && |made| == |rules|
            && (forall j | 0 <= j < |rules| && j != i :: made[j] == rules[j])
            && made[i].id == id && made[i].resource == rules[i].resource
            && (if policies.Some? then (made[i].columns, made[i].tags) == policies.value
                else made[i].columns == rules[i].columns && made[i].tags == rules[i].tags)
            && made[i].filters == if filters.Some? then filters.value else rules[i].filters
  {
    IndexExact(RulesOf(sys.store, tenant), id);
  }

  /** The rule of that number goes, and the cache keeps what it holds. */
  lemma {:induction false} RuleDeleted(sys: System, tenant: nat, id: nat, a: seq<Rule>, r: Rule, b: seq<Rule>)
    requires RulesOf(sys.store, tenant) == a + [r] + b && r.id == id && forall q | q in a :: q.id != id
    ensures var after := DeleteRule(sys, tenant, id);
            && RulesOf(after.store, tenant) == a + b && OnlyRules(sys.store, after.store, tenant)
            && after.entries == sys.entries && after.now == sys.now
  {
    var rules := RulesOf(sys.store, tenant);
    IndexExact(rules, id);
    assert rules[|a|] == r && forall j | 0 <= j < |a| :: rules[j] == a[j];
    assert rules[..|a|] == a && rules[|a| + 1..] == b;
  }

  /** A scan replaces the columns of its table alone, and the table stays with its department. */
  lemma {:induction false} TableReclassified(sys: System, tenant: nat, name: string, scan: seq<ScanColumn>)
    ensures var before, after := sys.store, ReclassifyTable(sys, tenant, name, scan);
            && ColumnsOf(after.store, tenant, name) == scan && after.store.rules == before.rules
            && after.store.maskingOff == before.maskingOff && after.store.permissive == before.permissive
            && (forall t: nat, n | (t, n) != (tenant, name) :: ColumnsOf(after.store, t, n) == ColumnsOf(before, t, n))
            && (forall user: User | user.role != "admin" ::
                  Checked(after.store, tenant, name, user) == Checked(before, tenant, name, user))
            && after.entries == sys.entries && after.now == sys.now
  {
  }

  // ----- what the cache may hold -----

  /** The names, roles and patterns a run uses. */
  datatype Scope = Scope(patterns: set<string>, names: set<string>, roles: set<string>)

  /**
   Patterns are free of the characters whose meaning in a glob is left out, roles are free of colons, and no name
   ends like the key of another name's rule decision.
   */
  predicate ScopeOk(sc: Scope) {
    && (forall p | p in sc.patterns :: '[' !in p && '\\' !in p)
    && (forall r | r in sc.roles :: ':' !in r)
    && forall n, m | n in sc.names && m in sc.names :: n != m + NO_RF
  }

  predicate StepIn(step: Step, sc: Scope) {
    match step
    case Create(_, r, _, _, _) => r in sc.patterns
    case Ask(_, n, user) => n in sc.names && user.role in sc.roles
    case _ => true
  }

  predicate Fixed(step: Step) {
    !step.Delete? && !step.Reclassify?
  }

  predicate PatternsIn(st: Store, sc: Scope) {
    forall t | t in st.rules :: forall r | r in st.rules[t] :: r.resource in sc.patterns
  }

  predicate SelectsText(pattern: string, name: string) {
    Selects(Rule(0, pattern, [], [], []), name)
  }

  predicate RuleKeyCovered(tenant: nat, pattern: string, name: string, role: string) {
    Glob(InvalidationGlob(tenant, pattern), Key(tenant, name + NO_RF, role))
  }

  /** Changing a rule invalidates the rule decisions of every name its pattern selects. */
  ghost predicate Covering(sc: Scope) {
    forall t, p, n, r | p in sc.patterns && n in sc.names && r in sc.roles && SelectsText(p, n) ::
      RuleKeyCovered(t, p, n, r)
  }

  function AnyUser(role: string): User {
    User(role, None, map[])
  }

  predicate RuleEntryFits(sys: System, t: nat, n: string, role: string) {
    var live, rule := Live(sys.entries, Key(t, n + NO_RF, role), sys.now), Choose(RulesOf(sys.store, t), n);
    live.Some? ==>
      rule.Some? && rule.value.filters == []
        && live.value == FromRule(rule.value, AnyUser(role), ColumnsOf(sys.store, t, n))
  }

  predicate AutoEntryFits(sys: System, t: nat, n: string, role: string) {
    var live, cols := Live(sys.entries, Key(t, n, role), sys.now), ColumnsOf(sys.store, t, n);
    live.Some? ==> cols != [] && live.value == AutoPolicy(n, role, cols)
  }

  ghost predicate EntriesFit(sys: System, sc: Scope) {
    forall t, n, role | n in sc.names && role in sc.roles ::
      RuleEntryFits(sys, t, n, role) && AutoEntryFits(sys, t, n, role)
  }

  ghost predicate AnswersAgree(sys: System, sc: Scope) {
    forall t, n, user: User | n in sc.names && user.role in sc.roles ::
      CachedDecide(sys, t, n, user).decision == Decide(sys.store, t, n, user)
  }

  lemma {:induction false} RoleDecides(rule: Rule, user: User, cols: seq<ScanColumn>)
    requires rule.filters == []
    ensures FromRule(rule, user, cols) == FromRule(rule, AnyUser(user.role), cols)
  {
    assert ResolveFilters([], user) == ResolveFilters([], AnyUser(user.role));
  }

  lemma {:induction false} FittingAnswers(sys: System, sc: Scope)
    requires EntriesFit(sys, sc)
    ensures AnswersAgree(sys, sc)
  {
    forall t, n, user: User | n in sc.names && user.role in sc.roles
      ensures CachedDecide(sys, t, n, user).decision == Decide(sys.store, t, n, user)
    {
      assert RuleEntryFits(sys, t, n, user.role) && AutoEntryFits(sys, t, n, user.role);
      var rule := Choose(RulesOf(sys.store, t), n);
      if rule.Some? && rule.value.filters == [] { RoleDecides(rule.value, user, ColumnsOf(sys.store, t, n)); }
    }
  }

  // ----- every step keeps the entries fitting -----

  lemma {:induction false} SelectsByResource(r: Rule, n: string)
    ensures Selects(r, n) <==> SelectsText(r.resource, n)
  {
  }

  lemma {:induction false} OtherKeys(sc: Scope, t: nat, n: string, role: string, u: nat, m: string, other: string)
    requires ScopeOk(sc) && n in sc.names && m in sc.names && role in sc.roles && other in sc.roles
    ensures Key(t, n, role) != Key(u, m + NO_RF, other)
    ensures Key(t, n, role) == Key(u, m, other) ==> t == u && n == m && role == other
    ensures Key(t, n + NO_RF, role) == Key(u, m + NO_RF, other) ==> t == u && n == m && role == other
  {
    if Key(t, n, role) == Key(u, m + NO_RF, other) { KeyInjective(t, n, role, u, m + NO_RF, other); }
    if Key(t, n, role) == Key(u, m, other) { KeyInjective(t, n, role, u, m, other); }
    if Key(t, n + NO_RF, role) == Key(u, m + NO_RF, other) {
      KeyInjective(t, n + NO_RF, role, u, m + NO_RF, other);
      SameHead(n, m, NO_RF);
    }
  }

  lemma {:induction false} SameHead(a: string, b: string, c: string)
    requires a + c == b + c
    ensures a == b
  {
    assert a == (a + c)[..|a|] && b == (b + c)[..|b|];
  }

  lemma {:induction false} AskFits(sys: System, sc: Scope, t: nat, n: string, user: User)
    requires ScopeOk(sc) && EntriesFit(sys, sc) && n in sc.names && user.role in sc.roles
    ensures EntriesFit(AskDecision(sys, t, n, user), sc)
  {
    var next, a := AskDecision(sys, t, n, user), CachedDecide(sys, t, n, user);
    if a.keep.Some? {
      var rule := Choose(RulesOf(sys.store, t), n);
      if rule.Some? { RoleDecides(rule.value, user, ColumnsOf(sys.store, t, n)); }
      forall u, m, role | m in sc.names && role in sc.roles
        ensures RuleEntryFits(next, u, m, role) && AutoEntryFits(next, u, m, role)
      {
        assert RuleEntryFits(sys, u, m, role) && AutoEntryFits(sys, u, m, role);
        OtherKeys(sc, t, n, user.role, u, m, role);
        OtherKeys(sc, u, m, role, t, n, user.role);
      }
    }
  }

  /** A rule's change at `i` leaves the choice for names the rule does not select. */
  lemma {:induction false} PatchKeepsChoice(rules: seq<Rule>, i: nat, r: Rule, n: string)
    requires i < |rules| && r.resource == rules[i].resource && !Selects(r, n)
    ensures Choose(rules[i := r], n) == Choose(rules, n)
  {
    var a, b := rules[..i], rules[i + 1..];
    SelectsByResource(r, n);
    SelectsByResource(rules[i], n);
    assert rules == a + [rules[i]] + b && rules[i := r] == a + [r] + b;
    ChooseWithout(a, r, b, n);
    ChooseWithout(a, rules[i], b, n);
  }

  lemma {:induction false} CreateKeepsChoice(rules: seq<Rule>, r: Rule, n: string)
    requires !SelectsText(r.resource, n)
    ensures Choose(rules + [r], n) == Choose(rules, n)
  {
    SelectsByResource(r, n);
    ChooseWithout(rules, r, [], n);
    assert rules + [r] + [] == rules + [r] && rules + [] == rules;
  }

  /** After a rule's keys are invalidated, what is left fits as long as the choice is kept elsewhere. */
  lemma {:induction false} ChangeFits(sys: System, sc: Scope, t: nat, pattern: string, next: System)
    requires Covering(sc) && EntriesFit(sys, sc) && pattern in sc.patterns
    requires next.now == sys.now && next.entries == Invalidate(sys.entries, InvalidationGlob(t, pattern))
    requires next.store.tables == sys.store.tables
    requires forall u | u != t :: RulesOf(next.store, u) == RulesOf(sys.store, u)
    requires forall n | !SelectsText(pattern, n) ::
             Choose(RulesOf(next.store, t), n) == Choose(RulesOf(sys.store, t), n)
    ensures EntriesFit(next, sc)
  {
    forall u, n, role | n in sc.names && role in sc.roles
      ensures RuleEntryFits(next, u, n, role) && AutoEntryFits(next, u, n, role)
    {
      assert RuleEntryFits(sys, u, n, role) && AutoEntryFits(sys, u, n, role);
      if u == t && SelectsText(pattern, n) { assert RuleKeyCovered(t, pattern, n, role); }
    }
  }

  lemma {:induction false} CreateFits(sys: System, sc: Scope, t: nat, resource: string, columns: Items, tags: Items,
                                      filters: seq<RowFilter>)
    requires Covering(sc) && EntriesFit(sys, sc) && resource in sc.patterns
    ensures EntriesFit(CreateRule(sys, t, resource, columns, tags, filters), sc)
  {
    var next, rules := CreateRule(sys, t, resource, columns, tags, filters), RulesOf(sys.store, t);
    if next != sys {
      var rule := Rule(sys.store.nextId, resource, columns, tags, filters);
      forall n | !SelectsText(resource, n)
        ensures Choose(RulesOf(next.store, t), n) == Choose(rules, n)
      {
        CreateKeepsChoice(rules, rule, n);
      }
      ChangeFits(sys, sc, t, resource, next);
    }
  }

  lemma {:induction false} UpdateFits(sys: System, sc: Scope, t: nat, id: nat, policies: Option<(Items, Items)>,
                                      filters: Option<seq<RowFilter>>)
    requires Covering(sc) && EntriesFit(sys, sc) && PatternsIn(sys.store, sc)
    ensures EntriesFit(UpdateRule(sys, t, id, policies, filters), sc)
  {
    var next, rules := UpdateRule(sys, t, id, policies, filters), RulesOf(sys.store, t);
    var i := IndexOf(rules, id);
    if i < |rules| {
      var rule := Patched(rules[i], policies, filters);
      assert rules[i] in rules;
      forall n | !SelectsText(rule.resource, n)
        ensures Choose(RulesOf(next.store, t), n) == Choose(rules, n)
      {
        SelectsByResource(rule, n);
        PatchKeepsChoice(rules, i, rule, n);
      }
      ChangeFits(sys, sc, t, rule.resource, next);
    }
  }

  lemma {:induction false} StepKeepsPatterns(sys: System, sc: Scope, step: Step)
    requires PatternsIn(sys.store, sc) && StepIn(step, sc)
    ensures PatternsIn(Next(sys, step).store, sc)
  {
    var st := Next(sys, step).store;
    forall t, r | t in st.rules && r in st.rules[t]
      ensures r.resource in sc.patterns
    {
      var before := RulesOf(sys.store, t);
      assert forall q | q in before :: q.resource in sc.patterns;
      if st.rules[t] != before {
        if step.Update? {
          var i := IndexOf(before, step.id);
          assert before[i] in before;
          var j :| 0 <= j < |st.rules[t]| && st.rules[t][j] == r;
          assert before[j] in before;
        }
      }
    }
  }

  lemma {:induction false} StepFits(sys: System, sc: Scope, step: Step)
    requires ScopeOk(sc) && Covering(sc) && PatternsIn(sys.store, sc) && EntriesFit(sys, sc) && StepIn(step, sc)
             && Fixed(step)
    ensures EntriesFit(Next(sys, step), sc)
  {
    match step
    case Create(t, r, c, g, f) => CreateFits(sys, sc, t, r, c, g, f);
    case Update(t, id, p, f) => UpdateFits(sys, sc, t, id, p, f);
    case Ask(t, n, user) => AskFits(sys, sc, t, n, user);
    case Tick(s) =>
      var next := Next(sys, step);
      forall t, n, role | n in sc.names && role in sc.roles
        ensures RuleEntryFits(next, t, n, role) && AutoEntryFits(next, t, n, role)
      {
        assert RuleEntryFits(sys, t, n, role) && AutoEntryFits(sys, t, n, role);
      }
    case _ =>
  }

  predicate Starts(sys: System, sc: Scope) {
    sys.entries == map[] && PatternsIn(sys.store, sc)
  }

  predicate StepsIn(steps: seq<Step>, sc: Scope) {
    forall i | 0 <= i < |steps| :: StepIn(steps[i], sc)
  }

  predicate StepsFixed(steps: seq<Step>) {
    forall i | 0 <= i < |steps| :: Fixed(steps[i])
  }

  /** Every entry stays equal to what the uncached engine decides. */
  lemma {:induction false} RunFits(start: System, sc: Scope, steps: seq<Step>)
    requires ScopeOk(sc) && Covering(sc) && Starts(start, sc) && StepsIn(steps, sc) && StepsFixed(steps)
    ensures EntriesFit(Final(start, steps), sc) && PatternsIn(Final(start, steps).store, sc)
  {
    if steps != [] {
      var k := |steps| - 1;
      RunFits(start, sc, steps[..k]);
      StepFits(Final(start, steps[..k]), sc, steps[k]);
      StepKeepsPatterns(Final(start, steps[..k]), sc, steps[k]);
    }
  }
}
