/**
 Row filters act as views: the rewritten query computes on the database what the query
 rewritten without row filters computes on the database whose protected tables are cut
 to the rows on which their filters are true, at every depth of nesting.
 */
module FilteredView {
  import opened Wrappers
  import opened Policies
  import opened SqlSyntax
  import opened Rewriter
  import opened RepeatedVisits
  import opened RepeatedFilters
  import opened LostNames
  import opened Semantics
  import opened Congruence
  import opened RepeatedMeaning
  import opened References
  import opened SelfJoins

  // ----- which queries -----

  /** The decision has a row filter that is not skipped. */
  predicate Filters(d: Decision) {
    exists f | f in d.filters :: f.column != ""
  }

  /** Source names are clear, and no decision with a row filter governs two sources. */
  predicate SourcesDistinct(ss: seq<Source>, tp: TablePolicies) {
    && AliasesClear(ss)
    && forall i, k, key | 0 <= i < |ss| && 0 <= k < |ss| && key in tp && Governed(ss, i, key, tp)
                          && Governed(ss, k, key, tp) && Filters(tp[key]) :: i == k
  }

  /** The projection stays, or is suppressed under the same name, over both sets of children. */
  predicate SameFate(q: Expr, o1: Subst, o2: Subst, am: AliasMap, tp: TablePolicies) {
    && Stays(q, o1, am, tp) == Stays(q, o2, am, tp)
    && (!Stays(q, o1, am, tp) ==> OutName(Apply(q, o1)) == OutName(Apply(q, o2)))
  }

  /** The row filters of nested SELECTs do not change which projections are suppressed, nor their names. */
  predicate FatesUnaffected(s: Select, tp: TablePolicies) {
    forall q | q in Listed(s, tp) ::
      SameFate(q, OnePassMap(s, tp), OnePassMap(s, NoFilters(tp)), SelAliasMap(s, tp), tp)
  }

  /**
   In every SELECT of the tree that a visit leaves, the sources are distinct and row filters
   have no say in which projections are suppressed.
   */
  predicate Viewable(s: Select, tp: TablePolicies)
    decreases s
  {
    && SourcesDistinct(s.sources, tp) && FatesUnaffected(s, tp)
    && forall k | k in SelKids(s)
                  && Survives(s, Listed(s, tp), StayAt(Listed(s, tp), OnePassMap(s, tp), SelAliasMap(s, tp), tp), k) ::
         Viewable(k, tp)
  }

  // ----- the alias map of distinct sources -----

  lemma {:induction false} AssignNew(am: AliasMap, alias: string, key: string)
    requires forall e | e in am :: e.alias != alias
    ensures Assign(am, alias, key) == am + [Entry(alias, key)]
  {
    if am != [] {
      assert am[0] in am;
      AssignNew(am[1..], alias, key);
    }
  }

  /** Entry `j` is the first one of its decision. */
  predicate LeadsAs(am: AliasMap, j: nat, e: Entry) {
    FirstFor(am, j) && am[j] == e
  }

  lemma {:induction false} LeadsAfter(am: AliasMap, j: nat, e: Entry, more: AliasMap)
    requires LeadsAs(am, j, e)
    ensures LeadsAs(am + more, j, e)
  {
  }

  /** Assigning another name to another decision leaves the first entry of a decision the first. */
  lemma {:induction false} AssignKeepsLead(am: AliasMap, j: nat, e: Entry, alias: string, key: string)
    requires LeadsAs(am, j, e) && alias != e.alias && key != e.key
    ensures LeadsAs(Assign(am, alias, key), j, e)
  {
    if am[0].alias != alias && j > 0 {
      forall i | 0 <= i < j - 1 ensures am[1..][i].key != e.key { assert am[i + 1].key != am[j].key; }
      AssignKeepsLead(am[1..], j - 1, e, alias, key);
      var rest := Assign(am[1..], alias, key);
      assert Assign(am, alias, key) == [am[0]] + rest;
      forall i | 0 <= i < j ensures ([am[0]] + rest)[i].key != e.key { if i > 0 { assert rest[i - 1].key != e.key; } }
    }
  }

  lemma {:induction false} EarlierNames(ss: seq<Source>, tp: TablePolicies, key: string, e: Entry)
    requires SourcesDistinct(ss, tp) && ss != [] && Governed(ss, |ss| - 1, key, tp) && Filters(tp[key])
    requires e in BuildAliasMap(ss[..|ss| - 1], tp)
    ensures e.alias != BindName(ss[|ss| - 1]) && e.alias != ss[|ss| - 1].name && e.key != key
  {
    var k := EntryHasSource(ss[..|ss| - 1], tp, e);
    assert ss[..|ss| - 1][k] == ss[k];
    assert Governed(ss, k, e.key, tp);
  }

  lemma {:induction false} DistinctPrefix(ss: seq<Source>, n: nat, tp: TablePolicies)
    requires SourcesDistinct(ss, tp) && n <= |ss|
    ensures SourcesDistinct(ss[..n], tp)
  {
    forall i, k, key | 0 <= i < n && 0 <= k < n && Governed(ss[..n], i, key, tp) && Governed(ss[..n], k, key, tp)
                       && Filters(tp[key])
      ensures i == k
    {
      assert Governed(ss, i, key, tp) && Governed(ss, k, key, tp);
    }
  }

  /** The first entry of a decision with a row filter is under the name of the only source it governs. */
  lemma {:induction false} OwnNameLeads(ss: seq<Source>, tp: TablePolicies, i: nat, key: string) returns (j: nat)
    requires SourcesDistinct(ss, tp) && Governed(ss, i, key, tp) && Filters(tp[key])
    ensures LeadsAs(BuildAliasMap(ss, tp), j, Entry(BindName(ss[i]), key))
  {
    var n := |ss| - 1;
    var am, src, e := BuildAliasMap(ss[..n], tp), ss[n], Entry(BindName(ss[i]), key);
    DistinctPrefix(ss, n, tp);
    if i < n {
      j := OwnNameLeads(ss[..n], tp, i, key);
      if src.Table? && PolicyKey(tp, src.name).Some? {
        var other := PolicyKey(tp, src.name).value;
        assert other != key by { assert Governed(ss, n, other, tp); }
        assert src.name != e.alias;
        AssignKeepsLead(am, j, e, BindName(src), other);
        if BindName(src) != src.name { AssignKeepsLead(Assign(am, BindName(src), other), j, e, src.name, other); }
      }
    } else {
      j := |am|;
      forall x | x in am { EarlierNames(ss, tp, key, x); }
      assert forall k | 0 <= k < |am| :: am[k] in am;
      AssignNew(am, BindName(src), key);
      if BindName(src) != src.name {
        AssignNew(am + [e], src.name, key);
        LeadsAfter(am + [e], j, e, [Entry(src.name, key)]);
      }
    }
  }

  // ----- the injected conditions of distinct sources -----

  /** `c` is a filter of the decision that governs source `i`, under the source's own name. */
  predicate FilterOf(ss: seq<Source>, tp: TablePolicies, i: nat, f: RowFilter, c: Expr) {
    i < |ss| && ss[i].Table? && PolicyKey(tp, ss[i].name).Some?
    && f in tp[PolicyKey(tp, ss[i].name).value].filters && f.column != "" && c == FilterExpr(BindName(ss[i]), f)
  }

  lemma {:induction false} InjectedIsOwn(ss: seq<Source>, am: AliasMap, tp: TablePolicies, j: nat, f: RowFilter,
                                         c: Expr) returns (k: nat)
    requires SourcesDistinct(ss, tp) && am == BuildAliasMap(ss, tp) && Injected(am, tp, {}, j, f, c)
    ensures FilterOf(ss, tp, k, f, c)
  {
    var key := am[j].key;
    k := EntryHasSource(ss, tp, am[j]);
    assert f in tp[key].filters && Filters(tp[key]);
    var j' := OwnNameLeads(ss, tp, k, key);
    assert j == j';
  }

  lemma {:induction false} OwnIsInjected(ss: seq<Source>, am: AliasMap, tp: TablePolicies, i: nat, f: RowFilter,
                                         c: Expr) returns (j: nat)
    requires SourcesDistinct(ss, tp) && am == BuildAliasMap(ss, tp) && FilterOf(ss, tp, i, f, c)
    ensures Injected(am, tp, {}, j, f, c)
  {
    j := OwnNameLeads(ss, tp, i, PolicyKey(tp, ss[i].name).value);
  }

  /** With distinct sources the injected conditions are exactly the filters of every governed source. */
  lemma {:induction false} ConditionsExact(s: Select, tp: TablePolicies, c: Expr)
    requires SourcesDistinct(s.sources, tp)
    ensures c in SelConditions(s, tp) <==> exists i: nat, f :: FilterOf(s.sources, tp, i, f, c)
  {
    var am := SelAliasMap(s, tp);
    OnlyFirstAliasFiltered(am, tp, {}, c);
    if j: nat, f :| Injected(am, tp, {}, j, f, c) { var k := InjectedIsOwn(s.sources, am, tp, j, f, c); }
    if i: nat, f :| FilterOf(s.sources, tp, i, f, c) { var j := OwnIsInjected(s.sources, am, tp, i, f, c); }
  }

  // ----- the view -----

  ghost predicate FilterTrue(E: Engine, cols: seq<string>, f: RowFilter, row: Row) {
    TruthOf(Eval(E, map[], [Binding("t", cols)], [[row]], FilterExpr("t", f))) == True
  }

  /** Every row filter on the table is true of the row; unknown is not true. */
  ghost predicate RowVisible(E: Engine, tp: TablePolicies, name: string, cols: seq<string>, row: Row) {
    PolicyKey(tp, name).Some? ==>
      forall f | f in tp[PolicyKey(tp, name).value].filters && f.column != "" :: FilterTrue(E, cols, f, row)
  }

  ghost function VisibleRows(E: Engine, tp: TablePolicies, name: string, cols: seq<string>, rows: seq<Row>): seq<Row> {
    if rows == [] then []
    else (if RowVisible(E, tp, name, cols, rows[0]) then [rows[0]] else []) + VisibleRows(E, tp, name, cols, rows[1..])
  }

  ghost function View(E: Engine, tp: TablePolicies, db: Database): Database {
    map n | n in db :: Relation(db[n].cols, VisibleRows(E, tp, n, db[n].cols, db[n].rows))
  }

  // ----- filtering a product is the product of the filtered lists -----

  type Gate = (nat, Row) -> bool

  function RowsWhere(gate: Gate, n: nat, rows: seq<Row>): seq<Row> {
    if rows == [] then [] else (if gate(n, rows[0]) then [rows[0]] else []) + RowsWhere(gate, n, rows[1..])
  }

  predicate TupleWhere(gate: Gate, n: nat, t: Tuple)
    decreases |t|
  {
    t == [] || (gate(n, t[0]) && TupleWhere(gate, n + 1, t[1..]))
  }

  function TuplesWhere(gate: Gate, n: nat, ts: seq<Tuple>): seq<Tuple> {
    if ts == [] then [] else (if TupleWhere(gate, n, ts[0]) then [ts[0]] else []) + TuplesWhere(gate, n, ts[1..])
  }

  function ListsWhere(gate: Gate, n: nat, lists: seq<seq<Row>>): seq<seq<Row>> {
    seq(|lists|, i requires 0 <= i < |lists| => RowsWhere(gate, n + i, lists[i]))
  }

  lemma {:induction false} TuplesWhereConcat(gate: Gate, n: nat, a: seq<Tuple>, b: seq<Tuple>)
    ensures TuplesWhere(gate, n, a + b) == TuplesWhere(gate, n, a) + TuplesWhere(gate, n, b)
  {
    if a == [] {
      assert a + b == b;
    } else {
      assert (a + b)[1..] == a[1..] + b;
      TuplesWhereConcat(gate, n, a[1..], b);
    }
  }

  lemma {:induction false} PrependConcat(row: Row, a: seq<Tuple>, b: seq<Tuple>)
    ensures Prepend(row, a + b) == Prepend(row, a) + Prepend(row, b)
  {
  }

  lemma {:induction false} PrependWhere(gate: Gate, n: nat, row: Row, ts: seq<Tuple>)
    ensures TuplesWhere(gate, n, Prepend(row, ts)) == if gate(n, row) then Prepend(row, TuplesWhere(gate, n + 1, ts))
            else []
  {
    if ts != [] {
      var ps := Prepend(row, ts);
      assert ps[0] == [row] + ts[0] && ps[0][1..] == ts[0] && ps[1..] == Prepend(row, ts[1..]);
      PrependWhere(gate, n, row, ts[1..]);
      var first := if TupleWhere(gate, n + 1, ts[0]) then [ts[0]] else [];
      assert TuplesWhere(gate, n + 1, ts) == first + TuplesWhere(gate, n + 1, ts[1..]);
      PrependConcat(row, first, TuplesWhere(gate, n + 1, ts[1..]));
      assert Prepend(row, first) == if TupleWhere(gate, n + 1, ts[0]) then [ps[0]] else [];
      assert TupleWhere(gate, n, ps[0]) == (gate(n, row) && TupleWhere(gate, n + 1, ts[0]));
    }
  }

  lemma {:induction false} ProductWhere(gate: Gate, n: nat, rows: seq<Row>, ts: seq<Tuple>)
    ensures TuplesWhere(gate, n, Product(rows, ts)) == Product(RowsWhere(gate, n, rows), TuplesWhere(gate, n + 1, ts))
  {
    if rows != [] {
      var kept := TuplesWhere(gate, n + 1, ts);
      TuplesWhereConcat(gate, n, Prepend(rows[0], ts), Product(rows[1..], ts));
      PrependWhere(gate, n, rows[0], ts);
      ProductWhere(gate, n, rows[1..], ts);
      var rest := RowsWhere(gate, n, rows[1..]);
      if gate(n, rows[0]) {
        assert RowsWhere(gate, n, rows) == [rows[0]] + rest && ([rows[0]] + rest)[1..] == rest;
      } else {
        assert RowsWhere(gate, n, rows) == rest;
      }
    }
  }

  lemma {:induction false} CrossWhere(gate: Gate, n: nat, lists: seq<seq<Row>>)
    ensures TuplesWhere(gate, n, Cross(lists)) == Cross(ListsWhere(gate, n, lists))
    decreases |lists|
  {
    if lists != [] {
      CrossWhere(gate, n + 1, lists[1..]);
      ProductWhere(gate, n, lists[0], Cross(lists[1..]));
      assert ListsWhere(gate, n, lists)[1..] == ListsWhere(gate, n + 1, lists[1..]);
    }
  }

  // ----- the injected conditions on one tuple -----

  /** A filter reads one column, so only that column's value matters to it. */
  lemma {:induction false} FilterReadsColumn(E: Engine, sub: Results, scope: Scope, t: Tuple, alias: string,
                                            sub': Results, scope': Scope, t': Tuple, alias': string, f: RowFilter)
    requires Lookup(E, scope, t, Ref(alias, f.column)) == Lookup(E, scope', t', Ref(alias', f.column))
    ensures Eval(E, sub, scope, [t], FilterExpr(alias, f)) == Eval(E, sub', scope', [t'], FilterExpr(alias', f))
  {
    ConditionShape(Col(alias, f.column), Col(alias', f.column), f);
    SameConditionValue(E, sub, scope, t, FilterExpr(alias, f), sub', scope', t', FilterExpr(alias', f));
  }

  /** A condition compares its column with a literal or looks it up in a list. */
  predicate SameCondition(a: Expr, b: Expr) {
    || (a.Op? && b.Op? && a.op == b.op && a.left.Col? && b.left.Col? && a.right.Lit? && a.right == b.right)
    || (a.InList? && b.InList? && a.arg.Col? && b.arg.Col? && a.items == b.items)
  }

  function TestedColumn(c: Expr): Expr
    requires c.Op? || c.InList?
  {
    if c.Op? then c.left else c.arg
  }

  lemma {:induction false} ConditionShape(c: Expr, d: Expr, f: RowFilter)
    requires c.Col? && d.Col?
    ensures SameCondition(BuildCondition(c, f.operator, f.value), BuildCondition(d, f.operator, f.value))
    ensures TestedColumn(BuildCondition(c, f.operator, f.value)) == c
            && TestedColumn(BuildCondition(d, f.operator, f.value)) == d
  {
  }

  lemma {:induction false} SameConditionValue(E: Engine, sub: Results, scope: Scope, t: Tuple, a: Expr,
                                              sub': Results, scope': Scope, t': Tuple, b: Expr)
    requires SameCondition(a, b)
    requires Eval(E, sub, scope, [t], TestedColumn(a)) == Eval(E, sub', scope', [t'], TestedColumn(b))
    ensures Eval(E, sub, scope, [t], a) == Eval(E, sub', scope', [t'], b)
  {
    if a.Op? { assert Eval(E, sub, scope, [t], a.right) == Eval(E, sub', scope', [t'], b.right); }
  }

  lemma {:induction false} AnswersAlone(scope: Scope, i: nat, col: string)
    requires i < |scope| && scope[i].name != ""
    requires forall k | 0 <= k < |scope| && k != i :: !SameName(scope[k].name, scope[i].name)
    ensures var r, one, r1 := Ref(scope[i].name, col), [Binding("t", scope[i].cols)], Ref("t", col);
            && (forall k: nat, j: nat :: Answers(scope, r, k, j) ==> k == i)
            && (forall k: nat, j: nat :: Answers(one, r1, k, j) ==> k == 0)
            && (forall j: nat :: Answers(scope, r, i, j) == Answers(one, r1, 0, j))
            && Unanswered(scope, r) == Unanswered(one, r1)
  {
    var r, one, r1 := Ref(scope[i].name, col), [Binding("t", scope[i].cols)], Ref("t", col);
    forall j: nat
      ensures Hit(scope, r, i, j) == Hit(one, r1, 0, j)
    {
    }
    assert forall k: nat, j: nat :: Hit(scope, r, k, j) ==> k == i;
    assert forall k: nat, j: nat :: Hit(one, r1, k, j) ==> k == 0;
  }

  /** Under distinct names a qualified reference reads the same column, or row, as in its table alone. */
  lemma {:induction false} LookupAlone(E: Engine, scope: Scope, t: Tuple, i: nat, col: string)
    requires i < |scope| == |t| && scope[i].name != ""
    requires forall k | 0 <= k < |scope| && k != i :: !SameName(scope[k].name, scope[i].name)
    ensures Lookup(E, scope, t, Ref(scope[i].name, col))
            == Lookup(E, [Binding("t", scope[i].cols)], [t[i]], Ref("t", col))
  {
    var r, one, r1 := Ref(scope[i].name, col), [Binding("t", scope[i].cols)], Ref("t", col);
    AnswersAlone(scope, i, col);
    if exists j: nat :: Answers(scope, r, i, j) {
      var j: nat :| Answers(scope, r, i, j);
      assert Answers(one, r1, 0, j);
    } else {
      assert !exists k: nat, j: nat :: Answers(scope, r, k, j);
      StarAlone(scope, t, i, scope[i].name);
      StarAlone(one, [t[i]], 0, "t");
    }
  }

  lemma {:induction false} ConjoinTruth(E: Engine, sub: Results, scope: Scope, g: Group, cs: seq<Expr>)
    requires cs != []
    ensures TruthOf(Eval(E, sub, scope, g, Conjoin(cs))) == True
            <==> forall c | c in cs :: TruthOf(Eval(E, sub, scope, g, c)) == True
  {
    var n := |cs| - 1;
    assert cs == cs[..n] + [cs[n]];
    assert forall c :: c in cs <==> c in cs[..n] || c == cs[n];
    if n == 0 {
      assert cs[..n] == [] && cs[n] in cs;
    } else {
      ConjoinTruth(E, sub, scope, g, cs[..n]);
      var l, r := TruthOf(Eval(E, sub, scope, g, Conjoin(cs[..n]))), TruthOf(Eval(E, sub, scope, g, cs[n]));
      assert TruthOf(Eval(E, sub, scope, g, Conjoin(cs))) == Kleene(l, r);
      assert cs[n] in cs;
      assert forall c | c in cs[..n] :: c in cs;
    }
  }

  lemma {:induction false} AddConditionTruth(E: Engine, sub: Results, scope: Scope, g: Group, where: Option<Expr>,
                                             cs: seq<Expr>)
    ensures Holds(E, sub, scope, g, AddCondition(where, cs)) <==>
              Holds(E, sub, scope, g, where) && forall c | c in cs :: TruthOf(Eval(E, sub, scope, g, c)) == True
  {
    if cs != [] { ConjoinTruth(E, sub, scope, g, cs); }
  }

  ghost predicate SourceRowVisible(E: Engine, tp: TablePolicies, ss: seq<Source>, scope: Scope, i: nat, row: Row) {
    i < |ss| && i < |scope| && ss[i].Table? ==> RowVisible(E, tp, ss[i].name, scope[i].cols, row)
  }

  /** A filter is true of a tuple under its source's name exactly when it is true of the source's row in its table. */
  lemma {:induction false} FilterOnRow(E: Engine, db: Database, sub: Results, ss: seq<Source>, tp: TablePolicies,
                                       t: Tuple, i: nat, f: RowFilter)
    requires SourcesDistinct(ss, tp) && i < |ss| == |t| && ss[i].Table?
    ensures var scope := ScopeOf(db, sub, ss);
            (TruthOf(Eval(E, sub, scope, [t], FilterExpr(BindName(ss[i]), f))) == True)
            == FilterTrue(E, scope[i].cols, f, t[i])
  {
    var scope := ScopeOf(db, sub, ss);
    assert forall k | 0 <= k < |ss| :: scope[k].name == BindName(ss[k]);
    LookupAlone(E, scope, t, i, f.column);
    FilterReadsColumn(E, sub, scope, t, BindName(ss[i]), map[], [Binding("t", scope[i].cols)], [t[i]], "t", f);
  }

  /** All injected conditions are true of a tuple exactly when each of its rows is visible in its table. */
  lemma {:induction false} ConditionsAreVisibility(E: Engine, db: Database, sub: Results, s: Select, tp: TablePolicies,
                                                   t: Tuple)
    requires SourcesDistinct(s.sources, tp) && |t| == |s.sources|
    ensures var scope := ScopeOf(db, sub, s.sources);
            (forall c | c in SelConditions(s, tp) :: TruthOf(Eval(E, sub, scope, [t], c)) == True)
            <==> forall i | 0 <= i < |t| :: SourceRowVisible(E, tp, s.sources, scope, i, t[i])
  {
    var ss, scope := s.sources, ScopeOf(db, sub, s.sources);
    forall i: nat, f, c | FilterOf(ss, tp, i, f, c)
      ensures TruthOf(Eval(E, sub, scope, [t], c)) == True <==> FilterTrue(E, scope[i].cols, f, t[i])
    {
      FilterOnRow(E, db, sub, ss, tp, t, i, f);
    }
    forall c { ConditionsExact(s, tp, c); }
    if forall c | c in SelConditions(s, tp) :: TruthOf(Eval(E, sub, scope, [t], c)) == True {
      forall i, f | 0 <= i < |t| && ss[i].Table? && PolicyKey(tp, ss[i].name).Some?
                    && f in tp[PolicyKey(tp, ss[i].name).value].filters && f.column != ""
        ensures FilterTrue(E, scope[i].cols, f, t[i])
      {
        assert FilterOf(ss, tp, i, f, FilterExpr(BindName(ss[i]), f));
      }
    }
    if forall i | 0 <= i < |t| :: SourceRowVisible(E, tp, ss, scope, i, t[i]) {
      forall c | c in SelConditions(s, tp)
        ensures TruthOf(Eval(E, sub, scope, [t], c)) == True
      {
        var i: nat, f :| FilterOf(ss, tp, i, f, c);
        assert SourceRowVisible(E, tp, ss, scope, i, t[i]);
      }
    }
  }

  // ----- rewriting without row filters -----

  function NoFilters(tp: TablePolicies): TablePolicies {
    map k | k in tp :: tp[k].(filters := [])
  }

  lemma {:induction false} AliasMapNoFilters(ss: seq<Source>, tp: TablePolicies)
    ensures BuildAliasMap(ss, NoFilters(tp)) == BuildAliasMap(ss, tp)
  {
    if ss != [] { AliasMapNoFilters(ss[..|ss| - 1], tp); }
  }

  lemma {:induction false} FirstNoFilters(am: AliasMap, tp: TablePolicies, name: string)
    ensures FirstRestricting(am, NoFilters(tp), name) == FirstRestricting(am, tp, name)
  {
    if am != [] { FirstNoFilters(am[1..], tp, name); }
  }

  lemma {:induction false} JudgeNoFilters(refs: seq<Ref>, am: AliasMap, tp: TablePolicies)
    ensures Judge(refs, am, NoFilters(tp)) == Judge(refs, am, tp)
  {
    if refs != [] {
      FirstNoFilters(am, tp, refs[0].name);
      var key := Find(am, refs[0].table);
      if key.Some? { FirstNoFilters([Entry(refs[0].table, key.value)], tp, refs[0].name); }
      JudgeNoFilters(refs[1..], am, tp);
    }
  }

  lemma {:induction false} AllKnownNoFilters(am: AliasMap, tp: TablePolicies)
    ensures AllKnown(am, NoFilters(tp)) == AllKnown(am, tp)
  {
    if am != [] { AllKnownNoFilters(am[1..], tp); }
  }

  lemma {:induction false} ExpandStarNoFilters(p: Expr, am: AliasMap, tp: TablePolicies)
    ensures ExpandStar(p, am, NoFilters(tp)) == ExpandStar(p, am, tp)
  {
    AllKnownNoFilters(am, tp);
  }

  lemma {:induction false} ExpandNoFilters(ps: seq<Expr>, am: AliasMap, tp: TablePolicies)
    ensures ExpandStars(ps, am, NoFilters(tp)) == ExpandStars(ps, am, tp)
  {
    if ps != [] {
      ExpandStarNoFilters(ps[0], am, tp);
      ExpandNoFilters(ps[1..], am, tp);
    }
  }

  lemma {:induction false} ConditionsNoFilters(am: AliasMap, tp: TablePolicies, seen: Seen)
    ensures Conditions(am, NoFilters(tp), seen) == []
  {
    if am != [] { ConditionsNoFilters(am[1..], tp, seen + Marked(am[0].key, FiltersOf(NoFilters(tp), am[0].key))); }
  }

  function ProjsAfter(ps: seq<Expr>, am: AliasMap, tp: TablePolicies): seq<Expr> {
    if am == [] then ps else RewriteProjs(ExpandStars(ps, am, tp), am, tp)
  }

  lemma {:induction false} ProjsNoFilters(ps: seq<Expr>, am: AliasMap, tp: TablePolicies)
    ensures ProjsAfter(ps, am, NoFilters(tp)) == ProjsAfter(ps, am, tp)
  {
    ExpandNoFilters(ps, am, tp);
    var qs := ExpandStars(ps, am, tp);
    forall i | 0 <= i < |qs|
      ensures RewriteProj(qs[i], am, NoFilters(tp)) == RewriteProj(qs[i], am, tp)
    {
      JudgeNoFilters(Refs(Inner(qs[i])), am, tp);
    }
    assert RewriteProjs(qs, am, NoFilters(tp)) == RewriteProjs(qs, am, tp);
  }

  /** A visit, with and without row filters, in terms of the same new projections. */
  lemma {:induction false} VisitBoth(s: Select, tp: TablePolicies)
    ensures var t := s.(projs := ProjsAfter(s.projs, SelAliasMap(s, tp), tp));
            Visit(s, NoFilters(tp)) == t && Visit(s, tp) == t.(where := AddCondition(s.where, SelConditions(s, tp)))
  {
    AliasMapNoFilters(s.sources, tp);
    ProjsNoFilters(s.projs, SelAliasMap(s, tp), tp);
    ConditionsNoFilters(SelAliasMap(s, tp), tp, {});
  }

  // ----- one SELECT -----

  lemma {:induction false} CrossLength(lists: seq<seq<Row>>)
    ensures forall t | t in Cross(lists) :: |t| == |lists|
  {
    if lists != [] {
      CrossLength(lists[1..]);
      ProductLength(lists[0], Cross(lists[1..]), |lists| - 1);
    }
  }

  lemma {:induction false} ProductLength(rows: seq<Row>, ts: seq<Tuple>, n: nat)
    requires forall t | t in ts :: |t| == n
    ensures forall t | t in Product(rows, ts) :: |t| == n + 1
  {
    if rows != [] { ProductLength(rows[1..], ts, n); }
  }

  lemma {:induction false} TupleWhereAll(gate: Gate, n: nat, t: Tuple)
    ensures TupleWhere(gate, n, t) <==> forall i | 0 <= i < |t| :: gate(n + i, t[i])
    decreases |t|
  {
    if t != [] {
      TupleWhereAll(gate, n + 1, t[1..]);
      assert forall i | 0 < i < |t| :: t[i] == t[1..][i - 1] && n + i == n + 1 + (i - 1);
      if forall i | 0 <= i < |t| :: gate(n + i, t[i]) {
        assert gate(n + 0, t[0]);
        forall i | 0 <= i < |t| - 1
          ensures gate(n + 1 + i, t[1..][i])
        {
          var j := i + 1;
          assert gate(n + j, t[j]);
        }
      }
      if TupleWhere(gate, n, t) {
        forall i | 0 <= i < |t|
          ensures gate(n + i, t[i])
        {
          if i > 0 { var j := i - 1; assert gate(n + 1 + j, t[1..][j]); }
        }
      }
    }
  }

  lemma {:induction false} KeptWhere(E: Engine, sub: Results, sub': Results, scope: Scope, s: Select, s': Select,
                                     gate: Gate, ts: seq<Tuple>)
    requires forall t | t in ts ::
             Passes(E, sub, scope, s, t) <==> TupleWhere(gate, 0, t) && Passes(E, sub', scope, s', t)
    ensures Kept(E, sub, scope, s, ts) == Kept(E, sub', scope, s', TuplesWhere(gate, 0, ts))
  {
    if ts != [] {
      assert ts[0] in ts && forall t | t in ts[1..] :: t in ts;
      KeptWhere(E, sub, sub', scope, s, s', gate, ts[1..]);
      var rest := TuplesWhere(gate, 0, ts[1..]);
      if TupleWhere(gate, 0, ts[0]) {
        assert TuplesWhere(gate, 0, ts) == [ts[0]] + rest && ([ts[0]] + rest)[1..] == rest;
      } else {
        assert TuplesWhere(gate, 0, ts) == rest;
      }
    }
  }

  ghost function VisibleGate(E: Engine, tp: TablePolicies, ss: seq<Source>, scope: Scope): Gate {
    (i: nat, row: Row) => SourceRowVisible(E, tp, ss, scope, i, row)
  }

  lemma {:induction false} ViewRows(E: Engine, tp: TablePolicies, ss: seq<Source>, scope: Scope, i: nat, rows: seq<Row>)
    requires i < |ss| && i < |scope|
    ensures RowsWhere(VisibleGate(E, tp, ss, scope), i, rows)
            == if ss[i].Table? then VisibleRows(E, tp, ss[i].name, scope[i].cols, rows) else rows
  {
    if rows != [] { ViewRows(E, tp, ss, scope, i, rows[1..]); }
  }

  /** On the view every source lists the rows that pass its gate, under the same heading. */
  lemma {:induction false} ViewSources(E: Engine, tp: TablePolicies, db: Database, sub: Results, ss: seq<Source>)
    ensures var scope := ScopeOf(db, sub, ss);
            ScopeOf(View(E, tp, db), sub, ss) == scope
            && RowLists(View(E, tp, db), sub, ss) == ListsWhere(VisibleGate(E, tp, ss, scope), 0, RowLists(db, sub, ss))
  {
    var scope, lists := ScopeOf(db, sub, ss), RowLists(db, sub, ss);
    forall i | 0 <= i < |ss|
      ensures SourceRel(View(E, tp, db), sub, ss[i]).cols == scope[i].cols
      ensures SourceRel(View(E, tp, db), sub, ss[i]).rows == RowsWhere(VisibleGate(E, tp, ss, scope), 0 + i, lists[i])
    {
      ViewRows(E, tp, ss, scope, i, lists[i]);
    }
  }

  lemma {:induction false} PassesBoth(E: Engine, tp: TablePolicies, db: Database, sub: Results, sub1: Results,
                                      sub2: Results,
                                     o1: Subst, o2: Subst, s: Select, t: Tuple)
    requires SourcesDistinct(s.sources, tp) && |t| == |s.sources|
    requires SameResults(sub, sub1, o1, SelKids(s)) && SameResults(sub, sub2, o2, SelKids(s))
    ensures var scope := ScopeOf(db, sub, s.sources);
            var filtered := SelApply(s, o1).(where := AddCondition(ApplyO(s.where, o1), SelConditions(s, tp)));
            Passes(E, sub1, scope, filtered, t)
            <==> TupleWhere(VisibleGate(E, tp, s.sources, scope), 0, t) && Passes(E, sub2, scope, SelApply(s, o2), t)
  {
    var scope := ScopeOf(db, sub, s.sources);
    NothingHidden(scope, s);
    SelfAlike([t]);
    ClausesAgree(sub, sub1, o1, s);
    ClausesAgree(sub, sub2, o2, s);
    PassesCong(E, sub, sub1, o1, scope, {}, s, t, t);
    PassesCong(E, sub, sub2, o2, scope, {}, s, t, t);
    AddConditionTruth(E, sub1, scope, [t], ApplyO(s.where, o1), SelConditions(s, tp));
    ConditionsRead(E, db, sub, sub1, s, tp, t);
    TupleWhereAll(VisibleGate(E, tp, s.sources, scope), 0, t);
    assert forall i | 0 <= i < |t| ::
      VisibleGate(E, tp, s.sources, scope)(0 + i, t[i]) == SourceRowVisible(E, tp, s.sources, scope, i, t[i]);
  }

  /** The injected conditions hold no nested SELECT, so their truth does not depend on nested results. */
  lemma {:induction false} ConditionsRead(E: Engine, db: Database, sub: Results, sub1: Results, s: Select,
                                          tp: TablePolicies, t: Tuple)
    requires SourcesDistinct(s.sources, tp) && |t| == |s.sources|
    ensures var scope := ScopeOf(db, sub, s.sources);
            (forall c | c in SelConditions(s, tp) :: TruthOf(Eval(E, sub1, scope, [t], c)) == True)
            <==> forall i | 0 <= i < |t| :: SourceRowVisible(E, tp, s.sources, scope, i, t[i])
  {
    var scope := ScopeOf(db, sub, s.sources);
    ConditionsAreVisibility(E, db, sub, s, tp, t);
    forall c | c in SelConditions(s, tp)
      ensures Eval(E, sub1, scope, [t], c) == Eval(E, sub, scope, [t], c)
    {
      ConditionsExact(s, tp, c);
      var i: nat, f :| FilterOf(s.sources, tp, i, f, c);
      FilterReadsColumn(E, sub1, scope, t, BindName(s.sources[i]), sub, scope, t, BindName(s.sources[i]), f);
    }
  }

  lemma {:induction false} RunView(E: Engine, tp: TablePolicies, db: Database, sub: Results, sub1: Results,
                                   sub2: Results,
                                  o1: Subst, o2: Subst, s: Select)
    requires SourcesDistinct(s.sources, tp)
    requires SameResults(sub, sub1, o1, SelKids(s)) && SameResults(sub, sub2, o2, SelKids(s))
    ensures Run(E, db, sub1, SelApply(s, o1).(where := AddCondition(ApplyO(s.where, o1), SelConditions(s, tp))))
            == Run(E, View(E, tp, db), sub2, SelApply(s, o2))
  {
    var scope, lists := ScopeOf(db, sub, s.sources), RowLists(db, sub, s.sources);
    var gate := VisibleGate(E, tp, s.sources, scope);
    var plain1, plain2 := SelApply(s, o1), SelApply(s, o2);
    var filtered := plain1.(where := AddCondition(ApplyO(s.where, o1), SelConditions(s, tp)));
    var ts := Cross(lists);
    ClausesAgree(sub, sub1, o1, s);
    ClausesAgree(sub, sub2, o2, s);
    SameSources(db, sub, sub1, o1, s.sources);
    SameSources(View(E, tp, db), sub, sub2, o2, s.sources);
    ViewSources(E, tp, db, sub, s.sources);
    CrossWhere(gate, 0, lists);
    CrossLength(lists);
    forall t | t in ts
      ensures Passes(E, sub1, scope, filtered, t) <==> TupleWhere(gate, 0, t) && Passes(E, sub2, scope, plain2, t)
    {
      PassesBoth(E, tp, db, sub, sub1, sub2, o1, o2, s, t);
    }
    KeptWhere(E, sub1, sub2, scope, filtered, plain2, gate, ts);
    var kept := Kept(E, sub1, scope, filtered, ts);
    NothingHidden(scope, s);
    SelfAlike(kept);
    FinishIgnoresWhere(E, sub1, scope, plain1, filtered.where, kept);
    FinishCong(E, sub, sub1, o1, scope, {}, s, kept, kept);
    FinishCong(E, sub, sub2, o2, scope, {}, s, kept, kept);
  }

  // ----- whole trees -----

  /** The SELECT with its new projections, its children and its row filter still to come. */
  function Shaped(s: Select, tp: TablePolicies): Select {
    var qs, o := Listed(s, tp), OnePassMap(s, tp);
    s.(projs := Shown(qs, StayAt(qs, o, SelAliasMap(s, tp), tp), NamesAt(qs, o), map[]))
  }

  lemma {:induction false} ShownNames(qs: seq<Expr>, stay: seq<bool>, names: seq<string>, names': seq<string>, u: Subst)
    requires |stay| == |names| == |names'| == |qs|
    requires forall i | 0 <= i < |qs| && !stay[i] :: names[i] == names'[i]
    ensures Shown(qs, stay, names, u) == Shown(qs, stay, names', u)
  {
  }

  /** Projections of unaffected fate, over other children. */
  lemma {:induction false} ShownOver(qs: seq<Expr>, o1: Subst, o2: Subst, am: AliasMap, tp: TablePolicies)
    requires forall q | q in qs :: SameFate(q, o1, o2, am, tp)
    ensures StayAt(qs, o1, am, tp) == StayAt(qs, o2, am, tp)
    ensures var stay := StayAt(qs, o1, am, tp);
            Shown(qs, stay, NamesAt(qs, o2), o2) == Shown(qs, stay, NamesAt(qs, o1), o2)
            == ApplyL(Shown(qs, stay, NamesAt(qs, o1), map[]), o2)
  {
    var stay := StayAt(qs, o1, am, tp);
    assert forall i | 0 <= i < |qs| :: qs[i] in qs;
    ShownNames(qs, stay, NamesAt(qs, o2), NamesAt(qs, o1), o2);
    ShownTwice(qs, stay, NamesAt(qs, o1), map[], o2, o2);
  }

  lemma {:induction false} OwnFate(qs: seq<Expr>, o: Subst, am: AliasMap, tp: TablePolicies)
    ensures forall q | q in qs :: SameFate(q, o, o, am, tp)
  {
  }

  lemma {:induction false} VisitsShaped(s: Select, o: Subst, t: Select, tp: TablePolicies)
    requires t == s.(projs := t.projs)
    requires ApplyL(t.projs, o) == Shown(Listed(s, tp), StayAt(Listed(s, tp), o, SelAliasMap(s, tp), tp),
                                         NamesAt(Listed(s, tp), o), o)
    ensures Visit(SelApply(s, o), tp)
            == SelApply(t, o).(where := AddCondition(ApplyO(t.where, o), SelConditions(t, tp)))
    ensures Visit(SelApply(s, o), NoFilters(tp)) == SelApply(t, o)
  {
    VisitShown(s, o, Listed(s, tp), StayAt(Listed(s, tp), o, SelAliasMap(s, tp), tp), tp);
    ConditionsApply(s, o, tp);
    VisitBoth(SelApply(s, o), tp);
  }

  lemma {:induction false} OnePassShape(s: Select, tp: TablePolicies)
    requires FatesUnaffected(s, tp)
    ensures var t, o := Shaped(s, tp), OnePassMap(s, tp);
            OnePass(s, tp) == SelApply(t, o).(where := AddCondition(ApplyO(t.where, o), SelConditions(t, tp)))
    ensures OnePass(s, NoFilters(tp)) == SelApply(Shaped(s, tp), OnePassMap(s, NoFilters(tp)))
  {
    var qs, am, o1, o2 := Listed(s, tp), SelAliasMap(s, tp), OnePassMap(s, tp), OnePassMap(s, NoFilters(tp));
    OnePassUnfolds(s, tp);
    OnePassUnfolds(s, NoFilters(tp));
    OwnFate(qs, o1, am, tp);
    ShownOver(qs, o1, o1, am, tp);
    ShownOver(qs, o1, o2, am, tp);
    VisitsShaped(s, o1, Shaped(s, tp), tp);
    VisitsShaped(s, o2, Shaped(s, tp), tp);
  }

  /** The results of the children serve as results of the replaced children. */
  lemma {:induction false} KidsServe(E: Engine, db: Database, s: Select, o: Subst, t: Select, sub: Results)
    requires forall k | k in SelKids(SelApply(s, o)) :: k in SelKids(t)
    requires forall k | k in SelKids(s) :: k in sub && sub[k] == Meaning(E, db, Get(o, k))
    ensures SameResults(sub, KidResults(E, db, t), o, SelKids(s))
  {
    SelKidsApply(s, o);
    InGetAll(o, SelKids(s));
  }

  lemma {:induction false} FilteredKids(s: Select, o: Subst, cs: seq<Expr>)
    ensures forall k | k in SelKids(SelApply(s, o)) ::
            k in SelKids(SelApply(s, o).(where := AddCondition(ApplyO(s.where, o), cs)))
  {
    assert forall k | k in KidsO(ApplyO(s.where, o)) :: k in KidsO(AddCondition(ApplyO(s.where, o), cs));
  }

  lemma {:induction false} ShownKids(qs: seq<Expr>, stay: seq<bool>, names: seq<string>, k: Select)
    requires |stay| == |names| == |qs| && k in KidsL(Shown(qs, stay, names, map[]))
    ensures exists i | 0 <= i < |qs| :: stay[i] && k in Kids(qs[i])
  {
    var i :| 0 <= i < |qs| && k in Kids(Shown(qs, stay, names, map[])[i]);
    ApplyNothing(qs[i], map[]);
    assert Kids(Nulled(names[i])) == [];
  }

  /** What is left below a shaped SELECT. */
  lemma {:induction false} ShapedKids(s: Select, tp: TablePolicies, k: Select)
    requires k in SelKids(Shaped(s, tp))
    ensures k in SelKids(s)
            && Survives(s, Listed(s, tp), StayAt(Listed(s, tp), OnePassMap(s, tp), SelAliasMap(s, tp), tp), k)
  {
    var qs, o := Listed(s, tp), OnePassMap(s, tp);
    var stay := StayAt(qs, o, SelAliasMap(s, tp), tp);
    if k in KidsL(Shaped(s, tp).projs) {
      ShownKids(qs, stay, NamesAt(qs, o), k);
      var i :| 0 <= i < |qs| && stay[i] && k in Kids(qs[i]);
      ListedKids(s, qs, tp, qs[i], k);
    }
  }

  /** A single pass with row filters on the database is a single pass without them on the view. */
  lemma {:induction false} OnePassOnView(E: Engine, tp: TablePolicies, db: Database, s: Select)
    requires Viewable(s, tp)
    ensures Meaning(E, db, OnePass(s, tp)) == Meaning(E, View(E, tp, db), OnePass(s, NoFilters(tp)))
    decreases s
  {
    var t, o1, o2 := Shaped(s, tp), OnePassMap(s, tp), OnePassMap(s, NoFilters(tp));
    var sub: Results := map k | k in SelKids(t) :: Meaning(E, db, Get(o1, k));
    OnePassShape(s, tp);
    FilteredKids(t, o1, SelConditions(t, tp));
    forall k | k in SelKids(t)
      ensures sub[k] == Meaning(E, View(E, tp, db), Get(o2, k))
    {
      ShapedKids(s, tp, k);
      OnePassOnView(E, tp, db, k);
    }
    KidsServe(E, db, t, o1, OnePass(s, tp), sub);
    KidsServe(E, View(E, tp, db), t, o2, OnePass(s, NoFilters(tp)), sub);
    RunView(E, tp, db, sub, KidResults(E, db, OnePass(s, tp)),
      KidResults(E, View(E, tp, db), OnePass(s, NoFilters(tp))), o1, o2, t);
  }

  // ----- the nested walk -----

  lemma {:induction false} UnfilteredWithout(s: Select, tp: TablePolicies)
    ensures Unfiltered(s, NoFilters(tp))
    decreases s
  {
    ConditionsNoFilters(SelAliasMap(s, NoFilters(tp)), tp, {});
    forall k | k in SelKids(s) { UnfilteredWithout(k, tp); }
  }

  /** Without row filters no name is lost. */
  lemma {:induction false} NoFiltersKeepNames(s: Select, tp: TablePolicies)
    ensures NamesKept(s, NoFilters(tp))
    decreases s
  {
    forall t | true ensures !FilteredBelow(t, NoFilters(tp)) {
      forall k | k in SelKids(t) { UnfilteredWithout(k, tp); }
    }
    forall k | k in SelKids(s) { NoFiltersKeepNames(k, tp); }
  }

  /**
   What the rewritten query computes on the database is what the query rewritten without
   row filters computes on the view, where each protected table shows only the rows on
   which all its filters are true.
   */
  lemma {:induction false} RowFiltersAreViews(E: Engine, tp: TablePolicies, db: Database, s: Select)
    requires Viewable(s, tp) && NamesKept(s, tp)
    ensures Meaning(E, db, Rewrite(s, tp)) == Meaning(E, View(E, tp, db), Rewrite(s, NoFilters(tp)))
  {
    NoFiltersKeepNames(s, tp);
    RewriteMeansOnePass(E, db, s, tp);
    RewriteMeansOnePass(E, View(E, tp, db), s, NoFilters(tp));
    OnePassOnView(E, tp, db, s);
  }

  // ----- a condition on the query alone -----

  /** In every SELECT of the tree the sources are distinct and no projection holds a SELECT. */
  predicate FlatProjections(s: Select, tp: TablePolicies)
    decreases s
  {
    SourcesDistinct(s.sources, tp) && KidsL(s.projs) == [] && forall k | k in SelKids(s) :: FlatProjections(k, tp)
  }

  lemma {:induction false} NoKidsNoChange(q: Expr, o1: Subst, o2: Subst, am: AliasMap, tp: TablePolicies)
    requires Kids(q) == []
    ensures SameFate(q, o1, o2, am, tp)
  {
    ApplyNothing(q, o1);
    ApplyNothing(q, o2);
  }

  /** Such trees meet what the theorem asks. */
  lemma {:induction false} FlatIsViewable(s: Select, tp: TablePolicies)
    requires FlatProjections(s, tp)
    ensures Viewable(s, tp) && Shallow(s)
    decreases s
  {
    forall q | q in Listed(s, tp)
      ensures SameFate(q, OnePassMap(s, tp), OnePassMap(s, NoFilters(tp)), SelAliasMap(s, tp), tp)
    {
      forall k | k in Kids(q) ensures false { ListedFrom(s, tp, q, k); }
      EmptyOrInhabited(Kids(q));
      NoKidsNoChange(q, OnePassMap(s, tp), OnePassMap(s, NoFilters(tp)), SelAliasMap(s, tp), tp);
    }
    forall k | k in SelKids(s) { FlatIsViewable(k, tp); }
  }

  /** A query without SELECTs in projections sees the view. */
  lemma {:induction false} FlatQueriesSeeTheView(E: Engine, tp: TablePolicies, db: Database, s: Select)
    requires FlatProjections(s, tp)
    ensures Meaning(E, db, Rewrite(s, tp)) == Meaning(E, View(E, tp, db), Rewrite(s, NoFilters(tp)))
  {
    FlatIsViewable(s, tp);
    ShallowKeepsNames(s, tp);
    RowFiltersAreViews(E, tp, db, s);
  }
}
