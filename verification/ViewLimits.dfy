/**
 Where row filters are no views.  A self-join leaves its second copy unfiltered, and the
 filter of a nested SELECT may suppress the projection that holds it.
 */
module ViewLimits {
  import opened Wrappers
  import opened Text
  import opened Policies
  import opened SqlSyntax
  import opened Rewriter
  import opened VisitFacts
  import opened RepeatedVisits
  import opened Semantics
  import opened FilteredView
  import opened SelfJoins
  import opened OneTable
  import D = DeepProjections

  // ----- a self-join -----

  const ONLY_X := RowFilter("c", "=", "x")
  const POLICY: TablePolicies := map["t" := Decision("t", true, [], [], [], [ONLY_X], false, false, [], ["c"])]
  const TWO_ROWS: Database := map["t" := Relation(["c"], [[VText("x")], [VText("y")]])]

  /** SELECT b.c FROM t AS a, t AS b WHERE ... */
  function SelfJoin(where: Option<Expr>): Select {
    Select([Col("b", "c")], [Table("t", "a"), Table("t", "b")], [], where, [], None, [], "")
  }

  /** Equality of texts is what the engine takes it to be, and nothing follows the projections. */
  ghost predicate ComparesTexts(E: Engine) {
    && (forall p, q :: E.op("EQ", VText(p), VText(q)) == VBool(p == q))
    && (forall rows :: E.finish("", rows) == rows)
  }

  lemma {:induction false} SelfJoinHasNoKids(where: Option<Expr>)
    requires KidsO(where) == []
    ensures SelKids(SelfJoin(where)) == []
  {
    var s := SelfJoin(where);
    assert Kids(s.projs[0]) == [] && !s.sources[0].Derived? && !s.sources[1].Derived?;
    EmptyOrInhabited(SelKids(s));
  }

  /** The projection stays whatever the row filters: no column is restricted. */
  lemma {:induction false} NothingSuppressed(am: AliasMap, tp: TablePolicies)
    requires tp == POLICY || tp == NoFilters(POLICY)
    ensures RewriteProjs(ExpandStars([Col("b", "c")], am, tp), am, tp) == [Col("b", "c")]
  {
    ExpandColumns([Col("b", "c")], am, tp);
    Unrestricted(am, tp);
    if Find(am, "b").Some? { Unrestricted([Entry("b", Find(am, "b").value)], tp); }
    var p := Col("b", "c");
    assert Refs(p) == [Ref("b", "c")] && [Ref("b", "c")][1..] == [];
    assert Resolve(Ref("b", "c"), am, tp) == NoVerdict;
    assert Judge(Refs(p), am, tp) == NoVerdict;
    assert RewriteProj(p, am, tp) == p;
    assert ExpandStars([p], am, tp) == [p];
  }

  lemma {:induction false} Unrestricted(am: AliasMap, tp: TablePolicies)
    requires tp == POLICY || tp == NoFilters(POLICY)
    ensures FirstRestricting(am, tp, "c") == NoVerdict
  {
    if am != [] { Unrestricted(am[1..], tp); }
  }

  lemma {:induction false} SelfJoinFiltered(f: Expr)
    requires f == FilterExpr("a", ONLY_X)
    ensures Rewrite(SelfJoin(None), POLICY) == SelfJoin(Some(f))
  {
    var s, am: AliasMap := SelfJoin(None), [Entry("a", "t"), Entry("t", "t"), Entry("b", "t")];
    SelfJoinAliases(s.sources, POLICY, "t", "a", "b");
    SelfJoinConditions(am, f);
    NothingSuppressed(am, POLICY);
    SelfJoinHasNoKids(None);
    SelApplyNothing(s, WalkMap(s, POLICY));
    RewriteUnfolds(s, POLICY);
  }

  lemma {:induction false} SelfJoinConditions(am: AliasMap, f: Expr)
    requires am == [Entry("a", "t"), Entry("t", "t"), Entry("b", "t")] && f == FilterExpr("a", ONLY_X)
    ensures Conditions(am, POLICY, {}) == [f]
  {
    var fs, seen := [ONLY_X], Marked("t", [ONLY_X]);
    assert FiltersOf(POLICY, "t") == fs && fs[1..] == [];
    assert OwnConditions("a", "t", [], {} + {("t", ONLY_X)}) == [];
    AllSeen("t", "t", fs, {} + seen);
    AllSeen("b", "t", fs, {} + seen + seen);
    assert am[1..][0] == Entry("t", "t") && am[1..][1..][0] == Entry("b", "t") && am[1..][1..][1..] == [];
    assert Conditions([], POLICY, {} + seen + seen + seen) == [];
    assert Conditions(am[1..][1..], POLICY, {} + seen + seen) == [];
    assert Conditions(am[1..], POLICY, {} + seen) == [];
  }

  lemma {:induction false} SelfJoinUnfiltered()
    ensures Rewrite(SelfJoin(None), NoFilters(POLICY)) == SelfJoin(None)
  {
    var s, tp := SelfJoin(None), NoFilters(POLICY);
    ConditionsNoFilters(SelAliasMap(s, tp), POLICY, {});
    NothingSuppressed(SelAliasMap(s, tp), tp);
    SelfJoinHasNoKids(None);
    SelApplyNothing(s, WalkMap(s, tp));
    RewriteUnfolds(s, tp);
  }

  // How many rows the two queries compute.

  /** Without grouping, ORDER BY and DISTINCT there is one row for each tuple that passes WHERE. */
  lemma {:induction false} RowPerTuple(E: Engine, sub: Results, scope: Scope, where: Option<Expr>, kept: seq<Tuple>)
    requires ComparesTexts(E)
    ensures |Finish(E, sub, scope, SelfJoin(where), kept).rows| == |kept|
  {
    var s := SelfJoin(where);
    assert !Aggregates(s);
    AllHave(E, sub, scope, Singletons(kept));
    assert |OutRows(E, sub, scope, s.projs, Singletons(kept))| == |kept|;
  }

  function Pair(p: string, q: string): Tuple {
    [[VText(p)], [VText(q)]]
  }

  lemma {:induction false} CrossOne(x: string, y: string)
    ensures Cross([[[VText(x)]], [[VText(y)]]]) == [Pair(x, y)]
  {
    var nil: seq<Tuple> := [[]];
    var one, two: seq<seq<Row>> := [[VText(x)]], [[[VText(y)]]];
    assert ([one] + two)[1..] == two && [one] + two == [[[VText(x)]], [[VText(y)]]];
    assert two[1..] == [] && Cross([]) == nil;
    var ys: seq<Tuple> := [[[VText(y)]]];
    assert [VText(y)] == [VText(y)] && Prepend([VText(y)], nil) == ys by { assert [[VText(y)]] + nil[0] == ys[0]; }
    assert [[VText(y)]][1..] == [] && Product([[VText(y)]], nil) == ys + Product([], nil);
    assert Cross(two) == ys;
    assert Prepend([VText(x)], ys) == [Pair(x, y)] by { assert [[VText(x)]] + ys[0] == Pair(x, y); }
    assert one[1..] == [] && Product(one, ys) == [Pair(x, y)] + Product([], ys);
  }

  lemma {:induction false} CrossTwo(rows: seq<Row>)
    requires rows == [[VText("x")], [VText("y")]]
    ensures Cross([rows, rows]) == [Pair("x", "x"), Pair("x", "y"), Pair("y", "x"), Pair("y", "y")]
  {
    var nil: seq<Tuple> := [[]];
    var ts: seq<Tuple> := [[[VText("x")]], [[VText("y")]]];
    assert [rows, rows][1..] == [rows] && [rows][1..] == [] && Cross([]) == nil;
    assert rows[1..] == [[VText("y")]] && rows[1..][1..] == [];
    assert Prepend(rows[0], nil) == [ts[0]] by { assert [rows[0]] + nil[0] == ts[0]; }
    assert Prepend(rows[1], nil) == [ts[1]] by { assert [rows[1]] + nil[0] == ts[1]; }
    assert Product(rows[1..], nil) == [ts[1]] + Product(rows[1..][1..], nil) == [ts[1]];
    assert Cross([rows]) == Product(rows, nil) == ts;
    assert [rows[0]] + ts[0] == Pair("x", "x") && [rows[0]] + ts[1] == Pair("x", "y");
    assert [rows[1]] + ts[0] == Pair("y", "x") && [rows[1]] + ts[1] == Pair("y", "y");
    assert Prepend(rows[0], ts) == [Pair("x", "x"), Pair("x", "y")];
    assert Prepend(rows[1], ts) == [Pair("y", "x"), Pair("y", "y")];
    assert Product(rows[1..], ts) == Prepend(rows[1], ts) + Product(rows[1..][1..], ts) == Prepend(rows[1], ts);
  }

  lemma {:induction false} FilterReads(E: Engine, sub: Results, scope: Scope, name: string, t: Tuple, p: string)
    requires ComparesTexts(E) && name != "" && |scope| >= 1 && |t| >= 1
    requires scope[0] == Binding(name, ["c"]) && t[0] == [VText(p)]
    requires forall i | 0 < i < |scope| :: scope[i].name in {"b"}
    requires name in {"a", "t"}
    ensures (TruthOf(Eval(E, sub, scope, [t], FilterExpr(name, ONLY_X))) == True) <==> p == "x"
  {
    assert |name| == 1 && LowerOf(name) && LowerOf("b");
    assert Hit(scope, Ref(name, "c"), 0, 0);
    assert Answers(scope, Ref(name, "c"), 0, 0);
    assert Lookup(E, scope, t, Ref(name, "c")) == VText(p);
    assert FilterExpr(name, ONLY_X) == Op("EQ", Col(name, "c"), Lit("x"));
    assert Eval(E, sub, scope, [t], Col(name, "c")) == VText(p);
    assert Eval(E, sub, scope, [t], Lit("x")) == VText("x");
  }

  /** The name is in lower case. */
  predicate LowerOf(name: string) {
    Lower(name) == name
  }

  lemma {:induction false} KeptFour(E: Engine, sub: Results, scope: Scope, s: Select, a: Tuple, b: Tuple, c: Tuple,
                                    d: Tuple)
    requires Passes(E, sub, scope, s, a) && Passes(E, sub, scope, s, b)
    requires !Passes(E, sub, scope, s, c) && !Passes(E, sub, scope, s, d)
    ensures Kept(E, sub, scope, s, [a, b, c, d]) == [a, b]
  {
    var ts := [a, b, c, d];
    assert ts[1..] == [b, c, d] && ts[1..][1..] == [c, d] && ts[1..][1..][1..] == [d] && [d][1..] == [];
    assert Kept(E, sub, scope, s, [d]) == [];
    assert Kept(E, sub, scope, s, [c, d]) == [];
    assert Kept(E, sub, scope, s, [b, c, d]) == [b];
  }

  lemma {:induction false} FilteredRows(E: Engine, f: Expr)
    requires ComparesTexts(E) && f == FilterExpr("a", ONLY_X)
    ensures |Meaning(E, TWO_ROWS, SelfJoin(Some(f))).rows| == 2
  {
    var s := SelfJoin(Some(f));
    var sub := KidResults(E, TWO_ROWS, s);
    var scope, rows := ScopeOf(TWO_ROWS, sub, s.sources), TWO_ROWS["t"].rows;
    assert scope == [Binding("a", ["c"]), Binding("b", ["c"])];
    assert RowLists(TWO_ROWS, sub, s.sources) == [rows, rows];
    CrossTwo(rows);
    FilterReads(E, sub, scope, "a", Pair("x", "x"), "x");
    FilterReads(E, sub, scope, "a", Pair("x", "y"), "x");
    FilterReads(E, sub, scope, "a", Pair("y", "x"), "y");
    FilterReads(E, sub, scope, "a", Pair("y", "y"), "y");
    KeptFour(E, sub, scope, s, Pair("x", "x"), Pair("x", "y"), Pair("y", "x"), Pair("y", "y"));
    RowPerTuple(E, sub, scope, Some(f), [Pair("x", "x"), Pair("x", "y")]);
  }

  lemma {:induction false} VisibleOfTwo(E: Engine, rows: seq<Row>)
    requires ComparesTexts(E) && rows == [[VText("x")], [VText("y")]]
    ensures VisibleRows(E, POLICY, "t", ["c"], rows) == [[VText("x")]]
  {
    var scope := [Binding("t", ["c"])];
    FilterReads(E, map[], scope, "t", [rows[0]], "x");
    FilterReads(E, map[], scope, "t", [rows[1]], "y");
    assert POLICY["t"].filters == [ONLY_X] && ONLY_X in POLICY["t"].filters;
    assert FilterTrue(E, ["c"], ONLY_X, rows[0]) && !FilterTrue(E, ["c"], ONLY_X, rows[1]);
    assert RowVisible(E, POLICY, "t", ["c"], rows[0]) && !RowVisible(E, POLICY, "t", ["c"], rows[1]);
    assert rows[1..] == [rows[1]] && rows[1..][1..] == [];
    assert VisibleRows(E, POLICY, "t", ["c"], rows[1..]) == [];
  }

  lemma {:induction false} ViewOfTwo(E: Engine)
    requires ComparesTexts(E)
    ensures View(E, POLICY, TWO_ROWS) == map["t" := Relation(["c"], [[VText("x")]])]
  {
    VisibleOfTwo(E, TWO_ROWS["t"].rows);
    assert View(E, POLICY, TWO_ROWS).Keys == {"t"};
    assert View(E, POLICY, TWO_ROWS)["t"] == Relation(["c"], [[VText("x")]]);
  }

  lemma {:induction false} ViewRowsOnly(E: Engine, db: Database)
    requires ComparesTexts(E) && db == map["t" := Relation(["c"], [[VText("x")]])]
    ensures |Meaning(E, db, SelfJoin(None)).rows| == 1
  {
    var s := SelfJoin(None);
    var sub := KidResults(E, db, s);
    var scope, t := ScopeOf(db, sub, s.sources), Pair("x", "x");
    assert RowLists(db, sub, s.sources) == [[[VText("x")]], [[VText("x")]]];
    CrossOne("x", "x");
    assert Passes(E, sub, scope, s, t) && [t][1..] == [];
    assert Kept(E, sub, scope, s, [t][1..]) == [] && Kept(E, sub, scope, s, [t]) == [t];
    RowPerTuple(E, sub, scope, None, [t]);
  }

  /** SELECT b.c FROM t AS a, t AS b shows a row of t that the view hides. */
  lemma {:induction false} SelfJoinShowsMore(E: Engine)
    requires ComparesTexts(E)
    ensures |Meaning(E, TWO_ROWS, Rewrite(SelfJoin(None), POLICY)).rows| == 2
    ensures |Meaning(E, View(E, POLICY, TWO_ROWS), Rewrite(SelfJoin(None), NoFilters(POLICY))).rows| == 1
  {
    var f := FilterExpr("a", ONLY_X);
    SelfJoinFiltered(f);
    FilteredRows(E, f);
    SelfJoinUnfiltered();
    ViewOfTwo(E);
    ViewRowsOnly(E, View(E, POLICY, TWO_ROWS));
  }

  // ----- a SELECT in a projection -----

  lemma {:induction false} VisitOverFilter(f: Expr)
    requires Refs(f) == [Ref("t", "region")]
    ensures Visit(D.OuterQuery(D.InnerQuery(Some(f))), D.POLICIES).projs == [Alias(Null, "region")]
  {
    var s, am: AliasMap := D.OuterQuery(D.InnerQuery(Some(f))), [Entry("t", "t")];
    D.AliasesOfT(s);
    assert s.projs[1..] == [];
    assert ExpandStars([], am, D.POLICIES) == [];
    assert ExpandStars(s.projs, am, D.POLICIES) == s.projs;
    D.RefsOfInner(Some(f));
    assert Refs(s.projs[0]) == [Ref("t", "region")];
    D.RegionIsDenied(Refs(s.projs[0]));
  }

  lemma {:induction false} VisitWithout(s: Select)
    requires s.sources == [Table("t", "")] && |s.projs| == 1 && !s.projs[0].Star? && !s.projs[0].QualStar?
    requires Refs(Inner(s.projs[0])) == []
    ensures Visit(s, NoFilters(D.POLICIES)) == s
  {
    var tp := NoFilters(D.POLICIES);
    var am := SelAliasMap(s, tp);
    ConditionsNoFilters(am, D.POLICIES, {});
    assert s.projs[1..] == [] && ExpandStars(s.projs[1..], am, tp) == [];
    assert ExpandStars(s.projs, am, tp) == s.projs;
    assert RewriteProjs(s.projs, am, tp) == s.projs;
  }

  lemma {:induction false} LeafUnchanged(inner: Select, tp: TablePolicies)
    requires SelKids(inner) == [] && Visit(inner, tp) == inner
    ensures Walk(Rewrite(inner, tp), tp) == inner
  {
    LeafVisitedOnce(inner, tp);
    LeafOnePass(inner, tp);
  }

  lemma {:induction false} OuterUnchanged(inner: Select, tp: TablePolicies)
    requires SelKids(inner) == [] && Visit(inner, tp) == inner && Visit(D.OuterQuery(inner), tp) == D.OuterQuery(inner)
    ensures Rewrite(D.OuterQuery(inner), tp) == D.OuterQuery(inner)
  {
    LeafUnchanged(inner, tp);
    D.RewriteOuter(inner, inner, tp);
  }

  lemma {:induction false} InnerWithout(inner: Select)
    requires inner.sources == [Table("t", "")] && inner.projs == [Lit("1")]
    ensures Visit(inner, NoFilters(D.POLICIES)) == inner
  {
    assert Refs(Inner(inner.projs[0])) == [];
    VisitWithout(inner);
  }

  lemma {:induction false} OuterWithout(inner: Select)
    requires SelRefs(inner) == []
    ensures Visit(D.OuterQuery(inner), NoFilters(D.POLICIES)) == D.OuterQuery(inner)
  {
    var q := D.OuterQuery(inner);
    assert Inner(q.projs[0]) == Sub("SCALAR", Null, inner) && Refs(Sub("SCALAR", Null, inner)) == [] + SelRefs(inner);
    VisitWithout(q);
  }

  // As in DeepProjections, `none` is always None and keeps the query from being rewritten by computation.

  lemma {:induction false} RewriteWithout(none: Option<Expr>, tp: TablePolicies)
    requires none.None? && tp == NoFilters(D.POLICIES)
    ensures Rewrite(D.OuterQuery(D.InnerQuery(none)), tp) == D.OuterQuery(D.InnerQuery(none))
  {
    D.InnerIsLeaf(none);
    InnerWithout(D.InnerQuery(none));
    D.RefsOfInner(none);
    OuterWithout(D.InnerQuery(none));
    OuterUnchanged(D.InnerQuery(none), tp);
  }

  lemma {:induction false} NestedSuppressed(none: Option<Expr>, f: Expr)
    requires none.None? && D.IsCondition(f)
    ensures Rewrite(D.OuterQuery(D.InnerQuery(none)), D.POLICIES).projs == [Alias(Null, "region")]
  {
    D.RefsOfCondition(f);
    D.LeafFirst(none, f);
    D.RewriteOuter(D.InnerQuery(none), D.InnerQuery(Some(f)), D.POLICIES);
    VisitOverFilter(f);
  }

  lemma {:induction false} HeadingOf(E: Engine, db: Database, s: Select, p: Expr)
    requires s.projs == [p] && (p.Alias? || p.Sub?)
    ensures Meaning(E, db, s).cols == [if p.Alias? then p.name else ""]
  {
    var scope := ScopeOf(db, KidResults(E, db, s), s.sources);
    assert s.projs[1..] == [];
    assert OutCols(scope, s.projs[1..]) == [];
  }

  lemma {:induction false} HeadingsDiffer(E: Engine, db: Database, none: Option<Expr>, p: TablePolicies,
                                          p': TablePolicies)
    requires none.None? && p == D.POLICIES && p' == NoFilters(D.POLICIES)
    ensures Meaning(E, db, Rewrite(D.OuterQuery(D.InnerQuery(none)), p)).cols == ["region"]
    ensures Meaning(E, View(E, p, db), Rewrite(D.OuterQuery(D.InnerQuery(none)), p')).cols == [""]
  {
    NestedSuppressed(none, D.CONDITION);
    HeadingOf(E, db, Rewrite(D.OuterQuery(D.InnerQuery(none)), p), Alias(Null, "region"));
    RewriteWithout(none, p');
    HeadingOf(E, View(E, p, db), D.OuterQuery(D.InnerQuery(none)), Sub("SCALAR", Null, D.InnerQuery(none)));
  }

  /**
   SELECT (SELECT 1 FROM t) FROM t, with region denied and filtered on: the nested filter suppresses
   the projection, which stays without it, on every database and for every engine.
   */
  lemma {:induction false} NestedFilterSuppresses(E: Engine, db: Database)
    ensures var q := D.OuterQuery(D.InnerQuery(None));
            Meaning(E, db, Rewrite(q, D.POLICIES)).cols == ["region"]
            && Meaning(E, View(E, D.POLICIES, db), Rewrite(q, NoFilters(D.POLICIES))).cols == [""]
  {
    HeadingsDiffer(E, db, None, D.POLICIES, NoFilters(D.POLICIES));
  }
}
