/**
 Queries `SELECT p FROM n AS a` on a table with one denied column: what it takes for the
 gateway to leave such a query alone, and what it computes on a table of one row.
 */
module OneTable {
  import opened Wrappers
  import opened Text
  import opened Policies
  import opened SqlSyntax
  import opened Rewriter
  import opened References
  import opened Semantics
  import opened Hardening
  import opened NonInterference

  /** Column `c` of table `n` is denied, and nothing else is restricted. */
  function Denying(n: string, c: string): TablePolicies {
    map[n := Decision(n, true, [c], [], [], [], false, false, [], [c])]
  }

  /** SELECT p FROM a source. */
  function Bare(p: Expr, src: Source): Select {
    Select([p], [src], [], None, [], None, [], "")
  }

  /** SELECT p FROM n AS a. */
  function Ask(n: string, a: string, p: Expr): Select {
    Bare(p, Table(n, a))
  }

  function OneCell(n: string, c: string, v: Value): Database {
    map[n := Relation([c], [[v]])]
  }

  /** A projection that holds no SELECT and no aggregate and is no star. */
  predicate Simple(p: Expr) {
    Kids(p) == [] && !HasAgg(p) && !p.Star? && !p.QualStar?
  }

  lemma {:induction false} OneSource(n: string, a: string, c: string)
    requires n != ""
    ensures AliasesClear([Table(n, a)]) && Governed([Table(n, a)], 0, n, Denying(n, c))
  {
  }

  // ----- the gateway leaves the query as it is -----

  lemma {:induction false} NoConditions(s: Select, n: string, c: string)
    ensures SelConditions(s, Denying(n, c)) == []
  {
    var tp := Denying(n, c);
    ConditionsAreFilters(SelAliasMap(s, tp), tp, {});
    EmptyOrInhabited(SelConditions(s, tp));
  }

  lemma {:induction false} AskHasNoKids(n: string, a: string, p: Expr)
    requires Kids(p) == []
    ensures SelKids(Ask(n, a, p)) == []
  {
    var s := Ask(n, a, p);
    assert Kids(s.projs[0]) == [] && !s.sources[0].Derived?;
    EmptyOrInhabited(SelKids(s));
  }

  lemma {:induction false} VisitLeavesAsk(n: string, a: string, p: Expr, c: string)
    requires Simple(p) && Keeps(p, SelAliasMap(Ask(n, a, p), Denying(n, c)), Denying(n, c))
    ensures Visit(Ask(n, a, p), Denying(n, c)) == Ask(n, a, p)
  {
    var s, tp := Ask(n, a, p), Denying(n, c);
    NoConditions(s, n, c);
    assert s.projs[1..] == [] && ExpandStars(s.projs[1..], SelAliasMap(s, tp), tp) == [];
    assert ExpandStars(s.projs, SelAliasMap(s, tp), tp) == s.projs;
    assert RewriteProjs(s.projs, SelAliasMap(s, tp), tp) == s.projs;
  }

  lemma {:induction false} PassesThrough(n: string, a: string, p: Expr, c: string)
    requires Simple(p) && Keeps(p, SelAliasMap(Ask(n, a, p), Denying(n, c)), Denying(n, c))
    ensures RewriteQuery(Leaf(Ask(n, a, p)), Denying(n, c)) == Leaf(Ask(n, a, p))
  {
    var s, tp := Ask(n, a, p), Denying(n, c);
    AskHasNoKids(n, a, p);
    SelApplyNothing(s, WalkMap(s, tp));
    RewriteUnfolds(s, tp);
    VisitLeavesAsk(n, a, p, c);
  }

  /** A projection whose only reference resolves to nothing stays. */
  lemma {:induction false} UnresolvedStays(p: Expr, r: Ref, am: AliasMap, tp: TablePolicies)
    requires Refs(Inner(p)) == [r] && Resolve(r, am, tp) == NoVerdict
    ensures Keeps(p, am, tp) && Judge(Refs(Inner(p)), am, tp) == NoVerdict
  {
    assert [r][1..] == [];
  }

  // ----- what the database computes -----

  /** What the projection makes of one row with the value in its only column. */
  ghost function Shows(E: Engine, n: string, a: string, p: Expr, c: string, v: Value): Value {
    Eval(E, KidResults(E, OneCell(n, c, v), Ask(n, a, p)), [Binding(BindName(Table(n, a)), [c])], [[[v]]], p)
  }

  lemma {:induction false} SingleSource(db: Database, sub: Results, src: Source)
    ensures ScopeOf(db, sub, [src]) == [Binding(BindName(src), SourceRel(db, sub, src).cols)]
    ensures RowLists(db, sub, [src]) == [SourceRel(db, sub, src).rows]
  {
  }

  /** The product of one list is that list. */
  lemma {:induction false} CrossSingle(rows: seq<Row>)
    ensures |Cross([rows])| == |rows| && forall i | 0 <= i < |rows| :: Cross([rows])[i] == [rows[i]]
  {
    var none: seq<Tuple> := [[]];
    assert [rows][1..] == [] && Cross([]) == none;
    ProductSingle(rows, none);
  }

  lemma {:induction false} ProductSingle(rows: seq<Row>, none: seq<Tuple>)
    requires none == [[]]
    ensures |Product(rows, none)| == |rows| && forall i | 0 <= i < |rows| :: Product(rows, none)[i] == [rows[i]]
  {
    if rows != [] {
      ProductSingle(rows[1..], none);
      assert [rows[0]] + none[0] == [rows[0]];
      assert Prepend(rows[0], none) == [[rows[0]]];
    }
  }

  lemma {:induction false} AllPass(E: Engine, sub: Results, scope: Scope, s: Select, ts: seq<Tuple>)
    requires s.ons == [] && s.where == None
    ensures Kept(E, sub, scope, s, ts) == ts
  {
    if ts != [] { AllPass(E, sub, scope, s, ts[1..]); }
  }

  lemma {:induction false} AllHave(E: Engine, sub: Results, scope: Scope, gs: seq<Group>)
    ensures Having(E, sub, scope, None, gs) == gs
  {
    if gs != [] { AllHave(E, sub, scope, gs[1..]); }
  }

  /** A bare SELECT of a simple projection computes one value for each row of its source. */
  lemma {:induction false} RunBare(E: Engine, db: Database, sub: Results, src: Source, p: Expr)
    requires Simple(p) && forall rows :: E.finish("", rows) == rows
    ensures var rel, out := SourceRel(db, sub, src), Run(E, db, sub, Bare(p, src));
            && out.cols == OutNames([Binding(BindName(src), rel.cols)], p) && |out.rows| == |rel.rows|
            && forall i | 0 <= i < |rel.rows| ::
                 out.rows[i] == [Eval(E, sub, [Binding(BindName(src), rel.cols)], [[rel.rows[i]]], p)]
  {
    var s, scope, rel := Bare(p, src), ScopeOf(db, sub, [src]), SourceRel(db, sub, src);
    var ts := Cross([rel.rows]);
    SingleSource(db, sub, src);
    CrossSingle(rel.rows);
    AllPass(E, sub, scope, s, ts);
    AllHave(E, sub, scope, Singletons(ts));
    assert !Aggregates(s) && s.projs[1..] == [];
    assert Ordered(E, sub, scope, s.order, Singletons(ts)) == Singletons(ts);
    forall i | 0 <= i < |ts|
      ensures OutRow(E, sub, scope, [ts[i]], s.projs) == [Eval(E, sub, scope, [ts[i]], p)]
    {
      assert OutRow(E, sub, scope, [ts[i]], s.projs[1..]) == [];
    }
    assert OutCols(scope, s.projs[1..]) == [];
  }

  lemma {:induction false} ShowsValue(E: Engine, n: string, a: string, p: Expr, c: string, v: Value)
    requires Simple(p) && forall rows :: E.finish("", rows) == rows
    ensures Meaning(E, OneCell(n, c, v), Ask(n, a, p)).rows == [[Shows(E, n, a, p, c, v)]]
  {
    var db := OneCell(n, c, v);
    RunBare(E, db, KidResults(E, db, Ask(n, a, p)), Table(n, a), p);
  }

  // ----- secrets -----

  /** The answer to the rewritten query does not depend on the denied column. */
  ghost predicate KeepsSecret(E: Engine, tp: TablePolicies, n: string, s: Select)
    requires n in tp
  {
    var t := RewriteQuery(Leaf(s), tp);
    forall db, db' | AgreeOutsideDenied(tp, db, db') && FitsTable(tp[n], ColsOf(db, n)) ::
      TreeMeaning(E, db, t) == TreeMeaning(E, db', t)
  }

  lemma {:induction false} AskIsClean(n: string, a: string, p: Expr, c: string, db: Database)
    requires n != "" && Simple(p) && FitsTable(Denying(n, c)[n], ColsOf(db, n))
    requires TameE(p, [Table(n, a)], Denying(n, c), db)
    ensures QueryClean(Leaf(Ask(n, a, p)), Denying(n, c), db) && FiltersReadable(Denying(n, c))
  {
    var s, tp := Ask(n, a, p), Denying(n, c);
    OneSource(n, a, c);
    assert FitsSources(s.sources, tp, db) && Tame(s, tp, db) && CleanBefore(s, tp, db);
    AskHasNoKids(n, a, p);
  }

  lemma {:induction false} TameKeepsSecret(E: Engine, n: string, a: string, p: Expr, c: string)
    requires n != "" && Simple(p)
    requires forall db | FitsTable(Denying(n, c)[n], ColsOf(db, n)) :: TameE(p, [Table(n, a)], Denying(n, c), db)
    ensures KeepsSecret(E, Denying(n, c), n, Ask(n, a, p))
  {
    var s, tp := Ask(n, a, p), Denying(n, c);
    forall db, db' | AgreeOutsideDenied(tp, db, db') && FitsTable(tp[n], ColsOf(db, n))
      ensures TreeMeaning(E, db, RewriteQuery(Leaf(s), tp)) == TreeMeaning(E, db', RewriteQuery(Leaf(s), tp))
    {
      AskIsClean(n, a, p, c, db);
      DeniedColumnsDoNotShow(E, tp, db, db', Leaf(s));
    }
  }

  lemma {:induction false} CellsDiffer(n: string, c: string, v: Value, v': Value)
    ensures var tp, db := Denying(n, c), OneCell(n, c, v);
            AgreeOutsideDenied(tp, db, OneCell(n, c, v')) && FitsTable(tp[n], ColsOf(db, n))
  {
    assert Lower([c][0]) == Lower(c);
    assert ListedAnyCase(c, [c]) && Withheld(Denying(n, c), n, c);
  }

  /** A projection that stays and tells two values apart shows the column. */
  lemma {:induction false} StayingShows(E: Engine, n: string, a: string, p: Expr, c: string)
    requires Simple(p) && Keeps(p, SelAliasMap(Ask(n, a, p), Denying(n, c)), Denying(n, c))
    requires forall rows :: E.finish("", rows) == rows
    requires Shows(E, n, a, p, c, VNum(1)) != Shows(E, n, a, p, c, VNum(2))
    ensures !KeepsSecret(E, Denying(n, c), n, Ask(n, a, p))
  {
    var s := Ask(n, a, p);
    var db, db' := OneCell(n, c, VNum(1)), OneCell(n, c, VNum(2));
    PassesThrough(n, a, p, c);
    ShowsValue(E, n, a, p, c, VNum(1));
    ShowsValue(E, n, a, p, c, VNum(2));
    CellsDiffer(n, c, VNum(1), VNum(2));
    assert TreeMeaning(E, db, Leaf(s)).rows != TreeMeaning(E, db', Leaf(s)).rows;
  }
}
