/**
 Expressions over a tokenized column.  The metadata lists the alias of the expression or else the
 column's own name; without an alias the heading is neither, so what comes back is not tokenized.
 */
module UnaliasedTokens {
  import opened Wrappers
  import opened Text
  import opened Policies
  import opened SqlSyntax
  import opened Rewriter
  import opened VisitFacts
  import opened RepeatedVisits
  import opened References
  import opened Semantics
  import opened Hardening
  import opened NonInterference
  import opened RewriteLog
  import opened OneTable
  import opened MaskedOutput

  /** Column `c` of table `n` is tokenized, and nothing else is restricted. */
  function Tokenizing(n: string, c: string): TablePolicies {
    map[n := Decision(n, true, [], [], [c], [], false, false, [], [c])]
  }

  /** f(c) AS x, or f(c) where `x` is empty. */
  function Computed(f: string, c: string, x: string): Expr {
    var e := Op(f, Col("", c), Null);
    if x == "" then e else Alias(e, x)
  }

  lemma {:induction false} ComputedSimple(f: string, c: string, x: string)
    ensures Simple(Computed(f, c, x))
  {
    var e := Op(f, Col("", c), Null);
    assert Kids(e) == [] && !HasAgg(Col("", c)) && !HasAgg(Null) && !HasAgg(e);
  }

  lemma {:induction false} TokenResolves(am: AliasMap, n: string, c: string)
    requires am != [] && forall e | e in am :: e.key == n
    ensures FirstRestricting(am, Tokenizing(n, c), c) == Verdict(Tokenize, c, None)
  {
    assert am[0] in am && [c][0] == c;
    assert ListedAnyCase(c, [c]) && !ListedAnyCase(c, []);
  }

  lemma {:induction false} TokenVerdict(am: AliasMap, n: string, f: string, c: string, x: string)
    requires am != [] && (forall e | e in am :: e.key == n) && c != ""
    ensures var p := Computed(f, c, x);
            && Keeps(p, am, Tokenizing(n, c))
            && ProjEvents(p, am, Tokenizing(n, c)) == [Tokenized(FirstNonEmpty(x, c), c)]
  {
    var p := Computed(f, c, x);
    TokenResolves(am, n, c);
    assert Refs(Inner(p)) == [Ref("", c)] && [Ref("", c)][1..] == [];
    assert Judge(Refs(Inner(p)), am, Tokenizing(n, c)) == Verdict(Tokenize, c, None);
    KeptProjEvents(p, am, Tokenizing(n, c));
  }

  lemma {:induction false} OnlyKey(n: string, a: string, c: string)
    ensures var am := BuildAliasMap([Table(n, a)], Tokenizing(n, c)); am != [] && forall e | e in am :: e.key == n
  {
    assert [Table(n, a)][..0] == [] && BuildAliasMap([], Tokenizing(n, c)) == [];
    AssignMembers([], BindName(Table(n, a)), n);
    AssignMembers(Assign([], BindName(Table(n, a)), n), n, n);
  }

  lemma {:induction false} NothingFiltered(s: Select, n: string, c: string)
    ensures SelConditions(s, Tokenizing(n, c)) == []
  {
    ConditionsAreFilters(SelAliasMap(s, Tokenizing(n, c)), Tokenizing(n, c), {});
    EmptyOrInhabited(SelConditions(s, Tokenizing(n, c)));
  }

  lemma {:induction false} ComputedVisit(s: Select, n: string, a: string, f: string, c: string, x: string)
    requires c != "" && s == Ask(n, a, Computed(f, c, x))
    ensures Visit(s, Tokenizing(n, c)) == s
    ensures VisitEvents(s, Tokenizing(n, c)) == [Tokenized(FirstNonEmpty(x, c), c)]
  {
    var tp := Tokenizing(n, c);
    var am := SelAliasMap(s, tp);
    OnlyKey(n, a, c);
    TokenVerdict(am, n, f, c, x);
    NothingFiltered(s, n, c);
    assert s.projs[1..] == [];
    assert ExpandStars(s.projs[1..], am, tp) == [] && ExpandStars(s.projs, am, tp) == s.projs;
    assert RewriteProjs(s.projs, am, tp) == s.projs;
    assert ProjsEvents(s.projs[1..], am, tp) == [];
  }

  lemma {:induction false} LeafEvents(s: Select, tp: TablePolicies)
    requires SelKids(s) == [] && Visit(s, tp) == s
    ensures Rewrite(s, tp) == s && RewriteEvents(s, tp) == VisitEvents(s, tp)
  {
    LeafWalk(s, tp);
    assert WalkListEvents(Depth(s), [], tp) == [];
  }

  lemma {:induction false} OneToken(key: string, c: string)
    ensures NamedBy(RecordAll(EmptyMeta, [Tokenized(key, c)]), true) == {key}
  {
    var e := Tokenized(key, c);
    assert [e][1..] == [] && RecordAll(Record(EmptyMeta, e), []) == Record(EmptyMeta, e);
  }

  /** The query is served as it is, and its alias or else the column is listed. */
  lemma {:induction false} ServedComputed(s: Select, n: string, a: string, f: string, c: string, x: string)
    requires c != "" && s == Ask(n, a, Computed(f, c, x))
    ensures Served(s, Tokenizing(n, c)) == s
    ensures NamedBy(RecordAll(EmptyMeta, RewriteEvents(s, Tokenizing(n, c))), true) == {FirstNonEmpty(x, c)}
  {
    var tp, e := Tokenizing(n, c), Tokenized(FirstNonEmpty(x, c), c);
    ComputedVisit(s, n, a, f, c, x);
    ComputedSimple(f, c, x);
    AskHasNoKids(n, a, Computed(f, c, x));
    LeafEvents(s, tp);
    assert AllDenied(tp) == {};
    OneToken(FirstNonEmpty(x, c), c);
  }

  // ----- what the database makes of it -----

  lemma {:induction false} ComputesFrom(E: Engine, db: Database, n: string, a: string, f: string, c: string, x: string)
    requires forall rows :: E.finish("", rows) == rows
    ensures var out := Meaning(E, db, Ask(n, a, Computed(f, c, x)));
            && out.cols == [x] && |out.rows| == |SourceRel(db, map[], Table(n, a)).rows|
            && forall i | 0 <= i < |out.rows| :: |out.rows[i]| == 1
  {
    var p := Computed(f, c, x);
    ComputedSimple(f, c, x);
    AskHasNoKids(n, a, p);
    LeafRuns(E, db, Ask(n, a, p));
    RunBare(E, db, map[], Table(n, a), p);
  }

  lemma {:induction false} ComputedValue(E: Engine, sub: Results, b: string, f: string, c: string, x: string, v: Value)
    ensures Eval(E, sub, [Binding(b, [c])], [[[v]]], Computed(f, c, x)) == E.op(f, v, VNull)
  {
    var scope, e := [Binding(b, [c])], Op(f, Col("", c), Null);
    assert Hit(scope, Ref("", c), 0, 0);
    assert Answers(scope, Ref("", c), 0, 0);
    assert Eval(E, sub, scope, [[[v]]], Col("", c)) == Lookup(E, scope, [[v]], Ref("", c)) == v;
    assert Eval(E, sub, scope, [[[v]]], e) == E.op(f, v, VNull);
  }

  lemma {:induction false} ComputedCell(E: Engine, n: string, a: string, f: string, c: string, x: string, v: Value)
    requires forall rows :: E.finish("", rows) == rows
    ensures Meaning(E, OneCell(n, c, v), Ask(n, a, Computed(f, c, x))).rows == [[E.op(f, v, VNull)]]
  {
    var scope := [Binding(BindName(Table(n, a)), [c])];
    ComputedSimple(f, c, x);
    ShowsValue(E, n, a, Computed(f, c, x), c, v);
    ComputedValue(E, KidResults(E, OneCell(n, c, v), Ask(n, a, Computed(f, c, x))), BindName(Table(n, a)), f, c, x, v);
  }

  lemma {:induction false} TokensDiffer(n: string, c: string)
    ensures var tp, db := Tokenizing(n, c), OneCell(n, c, VNum(1));
            AgreeOutsideDenied(Strict(tp, true), db, OneCell(n, c, VNum(2))) && FitsTable(tp[n], ColsOf(db, n))
  {
    assert [c][0] == c && ListedAnyCase(c, [c]) && [] + [] + [c] == [c];
    assert Withheld(Strict(Tokenizing(n, c), true), n, c);
  }

  lemma {:induction false} AliasedMatches(E: Engine, st: TablePolicies, db: Database, db': Database, s: Select,
                                          n: string, a: string, f: string, c: string, x: string)
    requires (forall rows :: E.finish("", rows) == rows) && s == Ask(n, a, Computed(f, c, x))
    requires AgreeOutsideDenied(st, db, db')
    ensures Matches({x}, Meaning(E, db, s), Meaning(E, db', s))
  {
    ComputesFrom(E, db, n, a, f, c, x);
    ComputesFrom(E, db', n, a, f, c, x);
  }

  lemma {:induction false} Unlike(out: Relation, out': Relation, v: Value, v': Value, c: string)
    requires out == Relation([""], [[v]]) && out' == Relation([""], [[v']]) && v != v' && c != ""
    ensures !Matches({c}, out, out')
  {
    assert out.cols[0] !in {c} && out.rows[0][0] != out'.rows[0][0];
  }

  lemma {:induction false} UnaliasedShows(E: Engine, s: Select, n: string, a: string, f: string, c: string)
    requires (forall rows :: E.finish("", rows) == rows) && E.op(f, VNum(1), VNull) != E.op(f, VNum(2), VNull)
    requires c != "" && s == Ask(n, a, Computed(f, c, ""))
    ensures !Matches({c}, Meaning(E, OneCell(n, c, VNum(1)), s), Meaning(E, OneCell(n, c, VNum(2)), s))
  {
    var db, db' := OneCell(n, c, VNum(1)), OneCell(n, c, VNum(2));
    ComputesFrom(E, db, n, a, f, c, "");
    ComputesFrom(E, db', n, a, f, c, "");
    ComputedCell(E, n, a, f, c, "", VNum(1));
    ComputedCell(E, n, a, f, c, "", VNum(2));
    Unlike(Meaning(E, db, s), Meaning(E, db', s), E.op(f, VNum(1), VNull), E.op(f, VNum(2), VNull), c);
  }

  /**
   SELECT f(c) AS x FROM n AS a, with c tokenized and an f that tells two values apart, shows the column only
   under a name the metadata lists exactly when there is an alias.
   */
  lemma {:induction false} AliasTokenizesExactly(E: Engine, s: Select, n: string, a: string, f: string, c: string,
                                                 x: string)
    requires (forall rows :: E.finish("", rows) == rows) && E.op(f, VNum(1), VNull) != E.op(f, VNum(2), VNull)
    requires c != "" && s == Ask(n, a, Computed(f, c, x))
    ensures ShowsOnlyNamed(E, Tokenizing(n, c), n, s, true) <==> x != ""
  {
    var tp := Tokenizing(n, c);
    ServedComputed(s, n, a, f, c, x);
    if x != "" {
      forall db, db' | AgreeOutsideDenied(Strict(tp, true), db, db') {
        AliasedMatches(E, Strict(tp, true), db, db', s, n, a, f, c, x);
      }
    } else {
      UnaliasedShows(E, s, n, a, f, c);
      TokensDiffer(n, c);
    }
  }
}
