/**
 Why no reference may stand for a whole row with a denied column.  The rewriter expands a star
 that is a whole projection and looks up the names of columns; a star inside an expression and
 the name of a source are on no list, so they pass, and a database reads the whole row.
 */
module RowLeak {
  import opened Wrappers
  import opened Text
  import opened Policies
  import opened SqlSyntax
  import opened Rewriter
  import opened Semantics
  import opened Congruence
  import opened References
  import opened OneTable

  /** f(e), and e itself for no f. */
  function Called(f: string, e: Expr): Expr {
    if f == "" then e else Op(f, e, Null)
  }

  ghost function CalledValue(E: Engine, f: string, v: Value): Value {
    if f == "" then v else E.op(f, v, VNull)
  }

  /** The engine does not forget a row that it is given under `how` and calls `f` on. */
  ghost predicate TellsRows(E: Engine, f: string, how: string, c: string) {
    && (forall rows :: E.finish("", rows) == rows)
    && CalledValue(E, f, E.row(how, [c], [VNum(1)])) != CalledValue(E, f, E.row(how, [c], [VNum(2)]))
  }

  /** A reference under another name than the denied column's resolves to nothing. */
  lemma {:induction false} OtherNameUnresolved(r: Ref, am: AliasMap, n: string, c: string)
    requires !SameName(r.name, c)
    ensures Resolve(r, am, Denying(n, c)) == NoVerdict
  {
    OtherNameFree(am, r.name, n, c);
    if Find(am, r.table).Some? { OtherNameFree([Entry(r.table, Find(am, r.table).value)], r.name, n, c); }
  }

  lemma {:induction false} OtherNameFree(am: AliasMap, name: string, n: string, c: string)
    requires !SameName(name, c)
    ensures FirstRestricting(am, Denying(n, c), name) == NoVerdict
  {
    if am != [] {
      assert forall i | 0 <= i < 1 :: [c][i] == c;
      OtherNameFree(am[1..], name, n, c);
    }
  }

  lemma {:induction false} RowOfSource(E: Engine, b: string, q: string, c: string, v: Value, how: string)
    requires SameName(q, b)
    ensures RowValue(E, [Binding(b, [c])], [[v]], Some(q), how) == E.row(how, [c], [v])
  {
    StarAlone([Binding(b, [c])], [[v]], 0, q);
  }

  /** A name no column answers is the row of the source. */
  lemma {:induction false} ReadsRow(E: Engine, b: string, r: Ref, c: string, v: Value)
    requires SameName(RowSource(r), b) && !SameName(r.name, c)
    ensures Lookup(E, [Binding(b, [c])], [[v]], r) == E.row(RowFunction(r), [c], [v])
  {
    assert Unanswered([Binding(b, [c])], r);
    RowOfSource(E, b, RowSource(r), c, v, RowFunction(r));
  }

  lemma {:induction false} CalledSimple(f: string, e: Expr)
    requires (e.Col? || e.QualStar?) && (f == "" ==> e.Col?)
    ensures Simple(Called(f, e)) && Refs(Inner(Called(f, e))) == Refs(e)
    ensures Direct(Called(f, e)) == Direct(e) && Stars(Called(f, e)) == Stars(e)
  {
    assert Kids(e) == [] && Kids(Null) == [] && Refs(Null) == [] && Direct(Null) == [] && Stars(Null) == [];
  }

  lemma {:induction false} CalledEval(E: Engine, sub: Results, scope: Scope, g: Group, f: string, e: Expr)
    ensures Eval(E, sub, scope, g, Called(f, e)) == CalledValue(E, f, Eval(E, sub, scope, g, e))
  {
    assert Eval(E, sub, scope, g, Null) == VNull;
  }

  // ----- the name of a source, and a function in the place of a column -----

  /** The reference stands for the row of the source, or for a function of it. */
  predicate MeansRow(r: Ref, n: string, a: string, c: string) {
    SameName(RowSource(r), BindName(Table(n, a))) && !SameName(r.name, c)
  }

  lemma {:induction false} RowRefStays(n: string, a: string, f: string, r: Ref, c: string)
    requires !SameName(r.name, c)
    ensures var p := Called(f, Col(r.table, r.name));
            Keeps(p, SelAliasMap(Ask(n, a, p), Denying(n, c)), Denying(n, c))
            && Judge(Refs(Inner(p)), SelAliasMap(Ask(n, a, p), Denying(n, c)), Denying(n, c)) == NoVerdict
  {
    var p := Called(f, Col(r.table, r.name));
    CalledSimple(f, Col(r.table, r.name));
    assert Refs(Col(r.table, r.name)) == [r];
    OtherNameUnresolved(r, SelAliasMap(Ask(n, a, p), Denying(n, c)), n, c);
    UnresolvedStays(p, r, SelAliasMap(Ask(n, a, p), Denying(n, c)), Denying(n, c));
  }

  lemma {:induction false} RowRefValue(E: Engine, n: string, a: string, f: string, r: Ref, c: string, v: Value)
    requires MeansRow(r, n, a, c)
    ensures Shows(E, n, a, Called(f, Col(r.table, r.name)), c, v) == CalledValue(E, f, E.row(RowFunction(r), [c], [v]))
  {
    var e := Col(r.table, r.name);
    ReadsRow(E, BindName(Table(n, a)), r, c, v);
    CalledEval(E, KidResults(E, OneCell(n, c, v), Ask(n, a, Called(f, e))), [Binding(BindName(Table(n, a)), [c])],
               [[[v]]], f, e);
  }

  lemma {:induction false} RowRefShows(E: Engine, n: string, a: string, f: string, r: Ref, c: string)
    requires MeansRow(r, n, a, c) && TellsRows(E, f, RowFunction(r), c)
    ensures !KeepsSecret(E, Denying(n, c), n, Ask(n, a, Called(f, Col(r.table, r.name))))
  {
    CalledSimple(f, Col(r.table, r.name));
    RowRefStays(n, a, f, r, c);
    RowRefValue(E, n, a, f, r, c, VNum(1));
    RowRefValue(E, n, a, f, r, c, VNum(2));
    StayingShows(E, n, a, Called(f, Col(r.table, r.name)), c);
  }

  lemma {:induction false} NoRowTame(n: string, a: string, f: string, r: Ref, c: string, db: Database)
    requires n != "" && !MeansRow(r, n, a, c) && FitsTable(Denying(n, c)[n], ColsOf(db, n))
    requires Spelled(r.table, [Table(n, a)], Denying(n, c))
    ensures TameE(Called(f, Col(r.table, r.name)), [Table(n, a)], Denying(n, c), db)
  {
    var ss, e := [Table(n, a)], Col(r.table, r.name);
    CalledSimple(f, e);
    assert Direct(e) == [r] && Stars(e) == [];
    if SameName(RowSource(r), BindName(Table(n, a))) {
      assert SameName(r.name, c) && c in Denying(n, c)[n].denied;
      ColumnOf(r, ss, db, 0);
    }
  }

  /**
   SELECT q FROM n AS a and SELECT f(q) FROM n AS a, with c denied, keep the column secret exactly
   when q is not the source's name in any letter case, or is the column's: then it is the column
   that is denied.
   */
  lemma {:induction false} NameKeepsSecretExactly(E: Engine, n: string, a: string, f: string, q: string, c: string)
    requires n != "" && q != "" && TellsRows(E, f, "", c)
    ensures KeepsSecret(E, Denying(n, c), n, Ask(n, a, Called(f, Col("", q))))
            <==> !SameName(q, BindName(Table(n, a))) || SameName(q, c)
  {
    var r := Ref("", q);
    OneSource(n, a, c);
    UnqualifiedSpelled([Table(n, a)], Denying(n, c));
    if MeansRow(r, n, a, c) {
      RowRefShows(E, n, a, f, r, c);
    } else {
      CalledSimple(f, Col("", q));
      forall db | FitsTable(Denying(n, c)[n], ColsOf(db, n)) { NoRowTame(n, a, f, r, c, db); }
      TameKeepsSecret(E, n, a, Called(f, Col("", q)), c);
    }
  }

  /** SELECT q.f FROM n AS a, f being no column, keeps the column secret exactly when q is not the source's name. */
  lemma {:induction false} AttributeKeepsSecretExactly(E: Engine, n: string, a: string, q: string, f: string, c: string)
    requires n != "" && q != "" && !SameName(f, c) && TellsRows(E, "", f, c)
    ensures KeepsSecret(E, Denying(n, c), n, Ask(n, a, Col(q, f))) <==> !SameName(q, BindName(Table(n, a)))
  {
    var r := Ref(q, f);
    assert Called("", Col(q, f)) == Col(q, f);
    if MeansRow(r, n, a, c) {
      RowRefShows(E, n, a, "", r, c);
    } else {
      CalledSimple("", Col(q, f));
      forall db | FitsTable(Denying(n, c)[n], ColsOf(db, n)) { NoRowTame(n, a, "", r, c, db); }
      TameKeepsSecret(E, n, a, Col(q, f), c);
    }
  }

  // ----- a star inside an expression -----

  lemma {:induction false} StarTame(n: string, a: string, f: string, q: string, c: string, db: Database)
    requires f != "" && !SameName(q, BindName(Table(n, a)))
    ensures TameE(Called(f, QualStar(q)), [Table(n, a)], Denying(n, c), db)
  {
    CalledSimple(f, QualStar(q));
    assert Direct(QualStar(q)) == [] && Stars(QualStar(q)) == [Some(q)];
  }

  lemma {:induction false} StarStays(n: string, a: string, f: string, q: string, c: string)
    requires f != "" && c != "*"
    ensures var p := Called(f, QualStar(q));
            Keeps(p, SelAliasMap(Ask(n, a, p), Denying(n, c)), Denying(n, c))
            && Judge(Refs(Inner(p)), SelAliasMap(Ask(n, a, p), Denying(n, c)), Denying(n, c)) == NoVerdict
  {
    var p := Called(f, QualStar(q));
    var am := SelAliasMap(Ask(n, a, p), Denying(n, c));
    CalledSimple(f, QualStar(q));
    assert |Lower(c)| == |c| && (c != "" ==> Lower(c)[0] == LowerChar(c[0])) && Lower("*") == "*";
    assert |c| == 1 ==> c == [c[0]];
    assert Refs(QualStar(q)) == [Ref(q, "*")];
    OtherNameUnresolved(Ref(q, "*"), am, n, c);
    UnresolvedStays(p, Ref(q, "*"), am, Denying(n, c));
  }

  lemma {:induction false} StarValue(E: Engine, n: string, a: string, f: string, q: string, c: string, v: Value)
    requires SameName(q, BindName(Table(n, a)))
    ensures Shows(E, n, a, Called(f, QualStar(q)), c, v) == CalledValue(E, f, E.row("*", [c], [v]))
  {
    RowOfSource(E, BindName(Table(n, a)), q, c, v, "*");
    CalledEval(E, KidResults(E, OneCell(n, c, v), Ask(n, a, Called(f, QualStar(q)))),
               [Binding(BindName(Table(n, a)), [c])], [[[v]]], f, QualStar(q));
  }

  lemma {:induction false} StarShows(E: Engine, n: string, a: string, f: string, q: string, c: string)
    requires f != "" && SameName(q, BindName(Table(n, a))) && c != "*" && TellsRows(E, f, "*", c)
    ensures !KeepsSecret(E, Denying(n, c), n, Ask(n, a, Called(f, QualStar(q))))
  {
    CalledSimple(f, QualStar(q));
    StarStays(n, a, f, q, c);
    StarValue(E, n, a, f, q, c, VNum(1));
    StarValue(E, n, a, f, q, c, VNum(2));
    StayingShows(E, n, a, Called(f, QualStar(q)), c);
  }

  /** SELECT f(q.*) FROM n AS a, with c denied, keeps the column secret exactly when q is not the source's name. */
  lemma {:induction false} StarKeepsSecretExactly(E: Engine, n: string, a: string, f: string, q: string, c: string)
    requires n != "" && f != "" && c != "*" && TellsRows(E, f, "*", c)
    ensures KeepsSecret(E, Denying(n, c), n, Ask(n, a, Op(f, QualStar(q), Null)))
            <==> !SameName(q, BindName(Table(n, a)))
  {
    if SameName(q, BindName(Table(n, a))) {
      StarShows(E, n, a, f, q, c);
    } else {
      CalledSimple(f, QualStar(q));
      forall db | FitsTable(Denying(n, c)[n], ColsOf(db, n)) { StarTame(n, a, f, q, c, db); }
      TameKeepsSecret(E, n, a, Called(f, QualStar(q)), c);
    }
  }

  /** SELECT to_json(t.*) FROM t and SELECT t FROM t show the denied ssn. */
  lemma {:induction false} WholeRowLeaks(E: Engine)
    requires TellsRows(E, "to_json", "*", "ssn") && TellsRows(E, "", "", "ssn")
    ensures !KeepsSecret(E, Denying("t", "ssn"), "t", Ask("t", "", Op("to_json", QualStar("t"), Null)))
    ensures !KeepsSecret(E, Denying("t", "ssn"), "t", Ask("t", "", Col("", "t")))
  {
    assert |Lower("t")| == 1 && |Lower("ssn")| == 3;
    StarKeepsSecretExactly(E, "t", "", "to_json", "t", "ssn");
    NameKeepsSecretExactly(E, "t", "", "", "t", "ssn");
  }
}
