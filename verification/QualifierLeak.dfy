/**
 Why qualifiers must be spelled as the sources they mean.  The gateway looks a qualifier up
 letter by letter and lets a reference pass when it finds none; a database that folds
 names reads the denied column all the same.
 */
module QualifierLeak {
  import opened Text
  import opened SqlSyntax
  import opened Rewriter
  import opened Congruence
  import opened References
  import opened Semantics
  import opened OneTable

  /** SELECT q.c FROM n AS a. */
  function AskColumn(n: string, a: string, q: string, c: string): Select {
    Ask(n, a, Col(q, c))
  }

  lemma {:induction false} FallsThrough(n: string, a: string, q: string, c: string)
    requires n != "" && SameName(q, BindName(Table(n, a))) && !SpelledAs(q, Table(n, a))
    ensures Keeps(Col(q, c), SelAliasMap(AskColumn(n, a, q, c), Denying(n, c)), Denying(n, c))
  {
    var s, tp := AskColumn(n, a, q, c), Denying(n, c);
    OneSource(n, a, c);
    QualifierFinds(s.sources, tp, 0, n, q);
    assert |Lower(q)| == |q| && |Lower(BindName(Table(n, a)))| == |BindName(Table(n, a))|;
    assert Refs(Col(q, c)) == [Ref(q, c)];
    UnresolvedStays(Col(q, c), Ref(q, c), SelAliasMap(s, tp), tp);
  }

  lemma {:induction false} ReadsCell(E: Engine, b: string, q: string, c: string, v: Value)
    requires SameName(q, b)
    ensures Lookup(E, [Binding(b, [c])], [[v]], Ref(q, c)) == v
  {
    var scope := [Binding(b, [c])];
    assert Hit(scope, Ref(q, c), 0, 0);
    assert Answers(scope, Ref(q, c), 0, 0);
  }

  lemma {:induction false} ColumnTameIn(n: string, a: string, q: string, c: string, db: Database)
    requires n != "" && (q == "" || SpelledAs(q, Table(n, a))) && (q == "" || SameName(q, BindName(Table(n, a))))
    requires FitsTable(Denying(n, c)[n], ColsOf(db, n))
    ensures TameE(Col(q, c), [Table(n, a)], Denying(n, c), db)
  {
    var ss := [Table(n, a)];
    OneSource(n, a, c);
    UnqualifiedSpelled(ss, Denying(n, c));
    ColumnOf(Ref(q, c), ss, db, 0);
    assert Direct(Col(q, c)) == [Ref(q, c)] && Stars(Col(q, c)) == [];
  }

  /**
   SELECT q.c FROM n AS a, with c denied, keeps the column secret exactly when the qualifier is
   absent or spells the alias or the table name letter by letter: of FROM t, t.c does and T.c does not.
   */
  lemma {:induction false} QualifierKeepsSecretExactly(E: Engine, n: string, a: string, q: string, c: string)
    requires n != "" && (q == "" || SameName(q, BindName(Table(n, a)))) && forall rows :: E.finish("", rows) == rows
    ensures KeepsSecret(E, Denying(n, c), n, AskColumn(n, a, q, c)) <==> q == "" || SpelledAs(q, Table(n, a))
  {
    if q == "" || SpelledAs(q, Table(n, a)) {
      forall db | FitsTable(Denying(n, c)[n], ColsOf(db, n)) { ColumnTameIn(n, a, q, c, db); }
      TameKeepsSecret(E, n, a, Col(q, c), c);
    } else {
      FallsThrough(n, a, q, c);
      ReadsCell(E, BindName(Table(n, a)), q, c, VNum(1));
      ReadsCell(E, BindName(Table(n, a)), q, c, VNum(2));
      StayingShows(E, n, a, Col(q, c), c);
    }
  }

  /** SELECT T.ssn FROM t shows the denied ssn. */
  lemma {:induction false} UpperCaseLeaks(E: Engine)
    requires forall rows :: E.finish("", rows) == rows
    ensures !KeepsSecret(E, Denying("t", "ssn"), "t", AskColumn("t", "", "T", "ssn"))
  {
    assert Lower("T") == "t" == Lower("t");
    QualifierKeepsSecretExactly(E, "t", "", "T", "ssn");
  }
}
