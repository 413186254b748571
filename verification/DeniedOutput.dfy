/**
 The last line of defence.  Of what comes back from the database the gateway blanks the columns
 that the metadata lists as denied, or every denied column when it lists none, going by the names
 of the output.  A denied column that comes back under its own name is blanked after all; under
 another name, or inside a row, it is not.
 */
module DeniedOutput {
  import opened Text
  import opened Policies
  import opened SqlSyntax
  import opened Rewriter
  import opened References
  import opened Semantics
  import opened Hardening
  import opened NonInterference
  import opened RewriteLog
  import opened OneTable
  import opened QualifierLeak
  import opened RowLeak
  import opened MaskedOutput
  import opened RenamedMask

  // ----- what is blanked -----

  function BlankedNames(m: Meta, tp: TablePolicies): set<string> {
    if m.denied != [] then set c | c in m.denied :: c else AllDenied(tp)
  }

  function BlankedRow(names: set<string>, cols: seq<string>, r: Row): Row {
    seq(|r|, j requires 0 <= j < |r| => if j < |cols| && cols[j] in names then VNull else r[j])
  }

  function Blanked(names: set<string>, out: Relation): Relation {
    Relation(out.cols, seq(|out.rows|, i requires 0 <= i < |out.rows| => BlankedRow(names, out.cols, out.rows[i])))
  }

  /** What the user gets for a lone SELECT. */
  ghost function Response(E: Engine, db: Database, s: Select, tp: TablePolicies): Relation {
    Blanked(BlankedNames(RecordAll(EmptyMeta, RewriteEvents(s, tp)), tp), Meaning(E, db, Served(s, tp)))
  }

  lemma {:induction false} BlankedExact(m: Meta, tp: TablePolicies, name: string)
    ensures name in BlankedNames(m, tp) <==>
              name in m.denied || (m.denied == [] && exists key :: key in tp && name in tp[key].denied)
  {
  }

  lemma {:induction false} BlankedCell(names: set<string>, out: Relation, i: nat, j: nat)
    requires i < |out.rows| && j < |out.rows[i]| && j < |out.cols|
    ensures var r := Blanked(names, out);
            && r.cols == out.cols && |r.rows| == |out.rows| && |r.rows[i]| == |out.rows[i]|
            && r.rows[i][j] == if out.cols[j] in names then VNull else out.rows[i][j]
  {
  }

  /**
   A cell of the response is the database's, or NULL in a column whose heading the metadata lists as denied, or
   where it lists none, one that some decision denies.
   */
  lemma {:induction false} ResponseCells(E: Engine, db: Database, s: Select, tp: TablePolicies, i: nat, j: nat)
    requires var out := Meaning(E, db, Served(s, tp)); i < |out.rows| && j < |out.rows[i]| && j < |out.cols|
    ensures var out, denied := Meaning(E, db, Served(s, tp)), RecordAll(EmptyMeta, RewriteEvents(s, tp)).denied;
            var r, name := Response(E, db, s, tp), out.cols[j];
            && r.cols == out.cols && |r.rows| == |out.rows| && |r.rows[i]| == |out.rows[i]|
            && r.rows[i][j] == if name in denied || (denied == [] && exists key :: key in tp && name in tp[key].denied)
                               then VNull else out.rows[i][j]
  {
    var out := Meaning(E, db, Served(s, tp));
    BlankedExact(RecordAll(EmptyMeta, RewriteEvents(s, tp)), tp, out.cols[j]);
    BlankedCell(BlankedNames(RecordAll(EmptyMeta, RewriteEvents(s, tp)), tp), out, i, j);
  }

  ghost predicate ResponseKeepsSecret(E: Engine, tp: TablePolicies, n: string, s: Select)
    requires n in tp
  {
    forall db, db' | AgreeOutsideDenied(tp, db, db') && FitsTable(tp[n], ColsOf(db, n)) ::
      Response(E, db, s, tp) == Response(E, db', s, tp)
  }

  /** What the database keeps secret the response does. */
  lemma {:induction false} SecretResponse(E: Engine, tp: TablePolicies, n: string, s: Select)
    requires n in tp && KeepsSecret(E, tp, n, s)
    ensures ResponseKeepsSecret(E, tp, n, s)
  {
    forall db, db' | AgreeOutsideDenied(tp, db, db') && FitsTable(tp[n], ColsOf(db, n))
      ensures Meaning(E, db, Served(s, tp)) == Meaning(E, db', Served(s, tp))
    {
      assert RewriteQuery(Leaf(s), tp) == Leaf(Served(s, tp));
      assert TreeMeaning(E, db, Leaf(Served(s, tp))) == TreeMeaning(E, db', Leaf(Served(s, tp)));
    }
  }

  // ----- a query that passes without a verdict -----

  predicate Unjudged(n: string, a: string, p: Expr, c: string) {
    Simple(p) && Judge(Refs(Inner(p)), SelAliasMap(Ask(n, a, p), Denying(n, c)), Denying(n, c)) == NoVerdict
  }

  lemma {:induction false} UnjudgedPasses(n: string, a: string, p: Expr, c: string)
    requires Unjudged(n, a, p, c)
    ensures Served(Ask(n, a, p), Denying(n, c)) == Ask(n, a, p)
    ensures RewriteEvents(Ask(n, a, p), Denying(n, c)) == []
  {
    var s, tp := Ask(n, a, p), Denying(n, c);
    var am := SelAliasMap(s, tp);
    VisitLeavesAsk(n, a, p, c);
    AskHasNoKids(n, a, p);
    LeafStays(s, tp);
    NoConditions(s, n, c);
    assert s.projs[1..] == [] && ExpandStars(s.projs[1..], am, tp) == [];
    assert ExpandStars(s.projs, am, tp) == s.projs;
    assert ProjEvents(p, am, tp) == [] && ProjsEvents(s.projs[1..], am, tp) == [];
  }

  /** Then all denied columns are blanked, by name. */
  lemma {:induction false} UnjudgedResponse(E: Engine, db: Database, n: string, a: string, p: Expr, c: string)
    requires Unjudged(n, a, p, c)
    ensures Response(E, db, Ask(n, a, p), Denying(n, c)) == Blanked({c}, Meaning(E, db, Ask(n, a, p)))
  {
    UnjudgedPasses(n, a, p, c);
    assert RecordAll(EmptyMeta, []) == EmptyMeta;
    DeniedAlone(n, c);
  }

  lemma {:induction false} DeniedAlone(n: string, c: string)
    ensures AllDenied(Denying(n, c)) == {c}
  {
    assert Denying(n, c)[n].denied == [c] && c in [c];
  }

  lemma {:induction false} AskRuns(E: Engine, db: Database, n: string, a: string, p: Expr)
    requires Simple(p) && forall rows :: E.finish("", rows) == rows
    ensures var rel, out := SourceRel(db, map[], Table(n, a)), Meaning(E, db, Ask(n, a, p));
            && out.cols == OutNames([Binding(BindName(Table(n, a)), rel.cols)], p) && |out.rows| == |rel.rows|
            && forall i | 0 <= i < |out.rows| :: |out.rows[i]| == 1
  {
    AskHasNoKids(n, a, p);
    LeafRuns(E, db, Ask(n, a, p));
    RunBare(E, db, map[], Table(n, a), p);
  }

  /** The output column of the projection, for those that are no star. */
  function Heading(p: Expr): string {
    if p.Alias? || p.Col? then p.name else ""
  }

  /** Under the column's own name the value is blanked. */
  lemma {:induction false} OwnNameBlanked(E: Engine, n: string, a: string, p: Expr, c: string)
    requires Unjudged(n, a, p, c) && Heading(p) == c && forall rows :: E.finish("", rows) == rows
    ensures ResponseKeepsSecret(E, Denying(n, c), n, Ask(n, a, p))
  {
    var tp := Denying(n, c);
    forall db, db' | AgreeOutsideDenied(tp, db, db')
      ensures Response(E, db, Ask(n, a, p), tp) == Response(E, db', Ask(n, a, p), tp)
    {
      UnjudgedResponse(E, db, n, a, p, c);
      UnjudgedResponse(E, db', n, a, p, c);
      AskRuns(E, db, n, a, p);
      AskRuns(E, db', n, a, p);
      SameCounts(tp, db, db', n, a);
      AllBlank(Meaning(E, db, Ask(n, a, p)), Meaning(E, db', Ask(n, a, p)), c);
    }
  }

  lemma {:induction false} AllBlank(out: Relation, out': Relation, c: string)
    requires out.cols == out'.cols == [c] && |out.rows| == |out'.rows|
    requires forall i | 0 <= i < |out.rows| :: |out.rows[i]| == |out'.rows[i]| == 1
    ensures Blanked({c}, out) == Blanked({c}, out')
  {
    assert forall i | 0 <= i < |out.rows| ::
      BlankedRow({c}, [c], out.rows[i]) == [VNull] == BlankedRow({c}, [c], out'.rows[i]);
  }

  /** Under another name it is not. */
  lemma {:induction false} OtherNameResponds(E: Engine, n: string, a: string, p: Expr, c: string)
    requires Unjudged(n, a, p, c) && Heading(p) != c && forall rows :: E.finish("", rows) == rows
    requires Shows(E, n, a, p, c, VNum(1)) != Shows(E, n, a, p, c, VNum(2))
    ensures !ResponseKeepsSecret(E, Denying(n, c), n, Ask(n, a, p))
  {
    var db, db' := OneCell(n, c, VNum(1)), OneCell(n, c, VNum(2));
    UnjudgedResponse(E, db, n, a, p, c);
    UnjudgedResponse(E, db', n, a, p, c);
    AskRuns(E, db, n, a, p);
    AskRuns(E, db', n, a, p);
    ShowsValue(E, n, a, p, c, VNum(1));
    ShowsValue(E, n, a, p, c, VNum(2));
    CellsDiffer(n, c, VNum(1), VNum(2));
    NotBlanked(Meaning(E, db, Ask(n, a, p)), Heading(p), c, Shows(E, n, a, p, c, VNum(1)));
    NotBlanked(Meaning(E, db', Ask(n, a, p)), Heading(p), c, Shows(E, n, a, p, c, VNum(2)));
  }

  lemma {:induction false} NotBlanked(out: Relation, heading: string, c: string, v: Value)
    requires out == Relation([heading], [[v]]) && heading != c
    ensures Blanked({c}, out).rows == [[v]]
  {
    assert BlankedRow({c}, [heading], [v]) == [v];
  }

  // ----- the leaks, in the response -----

  /** q.c, under the name x if there is one. */
  function Named(q: string, c: string, x: string): Expr {
    if x == "" then Col(q, c) else Alias(Col(q, c), x)
  }

  lemma {:induction false} NamedParts(q: string, c: string, x: string)
    ensures var p := Named(q, c, x); Simple(p) && Refs(Inner(p)) == [Ref(q, c)] && Inner(p) == Col(q, c)
  {
    assert Kids(Col(q, c)) == [];
  }

  /**
   SELECT q.c AS x FROM n AS a, with c denied and q the source's name in some letter case: the response
   keeps the column secret exactly when q is spelled like the source, or the column comes back under its
   own name.
   */
  lemma {:induction false} ResponseKeepsSecretExactly(E: Engine, n: string, a: string, q: string, c: string, x: string)
    requires n != "" && SameName(q, BindName(Table(n, a))) && forall rows :: E.finish("", rows) == rows
    ensures ResponseKeepsSecret(E, Denying(n, c), n, Ask(n, a, Named(q, c, x)))
            <==> SpelledAs(q, Table(n, a)) || Heading(Named(q, c, x)) == c
  {
    var p, tp := Named(q, c, x), Denying(n, c);
    NamedParts(q, c, x);
    if SpelledAs(q, Table(n, a)) {
      forall db | FitsTable(tp[n], ColsOf(db, n)) { ColumnTameIn(n, a, q, c, db); }
      TameKeepsSecret(E, n, a, p, c);
      SecretResponse(E, tp, n, Ask(n, a, p));
    } else {
      OtherCaseUnjudged(n, a, q, c, x);
      if Heading(p) == c {
        OwnNameBlanked(E, n, a, p, c);
      } else {
        NamedShows(E, n, a, q, c, x, VNum(1));
        NamedShows(E, n, a, q, c, x, VNum(2));
        OtherNameResponds(E, n, a, p, c);
      }
    }
  }

  lemma {:induction false} OtherCaseUnjudged(n: string, a: string, q: string, c: string, x: string)
    requires n != "" && SameName(q, BindName(Table(n, a))) && !SpelledAs(q, Table(n, a))
    ensures Unjudged(n, a, Named(q, c, x), c)
  {
    var s, tp := Ask(n, a, Named(q, c, x)), Denying(n, c);
    NamedParts(q, c, x);
    OneSource(n, a, c);
    QualifierFinds(s.sources, tp, 0, n, q);
    assert |Lower(q)| == |q| && |Lower(BindName(Table(n, a)))| == |BindName(Table(n, a))|;
    assert [Ref(q, c)][1..] == [];
  }

  lemma {:induction false} NamedShows(E: Engine, n: string, a: string, q: string, c: string, x: string, v: Value)
    requires SameName(q, BindName(Table(n, a)))
    ensures Shows(E, n, a, Named(q, c, x), c, v) == v
  {
    var sub := KidResults(E, OneCell(n, c, v), Ask(n, a, Named(q, c, x)));
    ReadsCell(E, BindName(Table(n, a)), q, c, v);
    assert Eval(E, sub, [Binding(BindName(Table(n, a)), [c])], [[[v]]], Col(q, c)) == v;
  }

  /**
   SELECT f(q.*) FROM n AS a, with c denied: nothing blanks what the row is made into, so the response
   keeps the column secret exactly when q is not the source's name.
   */
  lemma {:induction false} StarResponseExactly(E: Engine, n: string, a: string, f: string, q: string, c: string)
    requires n != "" && f != "" && c != "*" && c != "" && TellsRows(E, f, "*", c)
    ensures ResponseKeepsSecret(E, Denying(n, c), n, Ask(n, a, Op(f, QualStar(q), Null)))
            <==> !SameName(q, BindName(Table(n, a)))
  {
    var p := Op(f, QualStar(q), Null);
    assert p == Called(f, QualStar(q));
    StarKeepsSecretExactly(E, n, a, f, q, c);
    if SameName(q, BindName(Table(n, a))) {
      CalledSimple(f, QualStar(q));
      StarStays(n, a, f, q, c);
      StarValue(E, n, a, f, q, c, VNum(1));
      StarValue(E, n, a, f, q, c, VNum(2));
      OtherNameResponds(E, n, a, p, c);
    } else {
      SecretResponse(E, Denying(n, c), n, Ask(n, a, p));
    }
  }
}
