/**
 What an injected row filter asks of a cell, for an engine whose comparisons are the ones they are
 named after.  The relations themselves are arbitrary.
 */
module FilterMeaning {
  import opened Wrappers
  import opened Text
  import opened TextLaws
  import opened Policies
  import opened SqlSyntax
  import opened Rewriter
  import opened Semantics
  import opened FilteredView

  // ----- comparisons -----

  /** Equality, the strict order and the matching of patterns, on values other than NULL. */
  datatype Relations = Relations(
    same: (Value, Value) -> bool,
    below: (Value, Value) -> bool,
    like: (Value, Value) -> bool)

  predicate IsTrue(v: Value) {
    v == VBool(true)
  }

  /** No comparison is true of NULL; of other values each is the relation it is named after. */
  ghost predicate Compares(E: Engine, R: Relations) {
    && (forall a, b :: IsTrue(E.op("EQ", a, b)) <==> a != VNull && b != VNull && R.same(a, b))
    && (forall a, b :: IsTrue(E.op("NEQ", a, b)) <==> a != VNull && b != VNull && !R.same(a, b))
    && (forall a, b :: IsTrue(E.op("GT", a, b)) <==> a != VNull && b != VNull && R.below(b, a))
    && (forall a, b :: IsTrue(E.op("GTE", a, b)) <==> a != VNull && b != VNull && (R.below(b, a) || R.same(a, b)))
    && (forall a, b :: IsTrue(E.op("LT", a, b)) <==> a != VNull && b != VNull && R.below(a, b))
    && (forall a, b :: IsTrue(E.op("LTE", a, b)) <==> a != VNull && b != VNull && (R.below(a, b) || R.same(a, b)))
    && (forall a, b :: IsTrue(E.op("LIKE", a, b)) <==> a != VNull && b != VNull && R.like(a, b))
    && (forall a, items :: IsTrue(E.inList(a, items)) <==> a != VNull && SameAsOne(R, a, items))
  }

  predicate SameAsOne(R: Relations, a: Value, items: seq<string>) {
    exists k :: 0 <= k < |items| && R.same(a, VText(items[k]))
  }

  /** One of the texts between the commas, without its outer whitespace. */
  ghost predicate ListedIn(t: string, value: string) {
    exists ps, k :: Pieces(ps, value) && 0 <= k < |ps| && Trimmed(t, ps[k]) && CleanEnds(t)
  }

  ghost predicate SameAsListed(R: Relations, a: Value, value: string) {
    exists t :: ListedIn(t, value) && R.same(a, VText(t))
  }

  /** The cell stands to the filter's value in the relation that the operator names. */
  ghost predicate Stands(R: Relations, cell: Value, operator: string, value: string) {
    var v := VText(value);
    cell != VNull &&
    if operator == "!=" || operator == "<>" then !R.same(cell, v)
    else if operator == ">" then R.below(v, cell)
    else if operator == ">=" then R.below(v, cell) || R.same(cell, v)
    else if operator == "<" then R.below(cell, v)
    else if operator == "<=" then R.below(cell, v) || R.same(cell, v)
    else if SameLetters(operator, "LIKE") then R.like(cell, v)
    else if SameLetters(operator, "IN") then SameAsListed(R, cell, value)
    else R.same(cell, v)
  }

  // ----- one filter -----

  lemma {:induction false} ListedExact(value: string, t: string)
    ensures ListedIn(t, value) <==> exists k :: 0 <= k < |SplitCommas(value)| && t == Strip(SplitCommas(value)[k])
  {
    var ps := SplitCommas(value);
    SplitExact(ps, value);
    forall k | 0 <= k < |ps| { StripExact(t, ps[k]); }
    if qs, k :| Pieces(qs, value) && 0 <= k < |qs| && Trimmed(t, qs[k]) && CleanEnds(t) { SplitExact(qs, value); }
  }

  lemma {:induction false} InMeans(R: Relations, cell: Value, value: string)
    ensures SameAsOne(R, cell, StripAll(SplitCommas(value))) <==> SameAsListed(R, cell, value)
  {
    var ps, items := SplitCommas(value), StripAll(SplitCommas(value));
    if k :| 0 <= k < |items| && R.same(cell, VText(items[k])) {
      ListedExact(value, items[k]);
      assert items[k] == Strip(ps[k]);
    }
    if t :| ListedIn(t, value) && R.same(cell, VText(t)) {
      ListedExact(value, t);
      var k :| 0 <= k < |ps| && t == Strip(ps[k]);
      assert items[k] == t;
    }
  }

  lemma {:induction false} WordExact(operator: string)
    ensures Upper(operator) == "IN" <==> SameLetters(operator, "IN")
    ensures Upper(operator) == "LIKE" <==> SameLetters(operator, "LIKE")
  {
    FoldedExact(operator, "IN");
    FoldedExact(operator, "LIKE");
  }

  /** What the engine is asked about the cell. */
  function Asked(E: Engine, cell: Value, c: Expr): Value {
    match c
    case Op(o, _, Lit(t)) => E.op(o, cell, VText(t))
    case InList(_, items) => E.inList(cell, items)
    case _ => VNull
  }

  lemma {:induction false} ConditionAsks(E: Engine, sub: Results, scope: Scope, g: Group, col: Expr, operator: string,
                                         value: string)
    ensures var c := BuildCondition(col, operator, value);
            Eval(E, sub, scope, g, c) == Asked(E, Eval(E, sub, scope, g, col), c)
  {
    var c := BuildCondition(col, operator, value);
    if c.InList? {
    } else {
      assert c == Op(c.op, col, Lit(value));
      assert Eval(E, sub, scope, g, Lit(value)) == VText(value);
    }
  }

  predicate Sign(operator: string) {
    operator in {"!=", "<>", ">", ">=", "<", "<="}
  }

  /** An operator that is neither a sign other than equality nor one of the words is equality. */
  lemma {:induction false} OtherBuilds(col: Expr, operator: string, value: string)
    requires !Sign(operator)
    ensures BuildCondition(col, operator, value)
            == if SameLetters(operator, "IN") then InList(col, StripAll(SplitCommas(value)))
               else if SameLetters(operator, "LIKE") then Op("LIKE", col, Lit(value)) else Op("EQ", col, Lit(value))
  {
    WordExact(operator);
    if operator == "=" {
      assert |operator| == 1;
    }
  }

  lemma {:induction false} OtherStands(R: Relations, cell: Value, operator: string, value: string)
    requires !Sign(operator)
    ensures Stands(R, cell, operator, value) <==>
              && cell != VNull
              && if SameLetters(operator, "IN") then SameAsListed(R, cell, value)
                 else if SameLetters(operator, "LIKE") then R.like(cell, VText(value)) else R.same(cell, VText(value))
  {
  }

  lemma {:induction false} WordMeans(E: Engine, R: Relations, cell: Value, col: Expr, operator: string, value: string)
    requires Compares(E, R) && !Sign(operator)
    ensures IsTrue(Asked(E, cell, BuildCondition(col, operator, value))) <==> Stands(R, cell, operator, value)
  {
    OtherBuilds(col, operator, value);
    OtherStands(R, cell, operator, value);
    InMeans(R, cell, value);
  }

  lemma {:induction false} SignMeans(E: Engine, R: Relations, cell: Value, col: Expr, operator: string, value: string)
    requires Compares(E, R) && operator in {"!=", "<>", ">", ">=", "<", "<="}
    ensures IsTrue(Asked(E, cell, BuildCondition(col, operator, value))) <==> Stands(R, cell, operator, value)
  {
    if operator == "!=" || operator == "<>" {
    } else if operator == ">" {
    } else if operator == ">=" {
    } else if operator == "<" {
    } else {
    }
  }

  /** What a condition says of the cell its column reads. */
  lemma {:induction false} ConditionMeans(E: Engine, R: Relations, sub: Results, scope: Scope, g: Group, col: Expr,
                                          operator: string, value: string)
    requires Compares(E, R)
    ensures IsTrue(Eval(E, sub, scope, g, BuildCondition(col, operator, value)))
            <==> Stands(R, Eval(E, sub, scope, g, col), operator, value)
  {
    ConditionAsks(E, sub, scope, g, col, operator, value);
    if Sign(operator) {
      SignMeans(E, R, Eval(E, sub, scope, g, col), col, operator, value);
    } else {
      WordMeans(E, R, Eval(E, sub, scope, g, col), col, operator, value);
    }
  }

  /** An injected filter is true of a tuple exactly when the cell it names stands in the filter's relation. */
  lemma {:induction false} FilterMeans(E: Engine, R: Relations, sub: Results, scope: Scope, t: Tuple, alias: string,
                                       f: RowFilter)
    requires Compares(E, R)
    ensures TruthOf(Eval(E, sub, scope, [t], FilterExpr(alias, f))) == True
            <==> Stands(R, Lookup(E, scope, t, Ref(alias, f.column)), f.operator, f.value)
  {
    ConditionMeans(E, R, sub, scope, [t], Col(alias, f.column), f.operator, f.value);
  }

  // ----- the rows of a table -----

  /** The only column of that name, up to letter case. */
  predicate IsColumn(cols: seq<string>, name: string, j: nat) {
    j < |cols| && SameLetters(name, cols[j]) && forall k | 0 <= k < |cols| && SameLetters(name, cols[k]) :: k == j
  }

  lemma {:induction false} ColumnRead(E: Engine, cols: seq<string>, row: Row, name: string, j: nat)
    requires IsColumn(cols, name, j)
    ensures Lookup(E, [Binding("t", cols)], [row], Ref("t", name)) == Cell([row], 0, j)
  {
    var scope := [Binding("t", cols)];
    forall k | 0 <= k < |cols| { CaseFoldsExactly(name, cols[k]); }
    assert Hit(scope, Ref("t", name), 0, j);
    assert Answers(scope, Ref("t", name), 0, j);
  }

  lemma {:induction false} FilterTrueExact(E: Engine, R: Relations, cols: seq<string>, f: RowFilter, row: Row, j: nat)
    requires Compares(E, R) && |row| == |cols| && IsColumn(cols, f.column, j)
    ensures FilterTrue(E, cols, f, row) <==> Stands(R, row[j], f.operator, f.value)
  {
    FilterMeans(E, R, map[], [Binding("t", cols)], [row], "t", f);
    ColumnRead(E, cols, row, f.column, j);
  }

  /** The row's cell in every filtered column stands in the relation of each filter on it. */
  ghost predicate Satisfies(R: Relations, fs: seq<RowFilter>, cols: seq<string>, row: Row)
    requires |row| == |cols|
  {
    forall f, j: nat | f in fs && f.column != "" && IsColumn(cols, f.column, j) ::
      Stands(R, row[j], f.operator, f.value)
  }

  /**
   The row filters let a row of a governed table through exactly when its cells stand in the relations that
   the filters name.
   */
  lemma {:induction false} RowVisibleExact(E: Engine, R: Relations, tp: TablePolicies, name: string, key: string,
                                           cols: seq<string>, row: Row)
    requires Compares(E, R) && PolicyKey(tp, name) == Some(key) && |row| == |cols|
    requires forall f | f in tp[key].filters && f.column != "" :: exists j: nat :: IsColumn(cols, f.column, j)
    ensures RowVisible(E, tp, name, cols, row) <==> Satisfies(R, tp[key].filters, cols, row)
  {
    forall f, j: nat | f in tp[key].filters && f.column != "" && IsColumn(cols, f.column, j) {
      FilterTrueExact(E, R, cols, f, row, j);
    }
    if Satisfies(R, tp[key].filters, cols, row) {
      forall f | f in tp[key].filters && f.column != ""
        ensures FilterTrue(E, cols, f, row)
      {
        var j: nat :| IsColumn(cols, f.column, j);
        FilterTrueExact(E, R, cols, f, row, j);
      }
    }
  }
}
