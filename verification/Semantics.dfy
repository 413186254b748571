/**
 What a SELECT tree means: the relation it computes from a database.

 Scalar functions, comparisons, aggregates, the reading of a subquery's rows, the
 partition made by GROUP BY, the permutation made by ORDER BY, and DISTINCT and LIMIT
 are those of an arbitrary `Engine`; every theorem holds for every engine.  AND is the
 three-valued one, NULL standing for unknown.  Column names and qualifiers are compared
 without regard to case; a table is read under its name as written, so a database that
 folds table names is one that holds the table under each spelling.  A star inside an
 expression is the row of the sources it covers, except directly under an aggregate, where
 it counts tuples; a name no column answers is the row of the source so named, and with a
 qualifier a function of the qualifier's row.  What becomes of such a row is up to the
 engine.  A reference that several columns answer is an error that a real engine reports
 from the table headings alone; here it reads NULL.
 Nested SELECTs see only their own sources.
 */
module Semantics {
  import opened Wrappers
  import opened Text
  import opened SqlSyntax
  import opened Rewriter

  datatype Value = VNull | VBool(b: bool) | VNum(n: int) | VText(s: string)

  type Row = seq<Value>
  datatype Relation = Relation(cols: seq<string>, rows: seq<Row>)
  type Database = map<string, Relation>

  datatype Engine = Engine(
    op: (string, Value, Value) -> Value,
    inList: (Value, seq<string>) -> Value,
    agg: (string, seq<Value>) -> Value,
    row: (string, seq<string>, Row) -> Value,
    sub: (string, Value, seq<Row>) -> Value,
    groups: seq<seq<Value>> -> seq<seq<nat>>,
    order: seq<seq<Value>> -> seq<nat>,
    finish: (string, seq<Row>) -> seq<Row>,
    combine: (string, Relation, Relation) -> Relation)

  // ----- three-valued logic -----

  datatype Truth = True | False | Unknown

  function TruthOf(v: Value): Truth {
    match v
    case VBool(b) => if b then True else False
    case _ => Unknown
  }

  function Kleene(a: Truth, b: Truth): Truth {
    if a == False || b == False then False else if a == True && b == True then True else Unknown
  }

  function FromTruth(t: Truth): Value {
    match t case True => VBool(true) case False => VBool(false) case Unknown => VNull
  }

  // ----- scopes -----

  datatype Binding = Binding(name: string, cols: seq<string>)
  type Scope = seq<Binding>
  type Tuple = seq<Row>                 // one row for each binding of the scope

  predicate Hit(scope: Scope, r: Ref, i: nat, j: nat) {
    i < |scope| && j < |scope[i].cols|
    && (r.table == "" || Lower(r.table) == Lower(scope[i].name)) && Lower(r.name) == Lower(scope[i].cols[j])
  }

  /** Column `j` of source `i`, and no other column, answers the reference. */
  ghost predicate Answers(scope: Scope, r: Ref, i: nat, j: nat) {
    Hit(scope, r, i, j) && forall i': nat, j': nat :: Hit(scope, r, i', j') ==> i' == i && j' == j
  }

  function Cell(t: Tuple, i: nat, j: nat): Value {
    if i < |t| && j < |t[i]| then t[i][j] else VNull
  }

  /** No column answers the reference, nor do several. */
  ghost predicate Unanswered(scope: Scope, r: Ref) {
    forall i: nat, j: nat :: !Hit(scope, r, i, j)
  }

  /** The source whose row such a reference stands for: t in `t` and in `t.f`. */
  function RowSource(r: Ref): string {
    if r.table == "" then r.name else r.table
  }

  /** What is applied to that row: nothing in `t`, and f in `t.f`. */
  function RowFunction(r: Ref): string {
    if r.table == "" then "" else r.name
  }

  function RowValue(E: Engine, scope: Scope, t: Tuple, table: Option<string>, f: string): Value {
    E.row(f, StarCols(scope, table), StarRow(scope, t, table))
  }

  ghost function Lookup(E: Engine, scope: Scope, t: Tuple, r: Ref): Value {
    if exists i: nat, j: nat :: Answers(scope, r, i, j) then
      var i: nat, j: nat :| Answers(scope, r, i, j);
      Cell(t, i, j)
    else if Unanswered(scope, r) then RowValue(E, scope, t, Some(RowSource(r)), RowFunction(r))
    else VNull
  }

  // ----- expressions -----

  type Group = seq<Tuple>               // the tuples of one group; a tuple alone is a group of one
  type Results = map<Select, Relation>  // what the SELECTs directly below compute

  function RowsOf(sub: Results, q: Select): seq<Row> {
    if q in sub then sub[q].rows else []
  }

  ghost function Eval(E: Engine, sub: Results, scope: Scope, g: Group, e: Expr): Value
    decreases e
  {
    match e
    case Lit(t) => VText(t)
    case Col(t, n) => if g == [] then VNull else Lookup(E, scope, g[0], Ref(t, n))
    case Op(op, l, r) => E.op(op, Eval(E, sub, scope, g, l), Eval(E, sub, scope, g, r))
    case And(l, r) => FromTruth(Kleene(TruthOf(Eval(E, sub, scope, g, l)), TruthOf(Eval(E, sub, scope, g, r))))
    case InList(a, items) => E.inList(Eval(E, sub, scope, g, a), items)
    case Star => if g == [] then VNull else RowValue(E, scope, g[0], None, "*")
    case QualStar(t) => if g == [] then VNull else RowValue(E, scope, g[0], Some(t), "*")
    case Agg(fn, a) =>
      E.agg(fn, seq(|g|, i requires 0 <= i < |g| => if a.Star? then VNull else Eval(E, sub, scope, [g[i]], a)))
    case Sub(kind, a, q) => E.sub(kind, Eval(E, sub, scope, g, a), RowsOf(sub, q))
    case Alias(a, _) => Eval(E, sub, scope, g, a)
    case Null => VNull
  }

  ghost function EvalL(E: Engine, sub: Results, scope: Scope, g: Group, es: seq<Expr>): seq<Value> {
    seq(|es|, i requires 0 <= i < |es| => Eval(E, sub, scope, g, es[i]))
  }

  ghost predicate Holds(E: Engine, sub: Results, scope: Scope, g: Group, o: Option<Expr>) {
    o.Some? ==> TruthOf(Eval(E, sub, scope, g, o.value)) == True
  }

  // ----- sources -----

  function SourceRel(db: Database, sub: Results, src: Source): Relation {
    match src
    case Table(n, _) => if n in db then db[n] else Relation([], [])
    case Derived(q, _) => if q in sub then sub[q] else Relation([], [])
  }

  function ScopeOf(db: Database, sub: Results, ss: seq<Source>): Scope {
    seq(|ss|, i requires 0 <= i < |ss| => Binding(BindName(ss[i]), SourceRel(db, sub, ss[i]).cols))
  }

  function RowLists(db: Database, sub: Results, ss: seq<Source>): seq<seq<Row>> {
    seq(|ss|, i requires 0 <= i < |ss| => SourceRel(db, sub, ss[i]).rows)
  }

  /** Every tuple of `ts` with `row` in front. */
  function Prepend(row: Row, ts: seq<Tuple>): seq<Tuple> {
    seq(|ts|, i requires 0 <= i < |ts| => [row] + ts[i])
  }

  function Product(rows: seq<Row>, ts: seq<Tuple>): seq<Tuple> {
    if rows == [] then [] else Prepend(rows[0], ts) + Product(rows[1..], ts)
  }

  /** All combinations of one row from each list, the last list varying fastest. */
  function Cross(lists: seq<seq<Row>>): seq<Tuple> {
    if lists == [] then [[]] else Product(lists[0], Cross(lists[1..]))
  }

  // ----- the clauses -----

  ghost predicate Passes(E: Engine, sub: Results, scope: Scope, s: Select, t: Tuple) {
    && (forall i | 0 <= i < |s.ons| :: TruthOf(Eval(E, sub, scope, [t], s.ons[i])) == True)
    && Holds(E, sub, scope, [t], s.where)
  }

  ghost function Kept(E: Engine, sub: Results, scope: Scope, s: Select, ts: seq<Tuple>): seq<Tuple> {
    if ts == [] then []
    else (if Passes(E, sub, scope, s, ts[0]) then [ts[0]] else []) + Kept(E, sub, scope, s, ts[1..])
  }

  function Pick<T>(xs: seq<T>, at: seq<nat>): seq<T> {
    if at == [] then []
    else (if at[0] < |xs| then [xs[at[0]]] else []) + Pick(xs, at[1..])
  }

  function Singletons(ts: seq<Tuple>): seq<Group> {
    seq(|ts|, i requires 0 <= i < |ts| => [ts[i]])
  }

  function PickAll(ts: seq<Tuple>, parts: seq<seq<nat>>): seq<Group> {
    seq(|parts|, i requires 0 <= i < |parts| => Pick(ts, parts[i]))
  }

  predicate HasAgg(e: Expr) {
    match e
    case Agg(_, _) => true
    case Op(_, l, r) => HasAgg(l) || HasAgg(r)
    case And(l, r) => HasAgg(l) || HasAgg(r)
    case InList(a, _) => HasAgg(a)
    case Sub(_, a, _) => HasAgg(a)
    case Alias(a, _) => HasAgg(a)
    case _ => false
  }

  predicate Aggregates(s: Select) {
    (exists i | 0 <= i < |s.projs| :: HasAgg(s.projs[i])) || (s.having.Some? && HasAgg(s.having.value))
  }

  ghost function GroupKeys(E: Engine, sub: Results, scope: Scope, es: seq<Expr>, ts: seq<Tuple>): seq<seq<Value>> {
    seq(|ts|, i requires 0 <= i < |ts| => EvalL(E, sub, scope, [ts[i]], es))
  }

  ghost function Grouped(E: Engine, sub: Results, scope: Scope, s: Select, ts: seq<Tuple>): seq<Group> {
    if s.group != [] then PickAll(ts, E.groups(GroupKeys(E, sub, scope, s.group, ts)))
    else if Aggregates(s) then [ts]
    else Singletons(ts)
  }

  ghost function Having(E: Engine, sub: Results, scope: Scope, having: Option<Expr>, gs: seq<Group>): seq<Group> {
    if gs == [] then []
    else (if Holds(E, sub, scope, gs[0], having) then [gs[0]] else []) + Having(E, sub, scope, having, gs[1..])
  }

  ghost function OrderKeys(E: Engine, sub: Results, scope: Scope, es: seq<Expr>, gs: seq<Group>): seq<seq<Value>> {
    seq(|gs|, i requires 0 <= i < |gs| => EvalL(E, sub, scope, gs[i], es))
  }

  ghost function Ordered(E: Engine, sub: Results, scope: Scope, es: seq<Expr>, gs: seq<Group>): seq<Group> {
    if es == [] then gs else Pick(gs, E.order(OrderKeys(E, sub, scope, es, gs)))
  }

  // ----- projections -----

  predicate Covers(table: Option<string>, name: string) {
    table.None? || Lower(table.value) == Lower(name)
  }

  /** The columns a star stands for: those of every source, or of the sources it names. */
  function StarCols(scope: Scope, table: Option<string>): seq<string> {
    if scope == [] then []
    else (if Covers(table, scope[0].name) then scope[0].cols else []) + StarCols(scope[1..], table)
  }

  function StarRow(scope: Scope, t: Tuple, table: Option<string>): Row {
    if scope == [] || t == [] then []
    else (if Covers(table, scope[0].name) then t[0] else []) + StarRow(scope[1..], t[1..], table)
  }

  ghost function OutValues(E: Engine, sub: Results, scope: Scope, g: Group, p: Expr): Row {
    match p
    case Star => if g == [] then [] else StarRow(scope, g[0], None)
    case QualStar(t) => if g == [] then [] else StarRow(scope, g[0], Some(t))
    case _ => [Eval(E, sub, scope, g, p)]
  }

  ghost function OutRow(E: Engine, sub: Results, scope: Scope, g: Group, ps: seq<Expr>): Row {
    if ps == [] then [] else OutValues(E, sub, scope, g, ps[0]) + OutRow(E, sub, scope, g, ps[1..])
  }

  function OutNames(scope: Scope, p: Expr): seq<string> {
    match p
    case Star => StarCols(scope, None)
    case QualStar(t) => StarCols(scope, Some(t))
    case Alias(_, n) => [n]
    case Col(_, n) => [n]
    case _ => [""]
  }

  function OutCols(scope: Scope, ps: seq<Expr>): seq<string> {
    if ps == [] then [] else OutNames(scope, ps[0]) + OutCols(scope, ps[1..])
  }

  ghost function OutRows(E: Engine, sub: Results, scope: Scope, ps: seq<Expr>, gs: seq<Group>): seq<Row> {
    seq(|gs|, i requires 0 <= i < |gs| => OutRow(E, sub, scope, gs[i], ps))
  }

  // ----- a SELECT -----

  /** From the tuples that pass WHERE on: GROUP BY, HAVING, ORDER BY, the projections, DISTINCT and LIMIT. */
  ghost function Finish(E: Engine, sub: Results, scope: Scope, s: Select, kept: seq<Tuple>): Relation {
    var gs := Ordered(E, sub, scope, s.order, Having(E, sub, scope, s.having, Grouped(E, sub, scope, s, kept)));
    Relation(OutCols(scope, s.projs), E.finish(s.tail, OutRows(E, sub, scope, s.projs, gs)))
  }

  /** One SELECT, given what the SELECTs directly below it compute. */
  ghost function Run(E: Engine, db: Database, sub: Results, s: Select): Relation {
    var scope := ScopeOf(db, sub, s.sources);
    Finish(E, sub, scope, s, Kept(E, sub, scope, s, Cross(RowLists(db, sub, s.sources))))
  }

  ghost function Meaning(E: Engine, db: Database, s: Select): Relation
    decreases s
  {
    Run(E, db, map k | k in SelKids(s) :: Meaning(E, db, k), s)
  }

  ghost function KidResults(E: Engine, db: Database, s: Select): Results {
    map k | k in SelKids(s) :: Meaning(E, db, k)
  }
}
