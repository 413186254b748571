/** The decision that the policy engine reaches for one table and one user. */
module Policies {
  import opened Wrappers
  import opened Text

  datatype RowFilter = RowFilter(column: string, operator: string, value: string)

  /** `pii` keeps the order of the dictionary it stands for. */
  datatype Decision = Decision(
    resource: string,
    allowed: bool,
    denied: seq<string>,
    masked: seq<string>,
    tokenized: seq<string>,
    filters: seq<RowFilter>,
    exempt: bool,
    autoPolicy: bool,
    pii: seq<(string, Option<string>)>,
    known: seq<string>)

  datatype Action = Allow | Tokenize | Mask | Deny

  function Rank(a: Action): nat {
    match a case Allow => 0 case Tokenize => 1 case Mask => 2 case Deny => 3
  }

  /** The PII type of the first entry whose key equals `name` up to letter case. */
  function PiiOf(pii: seq<(string, Option<string>)>, name: string): Option<string> {
    if pii == [] then None
    else if Lower(pii[0].0) == Lower(name) then pii[0].1
    else PiiOf(pii[1..], name)
  }

  /** The columns a decision really withholds: an exempt decision withholds none. */
  function WithheldColumns(d: Decision): seq<string> {
    if d.exempt then [] else d.denied
  }
}

/**
 What rewriting does to a tree, as functions on trees.

 `Rewrite` follows the nested walk of the source, which visits a deep SELECT
 several times; `OnePass` is the single bottom-up pass it is meant to amount to.
 Table policies are keyed by table name, and a decision's identity is its key.
 */
module Rewriter {
  import opened Wrappers
  import opened Text
  import opened Policies
  import opened SqlSyntax

  type TablePolicies = map<string, Decision>

  /** One entry of the ordered alias dictionary: `alias` stands for the decision stored under `key`. */
  datatype Entry = Entry(alias: string, key: string)
  type AliasMap = seq<Entry>

  // ----- column references -----

  datatype Ref = Ref(table: string, name: string)

  function Refs(e: Expr): seq<Ref> {
    match e
    case Col(t, n) => [Ref(t, n)]
    case QualStar(t) => [Ref(t, "*")]
    case Op(_, l, r) => Refs(l) + Refs(r)
    case And(l, r) => Refs(l) + Refs(r)
    case InList(a, _) => Refs(a)
    case Agg(_, a) => Refs(a)
    case Sub(_, a, q) => Refs(a) + SelRefs(q)
    case Alias(a, _) => Refs(a)
    case _ => []
  }

  function RefsL(es: seq<Expr>): seq<Ref> {
    if es == [] then [] else Refs(es[0]) + RefsL(es[1..])
  }

  function RefsO(o: Option<Expr>): seq<Ref> {
    match o case None => [] case Some(e) => Refs(e)
  }

  function RefsS(ss: seq<Source>): seq<Ref> {
    if ss == [] then [] else
      (match ss[0] case Derived(q, _) => SelRefs(q) case Table(_, _) => []) + RefsS(ss[1..])
  }

  /** Every column reference at or below a SELECT. */
  function SelRefs(s: Select): seq<Ref> {
    RefsL(s.projs) + (RefsS(s.sources) + (RefsL(s.ons) + (RefsO(s.where)
    + (RefsL(s.group) + (RefsO(s.having) + RefsL(s.order))))))
  }

  // ----- the alias map of one SELECT -----

  function PolicyKey(tp: TablePolicies, name: string): Option<string> {
    if name in tp then Some(name)
    else if Lower(name) in tp then Some(Lower(name))
    else if Upper(name) in tp then Some(Upper(name))
    else None
  }

  function BindName(src: Source): string {
    match src
    case Table(n, a) => if a != "" then a else n
    case Derived(_, a) => a
  }

  /** Assignment to an ordered dictionary: an existing key keeps its place. */
  function Assign(am: AliasMap, alias: string, key: string): AliasMap {
    if am == [] then [Entry(alias, key)]
    else if am[0].alias == alias then [Entry(alias, key)] + am[1..]
    else [am[0]] + Assign(am[1..], alias, key)
  }

  function AddSource(am: AliasMap, src: Source, tp: TablePolicies): AliasMap {
    if src.Table? && PolicyKey(tp, src.name).Some? then
      var key := PolicyKey(tp, src.name).value;
      var am1 := Assign(am, BindName(src), key);
      if BindName(src) != src.name then Assign(am1, src.name, key) else am1
    else am
  }

  function BuildAliasMap(ss: seq<Source>, tp: TablePolicies): AliasMap {
    if ss == [] then [] else AddSource(BuildAliasMap(ss[..|ss| - 1], tp), ss[|ss| - 1], tp)
  }

  function Find(am: AliasMap, alias: string): Option<string> {
    if am == [] then None
    else if am[0].alias == alias then Some(am[0].key)
    else Find(am[1..], alias)
  }

  function DecisionOf(tp: TablePolicies, key: string): Option<Decision> {
    if key in tp then Some(tp[key]) else None
  }

  // ----- which action applies to a reference, and to an expression -----

  datatype Verdict = Verdict(action: Action, name: string, pii: Option<string>)

  const NoVerdict := Verdict(Allow, "", None)

  /** The action one decision takes on a column, most restrictive list first. */
  function ActionIn(d: Decision, name: string): Action {
    if d.exempt then Allow
    else if ListedAnyCase(name, d.denied) then Deny
    else if ListedAnyCase(name, d.masked) then Mask
    else if ListedAnyCase(name, d.tokenized) then Tokenize
    else Allow
  }

  /** The first entry of `am` whose decision restricts the column decides. */
  function FirstRestricting(am: AliasMap, tp: TablePolicies, name: string): (v: Verdict)
    ensures v.action == Allow ==> v == NoVerdict
  {
    if am == [] then NoVerdict
    else
      match DecisionOf(tp, am[0].key)
      case None => FirstRestricting(am[1..], tp, name)
      case Some(d) =>
        var a := ActionIn(d, name);
        if a != Allow then Verdict(a, name, PiiOf(d.pii, name)) else FirstRestricting(am[1..], tp, name)
  }

  function Resolve(r: Ref, am: AliasMap, tp: TablePolicies): (v: Verdict)
    ensures v.action == Allow ==> v == NoVerdict
  {
    if r.table == "" then FirstRestricting(am, tp, r.name)
    else
      match Find(am, r.table)
      case None => NoVerdict
      case Some(key) => FirstRestricting([Entry(r.table, key)], tp, r.name)
  }

  /** The more restrictive of two verdicts; the earlier one on a tie. */
  function Stricter(a: Verdict, b: Verdict): Verdict {
    if Rank(b.action) > Rank(a.action) then b else a
  }

  function Judge(refs: seq<Ref>, am: AliasMap, tp: TablePolicies): (v: Verdict)
    ensures v.action == Allow ==> v == NoVerdict
  {
    if refs == [] then NoVerdict else Stricter(Resolve(refs[0], am, tp), Judge(refs[1..], am, tp))
  }

  // ----- star expansion -----

  function Columns(table: string, names: seq<string>): seq<Expr> {
    seq(|names|, i requires 0 <= i < |names| => Col(table, names[i]))
  }

  function KnownOf(tp: TablePolicies, key: string): seq<string> {
    match DecisionOf(tp, key) case None => [] case Some(d) => d.known
  }

  function AllKnown(am: AliasMap, tp: TablePolicies): seq<Expr> {
    if am == [] then [] else Columns("", KnownOf(tp, am[0].key)) + AllKnown(am[1..], tp)
  }

  function ExpandStar(p: Expr, am: AliasMap, tp: TablePolicies): seq<Expr> {
    match p
    case Star => if AllKnown(am, tp) != [] then AllKnown(am, tp) else [p]
    case QualStar(t) =>
      (match Find(am, t)
       case Some(key) => if KnownOf(tp, key) != [] then Columns(t, KnownOf(tp, key)) else [p]
       case None => [p])
    case _ => [p]
  }

  function ExpandStars(ps: seq<Expr>, am: AliasMap, tp: TablePolicies): seq<Expr> {
    if ps == [] then [] else ExpandStar(ps[0], am, tp) + ExpandStars(ps[1..], am, tp)
  }

  // ----- projections -----

  function AliasName(p: Expr): string {
    if p.Alias? then p.name else ""
  }

  function Inner(p: Expr): Expr {
    if p.Alias? then p.arg else p
  }

  /** The name under which a suppressed projection keeps its place, "" if none. */
  function OutName(p: Expr): string {
    var refs := Refs(Inner(p));
    if AliasName(p) != "" then AliasName(p) else if |refs| == 1 then refs[0].name else ""
  }

  function Nulled(name: string): Expr {
    if name != "" then Alias(Null, name) else Null
  }

  predicate PlainColumn(e: Expr) {
    e.Col? || e.QualStar?
  }

  /** Whether a projection may stay in the tree. */
  predicate Keeps(p: Expr, am: AliasMap, tp: TablePolicies) {
    var a := Judge(Refs(Inner(p)), am, tp).action;
    a != Deny && (a == Mask ==> PlainColumn(Inner(p)))
  }

  function RewriteProj(p: Expr, am: AliasMap, tp: TablePolicies): Expr {
    if Keeps(p, am, tp) then p else Nulled(OutName(p))
  }

  function RewriteProjs(ps: seq<Expr>, am: AliasMap, tp: TablePolicies): seq<Expr> {
    seq(|ps|, i requires 0 <= i < |ps| => RewriteProj(ps[i], am, tp))
  }

  // ----- row filters -----

  function StripAll(items: seq<string>): seq<string> {
    seq(|items|, i requires 0 <= i < |items| => Strip(items[i]))
  }

  function BuildCondition(col: Expr, operator: string, value: string): Expr {
    if operator == "=" then Op("EQ", col, Lit(value))
    else if operator == "!=" || operator == "<>" then Op("NEQ", col, Lit(value))
    else if operator == ">" then Op("GT", col, Lit(value))
    else if operator == ">=" then Op("GTE", col, Lit(value))
    else if operator == "<" then Op("LT", col, Lit(value))
    else if operator == "<=" then Op("LTE", col, Lit(value))
    else if Upper(operator) == "IN" then InList(col, StripAll(SplitCommas(value)))
    else if Upper(operator) == "LIKE" then Op("LIKE", col, Lit(value))
    else Op("EQ", col, Lit(value))
  }

  function FilterExpr(alias: string, rf: RowFilter): Expr {
    BuildCondition(Col(alias, rf.column), rf.operator, rf.value)
  }

  type Seen = set<(string, RowFilter)>

  /** The conditions one decision contributes, skipping those already seen. */
  function OwnConditions(alias: string, key: string, fs: seq<RowFilter>, seen: Seen): seq<Expr> {
    if fs == [] then []
    else if fs[0].column == "" || (key, fs[0]) in seen then OwnConditions(alias, key, fs[1..], seen)
    else [FilterExpr(alias, fs[0])] + OwnConditions(alias, key, fs[1..], seen + {(key, fs[0])})
  }

  function Marked(key: string, fs: seq<RowFilter>): Seen {
    set f | f in fs && f.column != "" :: (key, f)
  }

  function FiltersOf(tp: TablePolicies, key: string): seq<RowFilter> {
    match DecisionOf(tp, key) case None => [] case Some(d) => d.filters
  }

  function Conditions(am: AliasMap, tp: TablePolicies, seen: Seen): seq<Expr> {
    if am == [] then [] else
      var fs := FiltersOf(tp, am[0].key);
      OwnConditions(am[0].alias, am[0].key, fs, seen)
      + Conditions(am[1..], tp, seen + Marked(am[0].key, fs))
  }

  function Conjoin(cs: seq<Expr>): Expr
    requires cs != []
  {
    if |cs| == 1 then cs[0] else And(Conjoin(cs[..|cs| - 1]), cs[|cs| - 1])
  }

  function AddCondition(where: Option<Expr>, cs: seq<Expr>): Option<Expr> {
    if cs == [] then where
    else if where.Some? then Some(And(where.value, Conjoin(cs)))
    else Some(Conjoin(cs))
  }

  // ----- one visit of one SELECT, its children being as they are -----

  function SelAliasMap(s: Select, tp: TablePolicies): AliasMap {
    BuildAliasMap(s.sources, tp)
  }

  function SelConditions(s: Select, tp: TablePolicies): seq<Expr> {
    Conditions(SelAliasMap(s, tp), tp, {})
  }

  function Visit(s: Select, tp: TablePolicies): Select {
    var am := SelAliasMap(s, tp);
    if am == [] then s
    else s.(projs := RewriteProjs(ExpandStars(s.projs, am, tp), am, tp),
            where := AddCondition(s.where, SelConditions(s, tp)))
  }

  // ----- kids and depth under a visit -----

  lemma {:induction false} FilterHasNoKids(alias: string, rf: RowFilter)
    ensures Kids(FilterExpr(alias, rf)) == []
    ensures forall m :: Apply(FilterExpr(alias, rf), m) == FilterExpr(alias, rf)
  {
  }

  lemma {:induction false} OwnConditionsNoKids(alias: string, key: string, fs: seq<RowFilter>, seen: Seen)
    ensures forall c | c in OwnConditions(alias, key, fs, seen) ::
            exists f :: f in fs && f.column != "" && c == FilterExpr(alias, f)
  {
    if fs != [] {
      OwnConditionsNoKids(alias, key, fs[1..], seen);
      OwnConditionsNoKids(alias, key, fs[1..], seen + {(key, fs[0])});
    }
  }

  /** Every injected condition is a row filter of a decision, under an alias of that decision. */
  lemma {:induction false} ConditionsAreFilters(am: AliasMap, tp: TablePolicies, seen: Seen)
    ensures forall c | c in Conditions(am, tp, seen) ::
              exists e, f :: e in am && f in FiltersOf(tp, e.key) && f.column != "" && c == FilterExpr(e.alias, f)
  {
    if am != [] {
      var fs := FiltersOf(tp, am[0].key);
      OwnConditionsNoKids(am[0].alias, am[0].key, fs, seen);
      ConditionsAreFilters(am[1..], tp, seen + Marked(am[0].key, fs));
      assert am[0] in am;
      assert forall e | e in am[1..] :: e in am;
    }
  }

  lemma {:induction false} ConjoinNoKids(cs: seq<Expr>)
    requires cs != [] && forall c | c in cs :: Kids(c) == []
    ensures Kids(Conjoin(cs)) == []
  {
    assert cs == cs[..|cs| - 1] + [cs[|cs| - 1]];
    assert cs[|cs| - 1] in cs;
    if |cs| > 1 { ConjoinNoKids(cs[..|cs| - 1]); }
  }

  /** The injected condition holds no nested SELECT. */
  lemma {:induction false} FilterNoKids(s: Select, tp: TablePolicies)
    requires SelConditions(s, tp) != []
    ensures Kids(Conjoin(SelConditions(s, tp))) == []
  {
    ConditionsAreFilters(SelAliasMap(s, tp), tp, {});
    forall c | c in SelConditions(s, tp)
      ensures Kids(c) == []
    {
      var e, f :| e in SelAliasMap(s, tp) && f in FiltersOf(tp, e.key) && c == FilterExpr(e.alias, f);
      FilterHasNoKids(e.alias, f);
    }
    ConjoinNoKids(SelConditions(s, tp));
  }

  lemma {:induction false} ExpandStarsFrom(ps: seq<Expr>, am: AliasMap, tp: TablePolicies)
    ensures forall p | p in ExpandStars(ps, am, tp) :: p.Col? || p in ps
  {
    if ps != [] {
      ExpandStarsFrom(ps[1..], am, tp);
      AllKnownAreColumns(am, tp);
    }
  }

  lemma {:induction false} AllKnownAreColumns(am: AliasMap, tp: TablePolicies)
    ensures forall p | p in AllKnown(am, tp) :: p.Col? && p.table == ""
  {
    if am != [] { AllKnownAreColumns(am[1..], tp); }
  }

  lemma {:induction false} RewriteProjShape(p: Expr, am: AliasMap, tp: TablePolicies)
    ensures RewriteProj(p, am, tp) == p || Kids(RewriteProj(p, am, tp)) == []
  {
  }

  lemma {:induction false} RewriteProjKids(qs: seq<Expr>, ps: seq<Expr>, am: AliasMap, tp: TablePolicies, k: Select)
    requires forall q | q in qs :: q.Col? || q in ps
    requires k in KidsL(RewriteProjs(qs, am, tp))
    ensures k in KidsL(ps)
  {
    var i :| 0 <= i < |qs| && k in Kids(RewriteProjs(qs, am, tp)[i]);
    RewriteProjShape(qs[i], am, tp);
    assert qs[i] in qs;
    assert k in Kids(qs[i]);
  }

  lemma {:induction false} RewriteProjsKids(ps: seq<Expr>, am: AliasMap, tp: TablePolicies)
    ensures forall k | k in KidsL(RewriteProjs(ExpandStars(ps, am, tp), am, tp)) :: k in KidsL(ps)
  {
    var qs := ExpandStars(ps, am, tp);
    ExpandStarsFrom(ps, am, tp);
    forall k | k in KidsL(RewriteProjs(qs, am, tp)) { RewriteProjKids(qs, ps, am, tp, k); }
  }

  /** A visit keeps or drops children; it adds none. */
  lemma {:induction false} VisitKids(s: Select, tp: TablePolicies)
    ensures forall k | k in SelKids(Visit(s, tp)) :: k in SelKids(s)
  {
    var am := SelAliasMap(s, tp);
    if am != [] {
      RewriteProjsKids(s.projs, am, tp);
      if SelConditions(s, tp) != [] { FilterNoKids(s, tp); }
      var t := Visit(s, tp);
      assert forall k | k in KidsO(t.where) :: k in KidsO(s.where);
    }
  }

  lemma {:induction false} VisitDepth(s: Select, tp: TablePolicies)
    ensures Depth(Visit(s, tp)) <= Depth(s)
  {
    VisitKids(s, tp);
    DepthBound(s, Visit(s, tp));
  }

  // ----- the nested walk -----

  /**
   The walk over a SELECT: each nested SELECT is rewritten when it is reached,
   and the walk goes on into what the rewriting made of it.
   */
  function Walk(s: Select, tp: TablePolicies): (r: Select)
    decreases Depth(s), 0
    ensures Depth(r) <= Depth(s)
  {
    var m := map k | k in SelKids(s) :: Walk(Rewrite(k, tp), tp);
    DepthApply(s, m);
    SelApply(s, m)
  }

  /** Rewriting a SELECT: walk everything below it, then visit it. */
  function Rewrite(s: Select, tp: TablePolicies): (r: Select)
    decreases Depth(s), 1
    ensures Depth(r) <= Depth(s)
  {
    VisitDepth(Walk(s, tp), tp);
    Visit(Walk(s, tp), tp)
  }

  /** A single bottom-up pass. */
  function OnePass(s: Select, tp: TablePolicies): Select
    decreases s
  {
    Visit(SelApply(s, map k | k in SelKids(s) :: OnePass(k, tp)), tp)
  }

  function WalkMap(s: Select, tp: TablePolicies): Subst {
    map k | k in SelKids(s) :: Walk(Rewrite(k, tp), tp)
  }

  lemma {:induction false} RewriteUnfolds(s: Select, tp: TablePolicies)
    ensures Rewrite(s, tp) == Visit(SelApply(s, WalkMap(s, tp)), tp)
  {
    WalkUnfolds(s, tp);
  }

  lemma {:induction false} WalkUnfolds(s: Select, tp: TablePolicies)
    ensures Walk(s, tp) == SelApply(s, WalkMap(s, tp))
  {
    var m := map k | k in SelKids(s) :: Walk(Rewrite(k, tp), tp);
    assert Walk(s, tp) == SelApply(s, m);
    assert m == WalkMap(s, tp);
  }

  /** Every child of a walked tree is what the walk made of a child. */
  lemma {:induction false} WalkedKid(s: Select, tp: TablePolicies, t: Select) returns (k: Select)
    requires t in SelKids(Walk(s, tp))
    ensures k in SelKids(s) && t == Walk(Rewrite(k, tp), tp)
  {
    WalkUnfolds(s, tp);
    SelKidsApply(s, WalkMap(s, tp));
    var i :| 0 <= i < |SelKids(s)| && t == Get(WalkMap(s, tp), SelKids(s)[i]);
    k := SelKids(s)[i];
  }
}
