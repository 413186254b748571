/**
 When two evaluations agree.

 The two sides may differ in the values at the *hidden* positions of the tuples, and
 in the SELECTs nested in the expressions, as long as no expression reads a hidden
 position and nested SELECTs in the same place compute the same rows.
 */
module Congruence {
  import opened Wrappers
  import opened Text
  import opened SqlSyntax
  import opened Rewriter
  import opened Semantics

  type Hidden = set<(nat, nat)>   // (source, column) pairs of a scope

  predicate RowAlike(hid: Hidden, i: nat, r: Row, r': Row) {
    |r| == |r'| && forall j | 0 <= j < |r| :: (i, j) !in hid ==> r[j] == r'[j]
  }

  predicate TupleAlike(hid: Hidden, t: Tuple, t': Tuple) {
    |t| == |t'| && forall i | 0 <= i < |t| :: RowAlike(hid, i, t[i], t'[i])
  }

  predicate GroupAlike(hid: Hidden, g: Group, g': Group) {
    |g| == |g'| && forall i | 0 <= i < |g| :: TupleAlike(hid, g[i], g'[i])
  }

  predicate GroupsAlike(hid: Hidden, gs: seq<Group>, gs': seq<Group>) {
    |gs| == |gs'| && forall i | 0 <= i < |gs| :: GroupAlike(hid, gs[i], gs'[i])
  }

  /** The column references an expression makes in its own scope. */
  function Direct(e: Expr): seq<Ref> {
    match e
    case Col(t, n) => [Ref(t, n)]
    case Op(_, l, r) => Direct(l) + Direct(r)
    case And(l, r) => Direct(l) + Direct(r)
    case InList(a, _) => Direct(a)
    case Agg(_, a) => Direct(a)
    case Sub(_, a, _) => Direct(a)
    case Alias(a, _) => Direct(a)
    case _ => []
  }

  /** The stars inside an expression that stand for rows, by the source they name. */
  function Stars(e: Expr): seq<Option<string>> {
    match e
    case Star => [None]
    case QualStar(t) => [Some(t)]
    case Op(_, l, r) => Stars(l) + Stars(r)
    case And(l, r) => Stars(l) + Stars(r)
    case InList(a, _) => Stars(a)
    case Agg(_, a) => if a.Star? then [] else Stars(a)
    case Sub(_, a, _) => Stars(a)
    case Alias(a, _) => Stars(a)
    case _ => []
  }

  /** A star covers no hidden position. */
  predicate BlindStar(scope: Scope, hid: Hidden, table: Option<string>) {
    forall p | p in hid && p.0 < |scope| :: !Covers(table, scope[p.0].name)
  }

  /** The reference reads no hidden position, be it a column or a row. */
  ghost predicate BlindRef(scope: Scope, hid: Hidden, r: Ref) {
    && (forall i: nat, j: nat :: Answers(scope, r, i, j) ==> (i, j) !in hid)
    && (Unanswered(scope, r) ==> BlindStar(scope, hid, Some(RowSource(r))))
  }

  /** No reference and no star of the expression reads a hidden position. */
  ghost predicate Blind(scope: Scope, hid: Hidden, e: Expr) {
    && (forall r | r in Direct(e) :: BlindRef(scope, hid, r))
    && (forall table | table in Stars(e) :: BlindStar(scope, hid, table))
  }

  ghost predicate BlindProj(scope: Scope, hid: Hidden, p: Expr) {
    match p
    case Star => BlindStar(scope, hid, None)
    case QualStar(t) => BlindStar(scope, hid, Some(t))
    case _ => Blind(scope, hid, p)
  }

  ghost predicate BlindL(scope: Scope, hid: Hidden, es: seq<Expr>) {
    forall i | 0 <= i < |es| :: Blind(scope, hid, es[i])
  }

  ghost predicate BlindO(scope: Scope, hid: Hidden, o: Option<Expr>) {
    o.Some? ==> Blind(scope, hid, o.value)
  }

  /** Nested SELECTs and their replacements compute the same rows. */
  predicate KidsAgree(sub: Results, sub': Results, m: Subst, ks: seq<Select>) {
    forall k | k in ks :: RowsOf(sub', Get(m, k)) == RowsOf(sub, k)
  }

  // ----- expressions -----

  lemma {:induction false} StarRowCong(scope: Scope, hid: Hidden, n: nat, t: Tuple, t': Tuple, table: Option<string>)
    requires n <= |t| == |t'| && n <= |scope| && TupleAlike(hid, t, t') && BlindStar(scope, hid, table)
    ensures StarRow(scope[n..], t[n..], table) == StarRow(scope[n..], t'[n..], table)
    decreases |t| - n
  {
    if n < |t| && n < |scope| {
      StarRowCong(scope, hid, n + 1, t, t', table);
      if Covers(table, scope[n].name) { assert RowAlike(hid, n, t[n], t'[n]); assert t[n] == t'[n]; }
      assert scope[n..][1..] == scope[n + 1..] && t[n..][1..] == t[n + 1..] && t'[n..][1..] == t'[n + 1..];
    }
  }

  lemma {:induction false} StarCong(scope: Scope, hid: Hidden, t: Tuple, t': Tuple, table: Option<string>)
    requires TupleAlike(hid, t, t') && BlindStar(scope, hid, table)
    ensures StarRow(scope, t, table) == StarRow(scope, t', table)
  {
    assert scope[0..] == scope && t[0..] == t && t'[0..] == t';
    StarRowCong(scope, hid, 0, t, t', table);
  }

  /** Under distinct names a source's row is all that its name covers. */
  lemma {:induction false} StarAlone(scope: Scope, t: Tuple, i: nat, name: string)
    requires i < |scope| == |t| && Lower(scope[i].name) == Lower(name)
    requires forall k | 0 <= k < |scope| && k != i :: Lower(scope[k].name) != Lower(name)
    ensures StarCols(scope, Some(name)) == scope[i].cols && StarRow(scope, t, Some(name)) == t[i]
  {
    if i > 0 {
      StarAlone(scope[1..], t[1..], i - 1, name);
    } else {
      StarNone(scope[1..], t[1..], name);
    }
  }

  lemma {:induction false} StarNone(scope: Scope, t: Tuple, name: string)
    requires |scope| == |t| && forall k | 0 <= k < |scope| :: Lower(scope[k].name) != Lower(name)
    ensures StarCols(scope, Some(name)) == [] && StarRow(scope, t, Some(name)) == []
  {
    if scope != [] { StarNone(scope[1..], t[1..], name); }
  }

  lemma {:induction false} LookupCong(E: Engine, scope: Scope, hid: Hidden, t: Tuple, t': Tuple, r: Ref)
    requires TupleAlike(hid, t, t') && BlindRef(scope, hid, r)
    ensures Lookup(E, scope, t, r) == Lookup(E, scope, t', r)
  {
    if Unanswered(scope, r) { StarCong(scope, hid, t, t', Some(RowSource(r))); }
  }

  lemma {:induction false} EvalCong(E: Engine, sub: Results, sub': Results, m: Subst, scope: Scope, hid: Hidden,
                                    g: Group, g': Group, e: Expr)
    requires GroupAlike(hid, g, g') && Blind(scope, hid, e) && KidsAgree(sub, sub', m, Kids(e))
    ensures Eval(E, sub', scope, g', Apply(e, m)) == Eval(E, sub, scope, g, e)
    decreases e
  {
    match e
    case Col(t, n) => if g != [] { LookupCong(E, scope, hid, g[0], g'[0], Ref(t, n)); }
    case Star => if g != [] { StarCong(scope, hid, g[0], g'[0], None); }
    case QualStar(t) => if g != [] { StarCong(scope, hid, g[0], g'[0], Some(t)); }
    case Op(_, l, r) =>
      EvalCong(E, sub, sub', m, scope, hid, g, g', l);
      EvalCong(E, sub, sub', m, scope, hid, g, g', r);
    case And(l, r) => EvalCong(E, sub, sub', m, scope, hid, g, g', l); EvalCong(E, sub, sub', m, scope, hid, g, g', r);
    case InList(a, _) => EvalCong(E, sub, sub', m, scope, hid, g, g', a);
    case Agg(_, a) =>
      if !a.Star? {
        forall i | 0 <= i < |g| { EvalCong(E, sub, sub', m, scope, hid, [g[i]], [g'[i]], a); }
      }
      AggSame(E, sub, sub', m, scope, g, g', a);
    case Sub(_, a, q) => assert q in Kids(e); EvalCong(E, sub, sub', m, scope, hid, g, g', a);
    case Alias(a, _) => EvalCong(E, sub, sub', m, scope, hid, g, g', a);
    case _ =>
  }

  lemma {:induction false} AggSame(E: Engine, sub: Results, sub': Results, m: Subst, scope: Scope, g: Group, g': Group,
                                   a: Expr)
    requires |g| == |g'|
    requires !a.Star? ==> forall i | 0 <= i < |g| ::
                            Eval(E, sub', scope, [g'[i]], Apply(a, m)) == Eval(E, sub, scope, [g[i]], a)
    ensures seq(|g|, i requires 0 <= i < |g| => if a.Star? then VNull else Eval(E, sub, scope, [g[i]], a))
            == seq(|g'|, i requires 0 <= i < |g'| =>
                 if Apply(a, m).Star? then VNull else Eval(E, sub', scope, [g'[i]], Apply(a, m)))
  {
  }

  lemma {:induction false} EvalLCong(E: Engine, sub: Results, sub': Results, m: Subst, scope: Scope, hid: Hidden,
                                     g: Group, g': Group, es: seq<Expr>)
    requires GroupAlike(hid, g, g') && BlindL(scope, hid, es) && KidsAgree(sub, sub', m, KidsL(es))
    ensures EvalL(E, sub', scope, g', ApplyL(es, m)) == EvalL(E, sub, scope, g, es)
  {
    forall i | 0 <= i < |es|
      ensures Eval(E, sub', scope, g', Apply(es[i], m)) == Eval(E, sub, scope, g, es[i])
    {
      EvalCong(E, sub, sub', m, scope, hid, g, g', es[i]);
    }
  }

  lemma {:induction false} HoldsCong(E: Engine, sub: Results, sub': Results, m: Subst, scope: Scope, hid: Hidden,
                                     g: Group, g': Group, o: Option<Expr>)
    requires GroupAlike(hid, g, g') && BlindO(scope, hid, o) && KidsAgree(sub, sub', m, KidsO(o))
    ensures Holds(E, sub', scope, g', ApplyO(o, m)) == Holds(E, sub, scope, g, o)
  {
    if o.Some? { EvalCong(E, sub, sub', m, scope, hid, g, g', o.value); }
  }

  // ----- WHERE -----

  lemma {:induction false} PassesCong(E: Engine, sub: Results, sub': Results, m: Subst, scope: Scope, hid: Hidden,
                                      s: Select, t: Tuple, t': Tuple)
    requires TupleAlike(hid, t, t') && BlindL(scope, hid, s.ons) && BlindO(scope, hid, s.where)
    requires KidsAgree(sub, sub', m, KidsL(s.ons)) && KidsAgree(sub, sub', m, KidsO(s.where))
    ensures Passes(E, sub', scope, SelApply(s, m), t') == Passes(E, sub, scope, s, t)
  {
    EvalLCong(E, sub, sub', m, scope, hid, [t], [t'], s.ons);
    assert forall i | 0 <= i < |s.ons| :: EvalL(E, sub, scope, [t], s.ons)[i] == Eval(E, sub, scope, [t], s.ons[i]);
    assert forall i | 0 <= i < |s.ons| ::
      EvalL(E, sub', scope, [t'], ApplyL(s.ons, m))[i] == Eval(E, sub', scope, [t'], ApplyL(s.ons, m)[i]);
    HoldsCong(E, sub, sub', m, scope, hid, [t], [t'], s.where);
  }

  lemma {:induction false} KeptCong(E: Engine, sub: Results, sub': Results, scope: Scope, hid: Hidden, s: Select,
                                    s': Select, ts: seq<Tuple>, ts': seq<Tuple>)
    requires GroupAlike(hid, ts, ts')
    requires forall i | 0 <= i < |ts| :: Passes(E, sub', scope, s', ts'[i]) == Passes(E, sub, scope, s, ts[i])
    ensures GroupAlike(hid, Kept(E, sub, scope, s, ts), Kept(E, sub', scope, s', ts'))
  {
    if ts != [] {
      assert forall i | 0 <= i < |ts| - 1 :: ts[1..][i] == ts[i + 1] && ts'[1..][i] == ts'[i + 1];
      KeptCong(E, sub, sub', scope, hid, s, s', ts[1..], ts'[1..]);
    }
  }

  // ----- GROUP BY, HAVING, ORDER BY -----

  lemma {:induction false} PickCong(hid: Hidden, ts: seq<Tuple>, ts': seq<Tuple>, at: seq<nat>)
    requires GroupAlike(hid, ts, ts')
    ensures GroupAlike(hid, Pick(ts, at), Pick(ts', at))
  {
    if at != [] { PickCong(hid, ts, ts', at[1..]); }
  }

  lemma {:induction false} PickGroupsCong(hid: Hidden, gs: seq<Group>, gs': seq<Group>, at: seq<nat>)
    requires GroupsAlike(hid, gs, gs')
    ensures GroupsAlike(hid, Pick(gs, at), Pick(gs', at))
  {
    if at != [] { PickGroupsCong(hid, gs, gs', at[1..]); }
  }

  lemma {:induction false} HasAggApply(e: Expr, m: Subst)
    ensures HasAgg(Apply(e, m)) == HasAgg(e)
  {
    match e
    case Op(_, l, r) => HasAggApply(l, m); HasAggApply(r, m);
    case And(l, r) => HasAggApply(l, m); HasAggApply(r, m);
    case InList(a, _) => HasAggApply(a, m);
    case Sub(_, a, _) => HasAggApply(a, m);
    case Alias(a, _) => HasAggApply(a, m);
    case _ =>
  }

  lemma {:induction false} AggregatesApply(s: Select, m: Subst)
    ensures Aggregates(SelApply(s, m)) == Aggregates(s)
  {
    var ps := SelApply(s, m).projs;
    forall i | 0 <= i < |s.projs|
      ensures HasAgg(ps[i]) == HasAgg(s.projs[i])
    {
      HasAggApply(s.projs[i], m);
    }
    assert (exists i | 0 <= i < |ps| :: HasAgg(ps[i])) == (exists i | 0 <= i < |s.projs| :: HasAgg(s.projs[i]));
    if s.having.Some? { HasAggApply(s.having.value, m); }
  }

  lemma {:induction false} GroupedCong(E: Engine, sub: Results, sub': Results, m: Subst, scope: Scope, hid: Hidden,
                                       s: Select, ts: seq<Tuple>, ts': seq<Tuple>)
    requires GroupAlike(hid, ts, ts') && BlindL(scope, hid, s.group) && KidsAgree(sub, sub', m, KidsL(s.group))
    ensures GroupsAlike(hid, Grouped(E, sub, scope, s, ts), Grouped(E, sub', scope, SelApply(s, m), ts'))
  {
    AggregatesApply(s, m);
    if s.group != [] {
      forall i | 0 <= i < |ts|
        ensures EvalL(E, sub', scope, [ts'[i]], ApplyL(s.group, m)) == EvalL(E, sub, scope, [ts[i]], s.group)
      {
        EvalLCong(E, sub, sub', m, scope, hid, [ts[i]], [ts'[i]], s.group);
      }
      assert GroupKeys(E, sub', scope, ApplyL(s.group, m), ts') == GroupKeys(E, sub, scope, s.group, ts);
      var parts := E.groups(GroupKeys(E, sub, scope, s.group, ts));
      forall i | 0 <= i < |parts| { PickCong(hid, ts, ts', parts[i]); }
    }
  }

  lemma {:induction false} HavingCong(E: Engine, sub: Results, sub': Results, m: Subst, scope: Scope, hid: Hidden,
                                      having: Option<Expr>, gs: seq<Group>, gs': seq<Group>)
    requires GroupsAlike(hid, gs, gs') && BlindO(scope, hid, having) && KidsAgree(sub, sub', m, KidsO(having))
    ensures GroupsAlike(hid, Having(E, sub, scope, having, gs), Having(E, sub', scope, ApplyO(having, m), gs'))
  {
    if gs != [] {
      HoldsCong(E, sub, sub', m, scope, hid, gs[0], gs'[0], having);
      HavingCong(E, sub, sub', m, scope, hid, having, gs[1..], gs'[1..]);
    }
  }

  lemma {:induction false} OrderedCong(E: Engine, sub: Results, sub': Results, m: Subst, scope: Scope, hid: Hidden,
                                       es: seq<Expr>, gs: seq<Group>, gs': seq<Group>)
    requires GroupsAlike(hid, gs, gs') && BlindL(scope, hid, es) && KidsAgree(sub, sub', m, KidsL(es))
    ensures GroupsAlike(hid, Ordered(E, sub, scope, es, gs), Ordered(E, sub', scope, ApplyL(es, m), gs'))
  {
    if es != [] {
      forall i | 0 <= i < |gs|
        ensures EvalL(E, sub', scope, gs'[i], ApplyL(es, m)) == EvalL(E, sub, scope, gs[i], es)
      {
        EvalLCong(E, sub, sub', m, scope, hid, gs[i], gs'[i], es);
      }
      assert OrderKeys(E, sub', scope, ApplyL(es, m), gs') == OrderKeys(E, sub, scope, es, gs);
      PickGroupsCong(hid, gs, gs', E.order(OrderKeys(E, sub, scope, es, gs)));
    }
  }

  // ----- projections -----

  lemma {:induction false} OutValuesCong(E: Engine, sub: Results, sub': Results, m: Subst, scope: Scope, hid: Hidden,
                                         g: Group, g': Group, p: Expr)
    requires GroupAlike(hid, g, g') && BlindProj(scope, hid, p) && KidsAgree(sub, sub', m, Kids(p))
    ensures OutValues(E, sub', scope, g', Apply(p, m)) == OutValues(E, sub, scope, g, p)
  {
    match p
    case Star => if g != [] { StarCong(scope, hid, g[0], g'[0], None); }
    case QualStar(t) => if g != [] { StarCong(scope, hid, g[0], g'[0], Some(t)); }
    case _ => EvalCong(E, sub, sub', m, scope, hid, g, g', p);
  }

  lemma {:induction false} OutRowCong(E: Engine, sub: Results, sub': Results, m: Subst, scope: Scope, hid: Hidden,
                                      g: Group, g': Group, ps: seq<Expr>)
    requires GroupAlike(hid, g, g') && (forall i | 0 <= i < |ps| :: BlindProj(scope, hid, ps[i]))
             && KidsAgree(sub, sub', m, KidsL(ps))
    ensures OutRow(E, sub', scope, g', ApplyL(ps, m)) == OutRow(E, sub, scope, g, ps)
  {
    if ps != [] {
      assert ApplyL(ps, m)[1..] == ApplyL(ps[1..], m);
      OutValuesCong(E, sub, sub', m, scope, hid, g, g', ps[0]);
      OutRowCong(E, sub, sub', m, scope, hid, g, g', ps[1..]);
    }
  }

  lemma {:induction false} OutColsApply(scope: Scope, ps: seq<Expr>, m: Subst)
    ensures OutCols(scope, ApplyL(ps, m)) == OutCols(scope, ps)
  {
    if ps != [] {
      assert ApplyL(ps, m)[1..] == ApplyL(ps[1..], m);
      OutColsApply(scope, ps[1..], m);
    }
  }

  // ----- everything after WHERE -----

  /** No clause that runs after WHERE reads a hidden position. */
  ghost predicate BlindAfterWhere(scope: Scope, hid: Hidden, s: Select) {
    && BlindL(scope, hid, s.group) && BlindO(scope, hid, s.having) && BlindL(scope, hid, s.order)
    && (forall i | 0 <= i < |s.projs| :: BlindProj(scope, hid, s.projs[i]))
  }

  predicate KidsAgreeAfterWhere(sub: Results, sub': Results, m: Subst, s: Select) {
    && KidsAgree(sub, sub', m, KidsL(s.projs)) && KidsAgree(sub, sub', m, KidsL(s.group))
    && KidsAgree(sub, sub', m, KidsO(s.having)) && KidsAgree(sub, sub', m, KidsL(s.order))
  }

  lemma {:induction false} FinishCong(E: Engine, sub: Results, sub': Results, m: Subst, scope: Scope, hid: Hidden,
                                      s: Select, ts: seq<Tuple>, ts': seq<Tuple>)
    requires GroupAlike(hid, ts, ts') && BlindAfterWhere(scope, hid, s) && KidsAgreeAfterWhere(sub, sub', m, s)
    ensures Finish(E, sub', scope, SelApply(s, m), ts') == Finish(E, sub, scope, s, ts)
  {
    var s' := SelApply(s, m);
    var gs, gs' := Grouped(E, sub, scope, s, ts), Grouped(E, sub', scope, s', ts');
    GroupedCong(E, sub, sub', m, scope, hid, s, ts, ts');
    var hs, hs' := Having(E, sub, scope, s.having, gs), Having(E, sub', scope, s'.having, gs');
    HavingCong(E, sub, sub', m, scope, hid, s.having, gs, gs');
    var os, os' := Ordered(E, sub, scope, s.order, hs), Ordered(E, sub', scope, s'.order, hs');
    OrderedCong(E, sub, sub', m, scope, hid, s.order, hs, hs');
    forall i | 0 <= i < |os|
      ensures OutRow(E, sub', scope, os'[i], s'.projs) == OutRow(E, sub, scope, os[i], s.projs)
    {
      OutRowCong(E, sub, sub', m, scope, hid, os[i], os'[i], s.projs);
    }
    assert OutRows(E, sub', scope, s'.projs, os') == OutRows(E, sub, scope, s.projs, os);
    OutColsApply(scope, s.projs, m);
  }

  /** WHERE does not matter to what comes after it. */
  lemma {:induction false} FinishIgnoresWhere(E: Engine, sub: Results, scope: Scope, s: Select, where: Option<Expr>,
                                              ts: seq<Tuple>)
    ensures Finish(E, sub, scope, s.(where := where), ts) == Finish(E, sub, scope, s, ts)
  {
    assert Aggregates(s.(where := where)) == Aggregates(s);
  }

  // ----- nothing hidden -----

  lemma {:induction false} SelfAlike(ts: seq<Tuple>)
    ensures GroupAlike({}, ts, ts)
  {
  }
}
