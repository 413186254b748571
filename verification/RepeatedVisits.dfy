/**
 The nested walk visits a SELECT several times.  Visits after the first only
 repeat conjuncts, so rewriting is idempotent up to repeated conjuncts.
 */
module RepeatedVisits {
  import opened Wrappers
  import opened Policies
  import opened SqlSyntax
  import opened Rewriter
  import opened ProjectionInvariant

  // ----- trees up to repeated filters -----

  /** `w` with the repetitions of a trailing conjunct `f` dropped. */
  function Collapse(w: Expr, f: Expr): Expr {
    if w.And? && w.right == f && (w.left == f || (w.left.And? && w.left.right == f)) then Collapse(w.left, f) else w
  }

  function CollapseWhere(where: Option<Expr>, cs: seq<Expr>): Option<Expr> {
    if cs == [] || where.None? then where else Some(Collapse(where.value, Conjoin(cs)))
  }

  function TidyHere(s: Select, tp: TablePolicies): Select {
    s.(where := CollapseWhere(s.where, SelConditions(s, tp)))
  }

  /** The tree in which no SELECT repeats its row filter. */
  function Tidy(s: Select, tp: TablePolicies): Select
    decreases s
  {
    TidyHere(SelApply(s, map k | k in SelKids(s) :: Tidy(k, tp)), tp)
  }

  lemma {:induction false} TidyProjs(s: Select, tp: TablePolicies, i: nat)
    requires i < |s.projs| && Kids(s.projs[i]) == []
    ensures |Tidy(s, tp).projs| == |s.projs| && Tidy(s, tp).projs[i] == s.projs[i]
  {
    var m := map k | k in SelKids(s) :: Tidy(k, tp);
    assert Tidy(s, tp).projs == ApplyL(s.projs, m);
    ApplyNothing(s.projs[i], m);
  }

  lemma {:induction false} ConditionsApply(s: Select, m: Subst, tp: TablePolicies)
    ensures SelAliasMap(SelApply(s, m), tp) == SelAliasMap(s, tp)
    ensures SelConditions(SelApply(s, m), tp) == SelConditions(s, tp)
  {
    SourcesApply(s.sources, m, tp);
  }

  lemma {:induction false} TidyApply(s: Select, m: Subst, n: Subst, tp: TablePolicies)
    requires forall k | k in SelKids(s) :: Tidy(Get(m, k), tp) == Get(n, k)
    ensures Tidy(SelApply(s, m), tp) == TidyHere(SelApply(s, n), tp)
  {
    var t := SelApply(s, m);
    var tm := map k | k in SelKids(t) :: Tidy(k, tp);
    SelKidsApply(s, m);
    forall k | k in SelKids(s)
      ensures Get(tm, Get(m, k)) == Get(n, k)
    {
      var i :| 0 <= i < |SelKids(s)| && SelKids(s)[i] == k;
      assert SelKids(t)[i] == Get(m, k);
    }
    SelApplyTwice(s, m, tm, n);
  }

  // ----- a visit of a settled tree -----

  lemma {:induction false} CollapseRepeated(where: Option<Expr>, cs: seq<Expr>)
    requires EndsIn(where, cs)
    ensures CollapseWhere(AddCondition(where, cs), cs) == CollapseWhere(where, cs)
  {
  }

  lemma {:induction false} CollapseKids(w: Expr, f: Expr)
    requires Kids(f) == []
    ensures Kids(Collapse(w, f)) == Kids(w)
    decreases w
  {
    if w.And? && w.right == f && (w.left == f || (w.left.And? && w.left.right == f)) { CollapseKids(w.left, f); }
  }

  function TidyKids(s: Select, tp: TablePolicies): Subst {
    map k | k in SelKids(s) :: Tidy(k, tp)
  }

  /** Tidying after a change of WHERE that keeps the children. */
  lemma {:induction false} TidyWhere(s: Select, where: Option<Expr>, tp: TablePolicies)
    requires forall k :: k in KidsO(where) <==> k in KidsO(s.where)
    ensures Tidy(s.(where := where), tp)
            == TidyHere(SelApply(s, TidyKids(s, tp)).(where := ApplyO(where, TidyKids(s, tp))), tp)
  {
    var t := s.(where := where);
    assert forall k :: k in SelKids(t) <==> k in SelKids(s);
    assert TidyKids(t, tp) == TidyKids(s, tp);
  }

  /** Visiting a settled SELECT again changes nothing but repeated conjuncts. */
  lemma {:induction false} VisitAgainTidy(s: Select, tp: TablePolicies)
    requires SettledHere(s, tp)
    ensures Tidy(Visit(s, tp), tp) == Tidy(s, tp)
  {
    VisitSettledAgain(s, tp);
    var cs := SelConditions(s, tp);
    if SelAliasMap(s, tp) != [] && cs != [] {
      FilterNoKids(s, tp);
      TidyWhere(s, AddCondition(s.where, cs), tp);
      TidyWhere(s, s.where, tp);
      RepeatedWhere(s, TidyKids(s, tp), tp);
    }
  }

  lemma {:induction false} RepeatedWhere(s: Select, n: Subst, tp: TablePolicies)
    requires EndsIn(s.where, SelConditions(s, tp))
    ensures var t := SelApply(s, n);
            TidyHere(t.(where := ApplyO(AddCondition(s.where, SelConditions(s, tp)), n)), tp) == TidyHere(t, tp)
  {
    var cs := SelConditions(s, tp);
    ConditionsApply(s, n, tp);
    if cs != [] {
      FilterNoKids(s, tp);
      ApplyNothing(Conjoin(cs), n);
      EndsInApply(s, n, tp);
      CollapseRepeated(ApplyO(s.where, n), cs);
    }
  }

  lemma {:induction false} WalkAgainTidy(s: Select, tp: TablePolicies)
    requires Settled(s, tp)
    ensures Tidy(Walk(s, tp), tp) == Tidy(s, tp)
    decreases Depth(s), 0
  {
    var m := map k | k in SelKids(s) :: Walk(Rewrite(k, tp), tp);
    var n := map k | k in SelKids(s) :: Tidy(k, tp);
    forall k | k in SelKids(s)
      ensures Tidy(Get(m, k), tp) == Get(n, k)
    {
      RewriteAgainTidy(k, tp);
      RewriteSettles(k, tp);
      WalkAgainTidy(Rewrite(k, tp), tp);
    }
    TidyApply(s, m, n, tp);
  }

  /** Rewriting a settled tree again changes nothing but repeated conjuncts. */
  lemma {:induction false} RewriteAgainTidy(s: Select, tp: TablePolicies)
    requires Settled(s, tp)
    ensures Tidy(Rewrite(s, tp), tp) == Tidy(s, tp)
    decreases Depth(s), 1
  {
    WalkAgainTidy(s, tp);
    WalkKeepsSettled(s, tp);
    VisitAgainTidy(Walk(s, tp), tp);
  }

  /** Rewriting is idempotent up to repeated conjuncts, for every tree. */
  lemma {:induction false} RewriteIdempotent(s: Select, tp: TablePolicies)
    ensures Tidy(Rewrite(Rewrite(s, tp), tp), tp) == Tidy(Rewrite(s, tp), tp)
  {
    RewriteSettles(s, tp);
    RewriteAgainTidy(Rewrite(s, tp), tp);
  }

  // ----- the single pass -----

  function OnePassMap(s: Select, tp: TablePolicies): Subst {
    map k | k in SelKids(s) :: OnePass(k, tp)
  }

  lemma {:induction false} OnePassUnfolds(s: Select, tp: TablePolicies)
    ensures OnePass(s, tp) == Visit(SelApply(s, OnePassMap(s, tp)), tp)
  {
  }

  lemma {:induction false} LeafWalk(s: Select, tp: TablePolicies)
    requires SelKids(s) == []
    ensures Walk(s, tp) == s
  {
    SelApplyNothing(s, WalkMap(s, tp));
  }

  lemma {:induction false} LeafOnePass(s: Select, tp: TablePolicies)
    requires SelKids(s) == []
    ensures OnePass(s, tp) == Visit(s, tp)
  {
    SelApplyNothing(s, OnePassMap(s, tp));
  }

  lemma {:induction false} LeafVisit(s: Select, tp: TablePolicies)
    requires SelKids(s) == []
    ensures SelKids(Visit(s, tp)) == []
  {
    VisitKids(s, tp);
    EmptyOrInhabited(SelKids(Visit(s, tp)));
  }

  lemma {:induction false} LeafVisitedOnce(s: Select, tp: TablePolicies)
    requires SelKids(s) == []
    ensures Walk(Rewrite(s, tp), tp) == OnePass(s, tp)
  {
    LeafWalk(s, tp);
    LeafOnePass(s, tp);
    LeafVisit(s, tp);
    LeafWalk(Visit(s, tp), tp);
  }

  lemma {:induction false} VisitedWhere(s: Select, m: Subst, tm: Subst, n: Subst, tp: TablePolicies)
    requires forall k | k in KidsO(s.where) :: Get(tm, Get(m, k)) == Get(n, k)
    ensures var cs := SelConditions(s, tp);
            ApplyO(AddCondition(ApplyO(s.where, m), cs), tm) == AddCondition(ApplyO(s.where, n), cs)
  {
    var cs := SelConditions(s, tp);
    ApplyTwiceO(s.where, m, tm, n);
    if cs != [] {
      FilterNoKids(s, tp);
      AppliedConjunct(ApplyO(s.where, m), Conjoin(cs), tm);
    }
  }

  lemma {:induction false} AppliedConjunct(where: Option<Expr>, f: Expr, m: Subst)
    requires Kids(f) == []
    ensures Apply(f, m) == f
    ensures where.Some? ==> Apply(And(where.value, f), m) == And(Apply(where.value, m), f)
  {
    ApplyNothing(f, m);
  }

  /** A visit leaves the children of every clause but the projections in place. */
  lemma {:induction false} ClauseKids(s: Select, m: Subst, t: Select)
    requires var a := SelApply(s, m);
             t.sources == a.sources && t.ons == a.ons && t.group == a.group && t.having == a.having
               && t.order == a.order
             && (forall k | k in KidsO(a.where) :: k in KidsO(t.where))
    ensures forall k | k in KidsS(s.sources) || k in KidsL(s.ons) || k in KidsO(s.where)
                       || k in KidsL(s.group) || k in KidsO(s.having) || k in KidsL(s.order) :: Get(m, k) in SelKids(t)
  {
    KidsApplyS(s.sources, m);
    KidsApplyL(s.ons, m);
    KidsApplyO(s.where, m);
    KidsApplyL(s.group, m);
    KidsApplyO(s.having, m);
    KidsApplyL(s.order, m);
    InGetAll(m, KidsS(s.sources));
    InGetAll(m, KidsL(s.ons));
    InGetAll(m, KidsO(s.where));
    InGetAll(m, KidsL(s.group));
    InGetAll(m, KidsO(s.having));
    InGetAll(m, KidsL(s.order));
  }

  lemma {:induction false} InGetAll(m: Subst, ks: seq<Select>)
    ensures forall k | k in ks :: Get(m, k) in GetAll(m, ks)
  {
    forall k | k in ks
      ensures Get(m, k) in GetAll(m, ks)
    {
      var i :| 0 <= i < |ks| && ks[i] == k;
      assert GetAll(m, ks)[i] == Get(m, k);
    }
  }

  lemma {:induction false} WalkedTidy(s: Select, tp: TablePolicies)
    ensures Tidy(Walk(Rewrite(s, tp), tp), tp) == Tidy(Rewrite(s, tp), tp)
  {
    RewriteSettles(s, tp);
    WalkAgainTidy(Rewrite(s, tp), tp);
  }
}
