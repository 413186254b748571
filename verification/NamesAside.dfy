/**
 What repeated visits can change at all: on every tree the nested walk and a single
 bottom-up pass agree up to repeated row filters and the names of suppressed projections.
 */
module NamesAside {
  import opened Wrappers
  import opened SqlSyntax
  import opened Rewriter
  import opened ProjectionInvariant
  import opened RepeatedVisits

  // ----- trees up to repeated filters and names of suppressed projections -----

  function Unname(p: Expr): Expr {
    if p.Alias? && p.arg.Null? then Null else p
  }

  function UnnameL(ps: seq<Expr>): seq<Expr> {
    seq(|ps|, i requires 0 <= i < |ps| => Unname(ps[i]))
  }

  function PlainHere(s: Select, tp: TablePolicies): Select {
    TidyHere(s, tp).(projs := UnnameL(s.projs))
  }

  /** The tree in which no SELECT repeats its row filter and no NULL projection has a name. */
  function Plain(s: Select, tp: TablePolicies): Select
    decreases s
  {
    PlainHere(SelApply(s, map k | k in SelKids(s) :: Plain(k, tp)), tp)
  }

  function PlainKids(s: Select, tp: TablePolicies): Subst {
    map k | k in SelKids(s) :: Plain(k, tp)
  }

  lemma {:induction false} PlainUnfolds(s: Select, tp: TablePolicies)
    ensures Plain(s, tp) == PlainHere(SelApply(s, PlainKids(s, tp)), tp)
  {
  }

  lemma {:induction false} PlainApply(s: Select, m: Subst, n: Subst, tp: TablePolicies)
    requires forall k | k in SelKids(s) :: Plain(Get(m, k), tp) == Get(n, k)
    ensures Plain(SelApply(s, m), tp) == PlainHere(SelApply(s, n), tp)
  {
    var t := SelApply(s, m);
    var pm := PlainKids(t, tp);
    SelKidsApply(s, m);
    forall k | k in SelKids(s)
      ensures Get(pm, Get(m, k)) == Get(n, k)
    {
      var i :| 0 <= i < |SelKids(s)| && SelKids(s)[i] == k;
      assert SelKids(t)[i] == Get(m, k);
    }
    SelApplyTwice(s, m, pm, n);
    PlainUnfolds(t, tp);
  }

  // ----- dropping repeated filters first makes no difference -----

  /** A filter is no other expression with its SELECTs replaced. */
  lemma {:induction false} ApplyIsFilter(e: Expr, f: Expr, u: Subst)
    requires Kids(f) == []
    ensures Apply(e, u) == f <==> e == f
  {
    ApplyNothing(f, u);
    if Apply(e, u) == f {
      KidsApply(e, u);
      assert |Kids(e)| == |GetAll(u, Kids(e))| == 0;
      ApplyNothing(e, u);
    }
  }

  lemma {:induction false} CollapseApply(w: Expr, f: Expr, u: Subst)
    requires Kids(f) == []
    ensures Apply(Collapse(w, f), u) == Collapse(Apply(w, u), f)
  {
    if w.And? {
      ApplyIsFilter(w.right, f, u);
      ApplyIsFilter(w.left, f, u);
      if w.left.And? { ApplyIsFilter(w.left.right, f, u); }
      CollapseApply(w.left, f, u);
    }
  }

  lemma {:induction false} CollapseTwice(w: Expr, f: Expr)
    ensures Collapse(Collapse(w, f), f) == Collapse(w, f)
  {
    if w.And? { CollapseTwice(w.left, f); }
  }

  lemma {:induction false} TidyHereKids(x: Select, tp: TablePolicies)
    ensures SelKids(TidyHere(x, tp)) == SelKids(x)
  {
    var cs := SelConditions(x, tp);
    if cs != [] && x.where.Some? {
      FilterNoKids(x, tp);
      CollapseKids(x.where.value, Conjoin(cs));
    }
  }

  lemma {:induction false} PlainTidyHere(x: Select, u: Subst, tp: TablePolicies)
    ensures PlainHere(SelApply(TidyHere(x, tp), u), tp) == PlainHere(SelApply(x, u), tp)
  {
    var cs := SelConditions(x, tp);
    ConditionsApply(x, u, tp);
    ConditionsApply(TidyHere(x, tp), u, tp);
    if cs != [] && x.where.Some? {
      FilterNoKids(x, tp);
      CollapseApply(x.where.value, Conjoin(cs), u);
      CollapseTwice(Apply(x.where.value, u), Conjoin(cs));
    }
  }

  lemma {:induction false} PlainOfTidyHere(x: Select, tp: TablePolicies)
    ensures Plain(TidyHere(x, tp), tp) == Plain(x, tp)
  {
    var y := TidyHere(x, tp);
    TidyHereKids(x, tp);
    assert PlainKids(y, tp) == PlainKids(x, tp);
    PlainUnfolds(x, tp);
    PlainUnfolds(y, tp);
    PlainTidyHere(x, PlainKids(x, tp), tp);
  }

  lemma {:induction false} PlainOfTidy(s: Select, tp: TablePolicies)
    ensures Plain(Tidy(s, tp), tp) == Plain(s, tp)
    decreases s
  {
    forall k | k in SelKids(s)
      ensures Plain(Get(TidyKids(s, tp), k), tp) == Get(PlainKids(s, tp), k)
    {
      PlainOfTidy(k, tp);
    }
    PlainApply(s, TidyKids(s, tp), PlainKids(s, tp), tp);
    PlainUnfolds(s, tp);
    PlainOfTidyHere(SelApply(s, TidyKids(s, tp)), tp);
  }

  // ----- such trees look the same to an enclosing projection -----

  lemma {:induction false} UnnamedRefs(ps: seq<Expr>)
    ensures RefsL(UnnameL(ps)) == RefsL(ps)
  {
    if ps != [] {
      UnnamedRefs(ps[1..]);
      assert UnnameL(ps)[1..] == UnnameL(ps[1..]);
    }
  }

  lemma {:induction false} JudgeCollapse(w: Expr, f: Expr, am: AliasMap, tp: TablePolicies)
    ensures Judge(Refs(Collapse(w, f)), am, tp) == Judge(Refs(w), am, tp)
  {
    if w.And? && w.right == f && (w.left == f || (w.left.And? && w.left.right == f)) {
      JudgeCollapse(w.left, f, am, tp);
      JudgeRepeatedFilter(Some(w.left), [f], am, tp);
    }
  }

  lemma {:induction false} JudgePlainHere(x: Select, tp: TablePolicies)
    ensures SameJudge(PlainHere(x, tp), x, tp)
  {
    var y, cs := PlainHere(x, tp), SelConditions(x, tp);
    UnnamedRefs(x.projs);
    forall am
      ensures Judge(SelRefs(y), am, tp) == Judge(SelRefs(x), am, tp)
    {
      if cs != [] && x.where.Some? { JudgeCollapse(x.where.value, Conjoin(cs), am, tp); }
      JudgeSelRefs(x, am, tp);
      JudgeSelRefs(y, am, tp);
    }
  }

  lemma {:induction false} PlainSameJudge(s: Select, tp: TablePolicies)
    ensures SameJudge(Plain(s, tp), s, tp)
    decreases s
  {
    forall k | k in SelKids(s)
      ensures SameJudge(Get(PlainKids(s, tp), k), k, tp)
    {
      PlainSameJudge(k, tp);
    }
    SameJudgeApply(s, PlainKids(s, tp), tp);
    JudgePlainHere(SelApply(s, PlainKids(s, tp)), tp);
    PlainUnfolds(s, tp);
  }

  function VerdictOn(p: Expr, am: AliasMap, tp: TablePolicies): Verdict {
    Judge(Refs(Inner(p)), am, tp)
  }

  lemma {:induction false} VerdictOverPlain(p: Expr, u: Subst, am: AliasMap, tp: TablePolicies)
    requires forall x | x in Kids(p) :: Get(u, x) == Plain(x, tp)
    ensures VerdictOn(Apply(p, u), am, tp) == VerdictOn(p, am, tp)
    ensures Keeps(Apply(p, u), am, tp) == Keeps(p, am, tp)
  {
    forall x | x in Kids(p)
      ensures Judge(SelRefs(Get(u, x)), am, tp) == Judge(SelRefs(x), am, tp)
    {
      PlainSameJudge(x, tp);
    }
    JudgeApply(Inner(p), u, am, tp);
    assert Inner(Apply(p, u)) == Apply(Inner(p), u);
  }

  lemma {:induction false} AppliedKids(q: Expr, m: Subst)
    ensures forall k | k in Kids(q) :: Get(m, k) in Kids(Apply(q, m))
  {
    KidsApply(q, m);
    InGetAll(m, Kids(q));
  }

  lemma {:induction false} PlainTwice(q: Expr, m: Subst, n: Subst, tp: TablePolicies) returns (u: Subst)
    requires forall k | k in Kids(q) :: Plain(Get(m, k), tp) == Get(n, k)
    ensures (forall x | x in Kids(Apply(q, m)) :: Get(u, x) == Plain(x, tp)) && Apply(Apply(q, m), u) == Apply(q, n)
  {
    u := map x | x in Kids(Apply(q, m)) :: Plain(x, tp);
    AppliedKids(q, m);
    ApplyTwice(q, m, u, n);
  }

  /** The verdict on a projection, and whether it stays, are told from its children's plain trees. */
  lemma {:induction false} KeepsPlain(q: Expr, m: Subst, n: Subst, am: AliasMap, tp: TablePolicies)
    requires forall k | k in Kids(q) :: Plain(Get(m, k), tp) == Get(n, k)
    ensures Keeps(Apply(q, m), am, tp) == Keeps(Apply(q, n), am, tp)
    ensures VerdictOn(Apply(q, m), am, tp) == VerdictOn(Apply(q, n), am, tp)
  {
    var u := PlainTwice(q, m, n, tp);
    VerdictOverPlain(Apply(q, m), u, am, tp);
  }

  // ----- what a visit leaves, in terms of the plain children -----

  lemma {:induction false} ColumnsApply(cols: seq<Expr>, m: Subst)
    requires forall p | p in cols :: p.Col?
    ensures ApplyL(cols, m) == cols
  {
    assert forall i | 0 <= i < |cols| :: cols[i] in cols;
  }

  lemma {:induction false} ExpandStarApply(p: Expr, m: Subst, am: AliasMap, tp: TablePolicies)
    ensures ExpandStar(Apply(p, m), am, tp) == ApplyL(ExpandStar(p, am, tp), m)
  {
    match p
    case Star =>
      AllKnownAreColumns(am, tp);
      ColumnsApply(AllKnown(am, tp), m);
    case QualStar(t) =>
      if Find(am, t).Some? { ColumnsApply(Columns(t, KnownOf(tp, Find(am, t).value)), m); }
    case _ =>
  }

  lemma {:induction false} ApplyLConcat(a: seq<Expr>, b: seq<Expr>, m: Subst)
    ensures ApplyL(a + b, m) == ApplyL(a, m) + ApplyL(b, m)
  {
  }

  lemma {:induction false} ExpandStarsApply(ps: seq<Expr>, m: Subst, am: AliasMap, tp: TablePolicies)
    ensures ExpandStars(ApplyL(ps, m), am, tp) == ApplyL(ExpandStars(ps, am, tp), m)
  {
    if ps != [] {
      ExpandStarApply(ps[0], m, am, tp);
      ExpandStarsApply(ps[1..], m, am, tp);
      assert ApplyL(ps, m)[1..] == ApplyL(ps[1..], m);
      ApplyLConcat(ExpandStar(ps[0], am, tp), ExpandStars(ps[1..], am, tp), m);
    }
  }

  /** The projections of a visited SELECT over plain children. */
  function PlainProjs(qs: seq<Expr>, n: Subst, am: AliasMap, tp: TablePolicies): seq<Expr> {
    seq(|qs|, i requires 0 <= i < |qs| => if Keeps(Apply(qs[i], n), am, tp) then Apply(qs[i], n) else Null)
  }

  lemma {:induction false} PlainProj(q: Expr, m: Subst, n: Subst, u: Subst, am: AliasMap, tp: TablePolicies)
    requires Keeps(Apply(q, m), am, tp) == Keeps(Apply(q, n), am, tp)
    requires forall k | k in Kids(q) && Keeps(Apply(q, m), am, tp) :: Get(u, Get(m, k)) == Get(n, k)
    ensures Unname(Apply(RewriteProj(Apply(q, m), am, tp), u))
            == Unname(if Keeps(Apply(q, n), am, tp) then Apply(q, n) else Null)
  {
    if Keeps(Apply(q, m), am, tp) { ApplyTwice(q, m, u, n); }
  }

  lemma {:induction false} PlainProjections(qs: seq<Expr>, m: Subst, n: Subst, u: Subst, am: AliasMap,
                                            tp: TablePolicies)
    requires forall i | 0 <= i < |qs| :: Keeps(Apply(qs[i], m), am, tp) == Keeps(Apply(qs[i], n), am, tp)
    requires forall i, k | 0 <= i < |qs| && k in Kids(qs[i]) && Keeps(Apply(qs[i], m), am, tp) ::
             Get(u, Get(m, k)) == Get(n, k)
    ensures UnnameL(ApplyL(RewriteProjs(ApplyL(qs, m), am, tp), u)) == UnnameL(PlainProjs(qs, n, am, tp))
  {
    forall i | 0 <= i < |qs|
      ensures Unname(Apply(RewriteProj(Apply(qs[i], m), am, tp), u)) == Unname(PlainProjs(qs, n, am, tp)[i])
    {
      PlainProj(qs[i], m, n, u, am, tp);
    }
  }

  /** A kept projection brings its SELECTs into the visited SELECT. */
  lemma {:induction false} KeptKids(ps: seq<Expr>, q: Expr, m: Subst, k: Select)
    requires Apply(q, m) in ps && k in Kids(q)
    ensures Get(m, k) in KidsL(ps)
  {
    KidsApply(q, m);
    InGetAll(m, Kids(q));
    var i :| 0 <= i < |ps| && ps[i] == Apply(q, m);
    assert Get(m, k) in Kids(ps[i]);
  }

  function PlainVisit(s: Select, n: Subst, tp: TablePolicies): Select {
    var am := SelAliasMap(s, tp);
    PlainHere(SelApply(s, n).(projs := PlainProjs(ExpandStars(s.projs, am, tp), n, am, tp),
                              where := AddCondition(ApplyO(s.where, n), SelConditions(s, tp))), tp)
  }

  lemma {:induction false} PlainClauses(s: Select, m: Subst, u: Subst, n: Subst, ps: seq<Expr>, tp: TablePolicies)
    requires forall k | k in KidsS(s.sources) || k in KidsL(s.ons) || k in KidsO(s.where)
                        || k in KidsL(s.group) || k in KidsO(s.having) || k in KidsL(s.order) ::
                          Get(u, Get(m, k)) == Get(n, k)
    ensures var t := SelApply(s, m).(projs := ps, where := AddCondition(ApplyO(s.where, m), SelConditions(s, tp)));
            SelApply(t, u) == SelApply(s, n).(projs := ApplyL(ps, u),
              where := AddCondition(ApplyO(s.where, n), SelConditions(s, tp)))
  {
    ApplyTwiceS(s.sources, m, u, n);
    ApplyTwiceL(s.ons, m, u, n);
    ApplyTwiceL(s.group, m, u, n);
    ApplyTwiceO(s.having, m, u, n);
    ApplyTwiceL(s.order, m, u, n);
    VisitedWhere(s, m, u, n, tp);
  }

  lemma {:induction false} SamePlainHere(s: Select, ps: seq<Expr>, qs: seq<Expr>, tp: TablePolicies)
    requires UnnameL(ps) == UnnameL(qs)
    ensures PlainHere(s.(projs := ps), tp) == PlainHere(s.(projs := qs), tp)
  {
  }

  /** Every child that a visit keeps is found, as a plain tree, under the child it came from. */
  lemma {:induction false} VisitedKids(s: Select, m: Subst, n: Subst, qs: seq<Expr>, t: Select, u: Subst,
                                       tp: TablePolicies)
    requires forall k | k in SelKids(s) :: Plain(Get(m, k), tp) == Get(n, k)
    requires qs == ExpandStars(s.projs, SelAliasMap(s, tp), tp) && u == PlainKids(t, tp)
    requires t == SelApply(s, m).(projs := RewriteProjs(ApplyL(qs, m), SelAliasMap(s, tp), tp),
                                  where := AddCondition(ApplyO(s.where, m), SelConditions(s, tp)))
    ensures forall k | k in KidsS(s.sources) || k in KidsL(s.ons) || k in KidsO(s.where)
                       || k in KidsL(s.group) || k in KidsO(s.having) || k in KidsL(s.order) ::
                         Get(u, Get(m, k)) == Get(n, k)
    ensures forall i, k | 0 <= i < |qs| && k in Kids(qs[i]) && Keeps(Apply(qs[i], m), SelAliasMap(s, tp), tp) ::
            Get(u, Get(m, k)) == Get(n, k)
  {
    ClauseKids(s, m, t);
    forall i, k | 0 <= i < |qs| && k in Kids(qs[i]) && Keeps(Apply(qs[i], m), SelAliasMap(s, tp), tp)
      ensures Get(u, Get(m, k)) == Get(n, k)
    {
      assert t.projs[i] == Apply(qs[i], m);
      KeptKids(t.projs, qs[i], m, k);
      ExpandedKids(s.projs, SelAliasMap(s, tp), tp, qs[i], k);
      assert Get(m, k) in SelKids(t) && k in SelKids(s);
    }
  }

  lemma {:induction false} VisitUnfolds(s: Select, m: Subst, qs: seq<Expr>, tp: TablePolicies)
    requires SelAliasMap(s, tp) != [] && qs == ExpandStars(s.projs, SelAliasMap(s, tp), tp)
    ensures Visit(SelApply(s, m), tp)
            == SelApply(s, m).(projs := RewriteProjs(ApplyL(qs, m), SelAliasMap(s, tp), tp),
                               where := AddCondition(ApplyO(s.where, m), SelConditions(s, tp)))
  {
    ConditionsApply(s, m, tp);
    ExpandStarsApply(s.projs, m, SelAliasMap(s, tp), tp);
  }

  lemma {:induction false} VisitPlainForm(s: Select, m: Subst, n: Subst, tp: TablePolicies)
    requires SelAliasMap(s, tp) != []
    requires forall k | k in SelKids(s) :: Plain(Get(m, k), tp) == Get(n, k)
    ensures Plain(Visit(SelApply(s, m), tp), tp) == PlainVisit(s, n, tp)
  {
    var am := SelAliasMap(s, tp);
    var qs := ExpandStars(s.projs, am, tp);
    VisitUnfolds(s, m, qs, tp);
    var t := Visit(SelApply(s, m), tp);
    var u := PlainKids(t, tp);
    VisitedKids(s, m, n, qs, t, u, tp);
    PlainClauses(s, m, u, n, t.projs, tp);
    forall i | 0 <= i < |qs|
      ensures Keeps(Apply(qs[i], m), am, tp) == Keeps(Apply(qs[i], n), am, tp)
    {
      forall k | k in Kids(qs[i]) ensures k in SelKids(s) { ExpandedKids(s.projs, am, tp, qs[i], k); }
      KeepsPlain(qs[i], m, n, am, tp);
    }
    PlainProjections(qs, m, n, u, am, tp);
    PlainUnfolds(t, tp);
    SamePlainHere(SelApply(s, n).(where := AddCondition(ApplyO(s.where, n), SelConditions(s, tp))),
                  ApplyL(t.projs, u), PlainProjs(qs, n, am, tp), tp);
  }

  lemma {:induction false} ExpandedKids(ps: seq<Expr>, am: AliasMap, tp: TablePolicies, q: Expr, k: Select)
    requires q in ExpandStars(ps, am, tp) && k in Kids(q)
    ensures k in KidsL(ps)
  {
    ExpandStarsFrom(ps, am, tp);
    var i :| 0 <= i < |ps| && ps[i] == q;
    assert k in Kids(ps[i]);
  }

  /** Children with the same plain trees lead a visit to the same plain tree. */
  lemma {:induction false} VisitPlain(s: Select, m: Subst, o: Subst, n: Subst, tp: TablePolicies)
    requires forall k | k in SelKids(s) :: Plain(Get(m, k), tp) == Plain(Get(o, k), tp) == Get(n, k)
    ensures Plain(Visit(SelApply(s, m), tp), tp) == Plain(Visit(SelApply(s, o), tp), tp)
  {
    ConditionsApply(s, m, tp);
    ConditionsApply(s, o, tp);
    if SelAliasMap(s, tp) == [] {
      PlainApply(s, m, n, tp);
      PlainApply(s, o, n, tp);
    } else {
      VisitPlainForm(s, m, n, tp);
      VisitPlainForm(s, o, n, tp);
    }
  }

  // ----- the theorem -----

  lemma {:induction false} WalkedPlain(s: Select, tp: TablePolicies)
    ensures Plain(Walk(Rewrite(s, tp), tp), tp) == Plain(Rewrite(s, tp), tp)
  {
    WalkedTidy(s, tp);
    PlainOfTidy(Walk(Rewrite(s, tp), tp), tp);
    PlainOfTidy(Rewrite(s, tp), tp);
  }

  lemma {:induction false} MapsAt(s: Select, k: Select, tp: TablePolicies)
    requires k in SelKids(s)
    ensures Get(WalkMap(s, tp), k) == Walk(Rewrite(k, tp), tp) && Get(OnePassMap(s, tp), k) == OnePass(k, tp)
  {
  }

  /** On every tree the walk differs from a single pass only in repeated filters and names of NULL projections. */
  lemma {:induction false} RewriteIsOnePassNamesAside(s: Select, tp: TablePolicies)
    ensures Plain(Rewrite(s, tp), tp) == Plain(OnePass(s, tp), tp)
    decreases s
  {
    var n := map k | k in SelKids(s) :: Plain(OnePass(k, tp), tp);
    forall k | k in SelKids(s)
      ensures Plain(Get(WalkMap(s, tp), k), tp) == Plain(Get(OnePassMap(s, tp), k), tp) == Get(n, k)
    {
      MapsAt(s, k, tp);
      RewriteIsOnePassNamesAside(k, tp);
      WalkedPlain(k, tp);
    }
    VisitPlain(s, WalkMap(s, tp), OnePassMap(s, tp), n, tp);
    RewriteUnfolds(s, tp);
    OnePassUnfolds(s, tp);
  }
}
