/**
 What holds of every SELECT in a rewritten tree, however often it was visited.

 A SELECT is *settled* when another visit would change nothing but repeat the
 row filter at the end of its WHERE.  Every SELECT of a rewritten tree is settled.
 */
module ProjectionInvariant {
  import opened Wrappers
  import opened Policies
  import opened SqlSyntax
  import opened Rewriter

  // ----- judging is a homomorphism -----

  lemma {:induction false} JudgeConcat(a: seq<Ref>, b: seq<Ref>, am: AliasMap, tp: TablePolicies)
    ensures Judge(a + b, am, tp) == Stricter(Judge(a, am, tp), Judge(b, am, tp))
  {
    if a == [] {
      assert a + b == b;
    } else {
      assert (a + b)[1..] == a[1..] + b;
      JudgeConcat(a[1..], b, am, tp);
    }
  }

  lemma {:induction false} JudgeConcatSame(a: seq<Ref>, b: seq<Ref>, a': seq<Ref>, b': seq<Ref>, am: AliasMap,
                                           tp: TablePolicies)
    requires Judge(a, am, tp) == Judge(a', am, tp) && Judge(b, am, tp) == Judge(b', am, tp)
    ensures Judge(a + b, am, tp) == Judge(a' + b', am, tp)
  {
    JudgeConcat(a, b, am, tp);
    JudgeConcat(a', b', am, tp);
  }

  lemma {:induction false} JudgeMember(refs: seq<Ref>, r: Ref, am: AliasMap, tp: TablePolicies)
    requires r in refs
    ensures Rank(Resolve(r, am, tp).action) <= Rank(Judge(refs, am, tp).action)
  {
    if refs[0] != r { JudgeMember(refs[1..], r, am, tp); }
  }

  /** The two SELECTs look the same to every enclosing projection. */
  ghost predicate SameJudge(a: Select, b: Select, tp: TablePolicies) {
    forall am :: Judge(SelRefs(a), am, tp) == Judge(SelRefs(b), am, tp)
  }

  /** The judgement of an expression, computed along its structure. */
  function JudgeExpr(e: Expr, am: AliasMap, tp: TablePolicies): Verdict {
    match e
    case Op(_, l, r) => Stricter(JudgeExpr(l, am, tp), JudgeExpr(r, am, tp))
    case And(l, r) => Stricter(JudgeExpr(l, am, tp), JudgeExpr(r, am, tp))
    case InList(a, _) => JudgeExpr(a, am, tp)
    case Agg(_, a) => JudgeExpr(a, am, tp)
    case Alias(a, _) => JudgeExpr(a, am, tp)
    case Sub(_, a, q) => Stricter(JudgeExpr(a, am, tp), Judge(SelRefs(q), am, tp))
    case Col(t, n) => Resolve(Ref(t, n), am, tp)
    case QualStar(t) => Resolve(Ref(t, "*"), am, tp)
    case _ => NoVerdict
  }

  lemma {:induction false} JudgeAlongStructure(e: Expr, am: AliasMap, tp: TablePolicies)
    ensures Judge(Refs(e), am, tp) == JudgeExpr(e, am, tp)
  {
    match e
    case Op(_, l, r) =>
      JudgeConcat(Refs(l), Refs(r), am, tp);
      JudgeAlongStructure(l, am, tp);
      JudgeAlongStructure(r, am, tp);
    case And(l, r) =>
      JudgeConcat(Refs(l), Refs(r), am, tp);
      JudgeAlongStructure(l, am, tp);
      JudgeAlongStructure(r, am, tp);
    case InList(a, _) => JudgeAlongStructure(a, am, tp);
    case Agg(_, a) => JudgeAlongStructure(a, am, tp);
    case Alias(a, _) => JudgeAlongStructure(a, am, tp);
    case Sub(_, a, q) =>
      JudgeConcat(Refs(a), SelRefs(q), am, tp);
      JudgeAlongStructure(a, am, tp);
    case _ =>
  }

  lemma {:induction false} JudgeSubApply(kind: string, a: Expr, q: Select, m: Subst, am: AliasMap, tp: TablePolicies)
    requires JudgeExpr(Apply(a, m), am, tp) == JudgeExpr(a, am, tp)
    requires Judge(SelRefs(Get(m, q)), am, tp) == Judge(SelRefs(q), am, tp)
    ensures JudgeExpr(Apply(Sub(kind, a, q), m), am, tp) == JudgeExpr(Sub(kind, a, q), am, tp)
  {
  }

  lemma {:induction false} JudgeExprApply(e: Expr, m: Subst, am: AliasMap, tp: TablePolicies)
    requires forall k | k in Kids(e) :: Judge(SelRefs(Get(m, k)), am, tp) == Judge(SelRefs(k), am, tp)
    ensures JudgeExpr(Apply(e, m), am, tp) == JudgeExpr(e, am, tp)
  {
    match e
    case Op(_, l, r) => JudgeExprApply(l, m, am, tp); JudgeExprApply(r, m, am, tp);
    case And(l, r) => JudgeExprApply(l, m, am, tp); JudgeExprApply(r, m, am, tp);
    case InList(a, _) => JudgeExprApply(a, m, am, tp);
    case Agg(_, a) => JudgeExprApply(a, m, am, tp);
    case Alias(a, _) => JudgeExprApply(a, m, am, tp);
    case Sub(kind, a, q) =>
      assert q in Kids(e);
      JudgeExprApply(a, m, am, tp);
      JudgeSubApply(kind, a, q, m, am, tp);
    case _ =>
  }

  lemma {:induction false} JudgeApply(e: Expr, m: Subst, am: AliasMap, tp: TablePolicies)
    requires forall k | k in Kids(e) :: Judge(SelRefs(Get(m, k)), am, tp) == Judge(SelRefs(k), am, tp)
    ensures Judge(Refs(Apply(e, m)), am, tp) == Judge(Refs(e), am, tp)
  {
    JudgeExprApply(e, m, am, tp);
    JudgeAlongStructure(e, am, tp);
    JudgeAlongStructure(Apply(e, m), am, tp);
  }

  lemma {:induction false} JudgeApplyL(es: seq<Expr>, m: Subst, am: AliasMap, tp: TablePolicies)
    requires forall k | k in KidsL(es) :: Judge(SelRefs(Get(m, k)), am, tp) == Judge(SelRefs(k), am, tp)
    ensures Judge(RefsL(ApplyL(es, m)), am, tp) == Judge(RefsL(es), am, tp)
  {
    if es != [] {
      assert ApplyL(es, m)[1..] == ApplyL(es[1..], m);
      JudgeApply(es[0], m, am, tp);
      JudgeApplyL(es[1..], m, am, tp);
      JudgeConcatSame(Refs(Apply(es[0], m)), RefsL(ApplyL(es[1..], m)), Refs(es[0]), RefsL(es[1..]), am, tp);
    }
  }

  lemma {:induction false} JudgeApplyO(o: Option<Expr>, m: Subst, am: AliasMap, tp: TablePolicies)
    requires forall k | k in KidsO(o) :: Judge(SelRefs(Get(m, k)), am, tp) == Judge(SelRefs(k), am, tp)
    ensures Judge(RefsO(ApplyO(o, m)), am, tp) == Judge(RefsO(o), am, tp)
  {
    if o.Some? { JudgeApply(o.value, m, am, tp); }
  }

  lemma {:induction false} JudgeApplyS(ss: seq<Source>, m: Subst, am: AliasMap, tp: TablePolicies)
    requires forall k | k in KidsS(ss) :: Judge(SelRefs(Get(m, k)), am, tp) == Judge(SelRefs(k), am, tp)
    ensures Judge(RefsS(ApplyS(ss, m)), am, tp) == Judge(RefsS(ss), am, tp)
  {
    if ss != [] {
      assert ApplyS(ss, m)[1..] == ApplyS(ss[1..], m);
      JudgeApplyS(ss[1..], m, am, tp);
      if ss[0].Derived? {
        assert ss[0].query in KidsS(ss);
        JudgeConcatSame(SelRefs(Get(m, ss[0].query)), RefsS(ApplyS(ss[1..], m)),
                        SelRefs(ss[0].query), RefsS(ss[1..]), am, tp);
      } else {
        assert RefsS(ss) == RefsS(ss[1..]) && RefsS(ApplyS(ss, m)) == RefsS(ApplyS(ss[1..], m));
      }
    }
  }

  function JudgeSel(s: Select, am: AliasMap, tp: TablePolicies): Verdict {
    Stricter(Judge(RefsL(s.projs), am, tp), Stricter(Judge(RefsS(s.sources), am, tp),
    Stricter(Judge(RefsL(s.ons), am, tp), Stricter(Judge(RefsO(s.where), am, tp),
    Stricter(Judge(RefsL(s.group), am, tp), Stricter(Judge(RefsO(s.having), am, tp),
    Judge(RefsL(s.order), am, tp)))))))
  }

  lemma {:induction false} JudgeSelRefs(s: Select, am: AliasMap, tp: TablePolicies)
    ensures Judge(SelRefs(s), am, tp) == JudgeSel(s, am, tp)
  {
    var r7 := RefsL(s.order);
    var r6 := RefsO(s.having) + r7;
    var r5 := RefsL(s.group) + r6;
    var r4 := RefsO(s.where) + r5;
    var r3 := RefsL(s.ons) + r4;
    var r2 := RefsS(s.sources) + r3;
    JudgeConcat(RefsO(s.having), r7, am, tp);
    JudgeConcat(RefsL(s.group), r6, am, tp);
    JudgeConcat(RefsO(s.where), r5, am, tp);
    JudgeConcat(RefsL(s.ons), r4, am, tp);
    JudgeConcat(RefsS(s.sources), r3, am, tp);
    JudgeConcat(RefsL(s.projs), r2, am, tp);
  }

  /** Replacing children by ones that look the same leaves the SELECT looking the same. */
  lemma {:induction false} SameJudgeApply(s: Select, m: Subst, tp: TablePolicies)
    requires forall k | k in SelKids(s) :: SameJudge(Get(m, k), k, tp)
    ensures SameJudge(SelApply(s, m), s, tp)
  {
    forall am
      ensures Judge(SelRefs(SelApply(s, m)), am, tp) == Judge(SelRefs(s), am, tp)
    {
      JudgeSelRefs(s, am, tp);
      JudgeSelRefs(SelApply(s, m), am, tp);
      JudgeApplyL(s.projs, m, am, tp);
      JudgeApplyS(s.sources, m, am, tp);
      JudgeApplyL(s.ons, m, am, tp);
      JudgeApplyO(s.where, m, am, tp);
      JudgeApplyL(s.group, m, am, tp);
      JudgeApplyO(s.having, m, am, tp);
      JudgeApplyL(s.order, m, am, tp);
    }
  }

  // ----- settled trees -----

  /** No star is left that a visit would expand. */
  predicate StarSettled(p: Expr, am: AliasMap, tp: TablePolicies) {
    ExpandStar(p, am, tp) == [p]
  }

  /** The WHERE already ends in the conjunction of `cs`. */
  predicate EndsIn(where: Option<Expr>, cs: seq<Expr>) {
    cs == [] || (where.Some? && (where.value == Conjoin(cs) || (where.value.And? && where.value.right == Conjoin(cs))))
  }

  /**
   The projection invariant at one SELECT: no reference in a projection resolves to deny, a projection
   in which one resolves to mask is a bare column; besides, stars are expanded and the row filter is there.
   */
  predicate SettledHere(s: Select, tp: TablePolicies) {
    var am := SelAliasMap(s, tp);
    am != [] ==>
      && (forall p | p in s.projs :: Keeps(p, am, tp) && StarSettled(p, am, tp))
      && EndsIn(s.where, SelConditions(s, tp))
  }

  predicate Settled(s: Select, tp: TablePolicies)
    decreases s
  {
    SettledHere(s, tp) && forall k | k in SelKids(s) :: Settled(k, tp)
  }

  // ----- replacing children keeps a SELECT settled -----

  lemma {:induction false} SourcesApply(ss: seq<Source>, m: Subst, tp: TablePolicies)
    ensures BuildAliasMap(ApplyS(ss, m), tp) == BuildAliasMap(ss, tp)
  {
    if ss != [] {
      var n := |ss| - 1;
      assert ApplyS(ss, m)[..n] == ApplyS(ss[..n], m);
      SourcesApply(ss[..n], m, tp);
    }
  }

  lemma {:induction false} KeepsApply(p: Expr, m: Subst, am: AliasMap, tp: TablePolicies)
    requires forall k | k in Kids(p) :: Judge(SelRefs(Get(m, k)), am, tp) == Judge(SelRefs(k), am, tp)
    ensures Keeps(Apply(p, m), am, tp) == Keeps(p, am, tp)
  {
    JudgeApply(Inner(p), m, am, tp);
    assert Inner(Apply(p, m)) == Apply(Inner(p), m);
  }

  lemma {:induction false} SettledProjsApply(ps: seq<Expr>, m: Subst, am: AliasMap, tp: TablePolicies)
    requires forall k | k in KidsL(ps) :: Judge(SelRefs(Get(m, k)), am, tp) == Judge(SelRefs(k), am, tp)
    requires forall p | p in ps :: Keeps(p, am, tp) && StarSettled(p, am, tp)
    ensures forall p | p in ApplyL(ps, m) :: Keeps(p, am, tp) && StarSettled(p, am, tp)
  {
    forall i | 0 <= i < |ps|
      ensures Keeps(Apply(ps[i], m), am, tp) && StarSettled(Apply(ps[i], m), am, tp)
    {
      assert ps[i] in ps;
      KeepsApply(ps[i], m, am, tp);
    }
  }

  lemma {:induction false} EndsInApply(s: Select, m: Subst, tp: TablePolicies)
    requires EndsIn(s.where, SelConditions(s, tp))
    ensures EndsIn(ApplyO(s.where, m), SelConditions(s, tp))
  {
    var cs := SelConditions(s, tp);
    if cs != [] {
      FilterNoKids(s, tp);
      ApplyNothing(Conjoin(cs), m);
    }
  }

  lemma {:induction false} SettledHereApply(s: Select, m: Subst, tp: TablePolicies)
    requires forall k | k in SelKids(s) :: SameJudge(Get(m, k), k, tp)
    requires SettledHere(s, tp)
    ensures SettledHere(SelApply(s, m), tp)
  {
    SourcesApply(s.sources, m, tp);
    if SelAliasMap(s, tp) != [] {
      SettledProjsApply(s.projs, m, SelAliasMap(s, tp), tp);
      EndsInApply(s, m, tp);
    }
  }

  // ----- a visit settles a SELECT -----

  lemma {:induction false} ResolveColumnStar(am: AliasMap, tp: TablePolicies, ps: seq<Expr>)
    ensures forall q | q in ExpandStars(ps, am, tp) :: StarSettled(q, am, tp)
  {
    if ps != [] {
      ResolveColumnStar(am, tp, ps[1..]);
      AllKnownAreColumns(am, tp);
    }
  }

  /** Suppressing a projection leaves nothing to suppress. */
  lemma {:induction false} RewriteProjKeeps(p: Expr, am: AliasMap, tp: TablePolicies)
    ensures Keeps(RewriteProj(p, am, tp), am, tp)
    ensures StarSettled(p, am, tp) ==> StarSettled(RewriteProj(p, am, tp), am, tp)
  {
    assert Refs(Inner(Nulled(OutName(p)))) == [];
  }

  lemma {:induction false} VisitSettlesHere(s: Select, tp: TablePolicies)
    ensures SettledHere(Visit(s, tp), tp)
  {
    var am, t := SelAliasMap(s, tp), Visit(s, tp);
    if am != [] {
      var qs := ExpandStars(s.projs, am, tp);
      ResolveColumnStar(am, tp, s.projs);
      forall p | p in t.projs
        ensures Keeps(p, am, tp) && StarSettled(p, am, tp)
      {
        var i :| 0 <= i < |qs| && p == RewriteProj(qs[i], am, tp);
        assert qs[i] in qs;
        RewriteProjKeeps(qs[i], am, tp);
      }
    }
  }

  lemma {:induction false} VisitSettles(s: Select, tp: TablePolicies)
    requires forall k | k in SelKids(s) :: Settled(k, tp)
    ensures Settled(Visit(s, tp), tp)
  {
    VisitSettlesHere(s, tp);
    VisitKids(s, tp);
  }

  // ----- visiting a settled SELECT again -----

  lemma {:induction false} ExpandStarsSettled(ps: seq<Expr>, am: AliasMap, tp: TablePolicies)
    requires forall p | p in ps :: StarSettled(p, am, tp)
    ensures ExpandStars(ps, am, tp) == ps
  {
    if ps != [] {
      assert ps[0] in ps && forall p | p in ps[1..] :: p in ps;
      ExpandStarsSettled(ps[1..], am, tp);
    }
  }

  /** A further visit of a settled SELECT only repeats the row filter. */
  lemma {:induction false} VisitSettledAgain(s: Select, tp: TablePolicies)
    requires SettledHere(s, tp)
    ensures Visit(s, tp) == if SelAliasMap(s, tp) == [] then s
            else s.(where := AddCondition(s.where, SelConditions(s, tp)))
  {
    var am := SelAliasMap(s, tp);
    if am != [] {
      ExpandStarsSettled(s.projs, am, tp);
      assert RewriteProjs(s.projs, am, tp) == s.projs;
    }
  }

  lemma {:induction false} JudgeRepeatedFilter(where: Option<Expr>, cs: seq<Expr>, am: AliasMap, tp: TablePolicies)
    requires EndsIn(where, cs)
    ensures Judge(RefsO(AddCondition(where, cs)), am, tp) == Judge(RefsO(where), am, tp)
  {
    if cs != [] {
      var w, f := where.value, Conjoin(cs);
      JudgeConcat(Refs(w), Refs(f), am, tp);
      if w != f { JudgeConcat(Refs(w.left), Refs(f), am, tp); }
    }
  }

  lemma {:induction false} SameJudgeVisitAgain(s: Select, tp: TablePolicies)
    requires SettledHere(s, tp)
    ensures SameJudge(Visit(s, tp), s, tp)
  {
    VisitSettledAgain(s, tp);
    if SelAliasMap(s, tp) != [] {
      forall am
        ensures Judge(SelRefs(Visit(s, tp)), am, tp) == Judge(SelRefs(s), am, tp)
      {
        JudgeRepeatedFilter(s.where, SelConditions(s, tp), am, tp);
        JudgeSelRefs(s, am, tp);
        JudgeSelRefs(Visit(s, tp), am, tp);
      }
    }
  }

  // ----- the whole walk -----

  /** Every nested SELECT of a walked tree is settled. */
  lemma {:induction false} WalkSettlesKids(s: Select, tp: TablePolicies)
    decreases Depth(s), 1
    ensures forall k | k in SelKids(Walk(s, tp)) :: Settled(k, tp)
  {
    forall t | t in SelKids(Walk(s, tp))
      ensures Settled(t, tp)
    {
      var k := WalkedKid(s, tp, t);
      RewriteSettles(k, tp);
      WalkKeepsSettled(Rewrite(k, tp), tp);
    }
  }

  /** Walking a settled tree again keeps it settled, and it looks the same from outside. */
  lemma {:induction false} WalkKeepsSettled(s: Select, tp: TablePolicies)
    decreases Depth(s), 2
    requires Settled(s, tp)
    ensures Settled(Walk(s, tp), tp)
    ensures SameJudge(Walk(s, tp), s, tp)
  {
    var m := map k | k in SelKids(s) :: Walk(Rewrite(k, tp), tp);
    forall k | k in SelKids(s)
      ensures SameJudge(Get(m, k), k, tp)
    {
      RewriteAgain(k, tp);
      WalkKeepsSettled(Rewrite(k, tp), tp);
    }
    SameJudgeApply(s, m, tp);
    SettledHereApply(s, m, tp);
    WalkSettlesKids(s, tp);
  }

  /** Rewriting a settled tree again keeps it settled, and it looks the same from outside. */
  lemma {:induction false} RewriteAgain(s: Select, tp: TablePolicies)
    decreases Depth(s), 3
    requires Settled(s, tp)
    ensures Settled(Rewrite(s, tp), tp)
    ensures SameJudge(Rewrite(s, tp), s, tp)
  {
    WalkKeepsSettled(s, tp);
    VisitSettles(Walk(s, tp), tp);
    SameJudgeVisitAgain(Walk(s, tp), tp);
  }

  /** Every SELECT of a rewritten tree is settled, including those visited again after their parent. */
  lemma {:induction false} RewriteSettles(s: Select, tp: TablePolicies)
    decreases Depth(s), 3
    ensures Settled(Rewrite(s, tp), tp)
  {
    WalkSettlesKids(s, tp);
    VisitSettles(Walk(s, tp), tp);
  }

  /** `t` is the SELECT `s` or one nested in it at any depth. */
  predicate Within(t: Select, s: Select)
    decreases s
  {
    t == s || exists k | k in SelKids(s) :: Within(t, k)
  }

  lemma {:induction false} SettledWithin(t: Select, s: Select, tp: TablePolicies)
    decreases s
    requires Settled(s, tp) && Within(t, s)
    ensures SettledHere(t, tp)
  {
    if t != s {
      var k :| k in SelKids(s) && Within(t, k);
      SettledWithin(t, k, tp);
    }
  }

  lemma {:induction false} KeepsReference(p: Expr, r: Ref, am: AliasMap, tp: TablePolicies)
    requires Keeps(p, am, tp) && r in Refs(Inner(p))
    ensures Resolve(r, am, tp).action != Deny
    ensures Resolve(r, am, tp).action == Mask ==> PlainColumn(Inner(p))
  {
    JudgeMember(Refs(Inner(p)), r, am, tp);
  }

  /**
   In a rewritten tree, every SELECT at any depth that reads a table with a policy
   has no projection with a reference that resolves to deny, and a projection with a
   reference that resolves to mask is a bare column.
   */
  lemma {:induction false} RewrittenProjectionsObeyPolicy(s: Select, tp: TablePolicies, t: Select, p: Expr, r: Ref)
    requires Within(t, Rewrite(s, tp)) && p in t.projs && r in Refs(Inner(p))
    ensures Resolve(r, SelAliasMap(t, tp), tp).action != Deny
    ensures Resolve(r, SelAliasMap(t, tp), tp).action == Mask ==> PlainColumn(Inner(p))
  {
    var root := Rewrite(s, tp);
    RewriteSettles(s, tp);
    SettledWithin(t, root, tp);
    SettledReference(t, tp, p, r);
  }

  lemma {:induction false} SettledReference(t: Select, tp: TablePolicies, p: Expr, r: Ref)
    requires SettledHere(t, tp) && p in t.projs && r in Refs(Inner(p))
    ensures Resolve(r, SelAliasMap(t, tp), tp).action != Deny
    ensures Resolve(r, SelAliasMap(t, tp), tp).action == Mask ==> PlainColumn(Inner(p))
  {
    var am := SelAliasMap(t, tp);
    if am != [] {
      assert Keeps(p, am, tp);
      KeepsReference(p, r, am, tp);
    }
  }
}
