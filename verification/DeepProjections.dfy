/**
 A name that repeated visits lose: a query on which the nested walk and the single
 bottom-up pass name a suppressed projection differently.
 */
module DeepProjections {
  import opened Wrappers
  import opened Policies
  import opened SqlSyntax
  import opened Rewriter
  import opened RepeatedVisits
  import opened LostNames

  const REGION_FILTER := RowFilter("region", "=", "EU")
  const GUARDED := Decision("t", true, ["region"], [], [], [REGION_FILTER], false, false, [], [])
  const POLICIES: TablePolicies := map["t" := GUARDED]
  const CONDITION := Op("EQ", Col("t", "region"), Lit("EU"))

  /** SELECT 1 FROM t WHERE ... */
  function InnerQuery(where: Option<Expr>): Select {
    Select([Lit("1")], [Table("t", "")], [], where, [], None, [], "")
  }

  /** SELECT 1 WHERE EXISTS (inner) */
  function MiddleQuery(inner: Select): Select {
    Select([Lit("1")], [], [], Some(Sub("EXISTS", Null, inner)), [], None, [], "")
  }

  /** SELECT (middle) FROM t */
  function OuterQuery(middle: Select): Select {
    Select([Sub("SCALAR", Null, middle)], [Table("t", "")], [], None, [], None, [], "")
  }

  lemma {:induction false} AliasesOfT(s: Select)
    requires s.sources == [Table("t", "")]
    ensures SelAliasMap(s, POLICIES) == [Entry("t", "t")]
  {
    assert s.sources[..0] == [];
    assert BuildAliasMap(s.sources[..0], POLICIES) == [];
  }

  lemma {:induction false} ConditionsOfT(s: Select)
    requires s.sources == [Table("t", "")]
    ensures SelConditions(s, POLICIES) == [CONDITION]
  {
    AliasesOfT(s);
    var am: AliasMap, fs := [Entry("t", "t")], [REGION_FILTER];
    assert FiltersOf(POLICIES, "t") == fs;
    assert fs[1..] == [] && am[1..] == [];
    assert FilterExpr("t", REGION_FILTER) == CONDITION;
    assert OwnConditions("t", "t", [], {("t", REGION_FILTER)}) == [];
    assert OwnConditions("t", "t", fs, {}) == [CONDITION];
    assert Conditions([], POLICIES, Marked("t", fs)) == [];
    assert {} + Marked("t", fs) == Marked("t", fs);
    assert Conditions(am, POLICIES, {}) == [CONDITION] + [];
  }

  lemma {:induction false} VisitInner(where: Option<Expr>)
    ensures Visit(InnerQuery(where), POLICIES) == InnerQuery(AddCondition(where, [CONDITION]))
  {
    var s, am := InnerQuery(where), [Entry("t", "t")];
    AliasesOfT(s);
    ConditionsOfT(s);
    assert s.projs[1..] == [];
    assert ExpandStars([], am, POLICIES) == [];
    assert ExpandStars(s.projs, am, POLICIES) == s.projs;
    assert Refs(Inner(s.projs[0])) == [];
    assert RewriteProjs(s.projs, am, POLICIES) == s.projs;
  }

  lemma {:induction false} ApplySub(kind: string, q: Select, m: Subst)
    ensures Kids(Sub(kind, Null, q)) == [q]
    ensures Apply(Sub(kind, Null, q), m) == Sub(kind, Null, Get(m, q))
  {
    assert Kids(Null) == [] && Apply(Null, m) == Null;
  }

  lemma {:induction false} ApplyMiddle(inner: Select, m: Subst)
    ensures SelKids(MiddleQuery(inner)) == [inner]
    ensures SelApply(MiddleQuery(inner), m) == MiddleQuery(Get(m, inner))
  {
    var s := MiddleQuery(inner);
    ApplySub("EXISTS", inner, m);
    assert s.projs[1..] == [];
    assert KidsL(s.projs) == [];
    assert ApplyL(s.projs, m) == s.projs;
    assert ApplyL([], m) == [];
  }

  lemma {:induction false} ApplyOuter(middle: Select, m: Subst)
    ensures SelKids(OuterQuery(middle)) == [middle]
    ensures KidsL(OuterQuery(middle).projs) == [middle]
    ensures SelApply(OuterQuery(middle), m) == OuterQuery(Get(m, middle))
  {
    var s, t := OuterQuery(middle), OuterQuery(Get(m, middle));
    ApplySub("SCALAR", middle, m);
    assert s.projs[1..] == [] && s.sources[1..] == [];
    assert KidsL(s.projs) == [middle] + [];
    assert KidsS(s.sources) == [];
    assert ApplyL(s.projs, m) == t.projs;
    assert ApplyS(s.sources, m) == s.sources;
    assert ApplyL([], m) == [];
  }

  lemma {:induction false} InnerIsLeaf(where: Option<Expr>)
    requires KidsO(where) == []
    ensures SelKids(InnerQuery(where)) == []
  {
    assert KidsL([Lit("1")][1..]) == [];
    assert KidsS([Table("t", "")][1..]) == [];
  }

  lemma {:induction false} RefsOfInner(where: Option<Expr>)
    ensures SelRefs(InnerQuery(where)) == RefsO(where)
  {
    assert RefsL([Lit("1")][1..]) == [] && RefsL([Lit("1")]) == [] + [];
    assert RefsS([Table("t", "")][1..]) == [] && RefsS([Table("t", "")]) == [] + [];
  }

  lemma {:induction false} RefsOfExists(inner: Select)
    ensures SelRefs(MiddleQuery(inner)) == SelRefs(inner)
  {
    assert RefsL([Lit("1")][1..]) == [] && RefsL([Lit("1")]) == [] + [];
    assert Refs(Sub("EXISTS", Null, inner)) == [] + SelRefs(inner);
  }

  lemma {:induction false} RefsOfMiddle(where: Option<Expr>)
    ensures Refs(Sub("SCALAR", Null, MiddleQuery(InnerQuery(where)))) == RefsO(where)
  {
    RefsOfInner(where);
    RefsOfExists(InnerQuery(where));
  }

  lemma {:induction false} RegionIsDenied(refs: seq<Ref>)
    requires refs != [] && refs[0] == Ref("t", "region")
    ensures Judge(refs, [Entry("t", "t")], POLICIES).action == Deny
  {
    assert GUARDED.denied[0] == "region";
    assert Find([Entry("t", "t")], "t") == Some("t");
    assert Resolve(refs[0], [Entry("t", "t")], POLICIES).action == Deny;
  }

  /** A suppressed projection takes the name of its only column reference. */
  lemma {:induction false} VisitOuter(where: Expr)
    requires Refs(where) != [] && Refs(where)[0] == Ref("t", "region")
    ensures Visit(OuterQuery(MiddleQuery(InnerQuery(Some(where)))), POLICIES).projs
            == [if |Refs(where)| == 1 then Alias(Null, "region") else Null]
  {
    var s, am := OuterQuery(MiddleQuery(InnerQuery(Some(where)))), [Entry("t", "t")];
    AliasesOfT(s);
    assert s.projs[1..] == [];
    assert ExpandStars([], am, POLICIES) == [];
    assert ExpandStars(s.projs, am, POLICIES) == s.projs;
    RefsOfMiddle(Some(where));
    RegionIsDenied(Refs(where));
  }

  /** Equality to CONDITION, spelled out. */
  predicate IsCondition(f: Expr) {
    f.Op? && f.op == "EQ" && f.right == Lit("EU") && f.left == Col("t", "region")
  }

  /** Visiting a leaf SELECT over t adds the row filter, once a visit. */
  lemma {:induction false} LeafOverT(where: Option<Expr>, f: Expr)
    requires KidsO(where) == [] && IsCondition(f)
    ensures OnePass(InnerQuery(where), POLICIES) == InnerQuery(Some(if where.Some? then And(where.value, f) else f))
    ensures Walk(Rewrite(InnerQuery(where), POLICIES), POLICIES) == OnePass(InnerQuery(where), POLICIES)
  {
    InnerIsLeaf(where);
    VisitInner(where);
    LeafVisitedOnce(InnerQuery(where), POLICIES);
    LeafOnePass(InnerQuery(where), POLICIES);
  }

  lemma {:induction false} RewriteMiddleOf(inner: Select, walked: Select)
    requires Walk(Rewrite(inner, POLICIES), POLICIES) == walked
    ensures Rewrite(MiddleQuery(inner), POLICIES) == MiddleQuery(walked)
  {
    RewriteUnfolds(MiddleQuery(inner), POLICIES);
    ApplyMiddle(inner, WalkMap(MiddleQuery(inner), POLICIES));
  }

  lemma {:induction false} OnePassMiddleOf(inner: Select, passed: Select)
    requires OnePass(inner, POLICIES) == passed
    ensures OnePass(MiddleQuery(inner), POLICIES) == MiddleQuery(passed)
  {
    OnePassUnfolds(MiddleQuery(inner), POLICIES);
    ApplyMiddle(inner, OnePassMap(MiddleQuery(inner), POLICIES));
  }

  lemma {:induction false} WalkMiddleOf(inner: Select, walked: Select)
    requires Walk(Rewrite(inner, POLICIES), POLICIES) == walked
    ensures Walk(MiddleQuery(inner), POLICIES) == MiddleQuery(walked)
  {
    WalkUnfolds(MiddleQuery(inner), POLICIES);
    ApplyMiddle(inner, WalkMap(MiddleQuery(inner), POLICIES));
  }

  /**
   The row filter that two visits repeat in the innermost SELECT makes two column
   references of one, and the suppressed projection loses the name a single pass gives it.
   */
  lemma {:induction false} DeepProjectionsDiffer()
    ensures var q := OuterQuery(MiddleQuery(InnerQuery(None)));
            Rewrite(q, POLICIES).projs == [Null] && OnePass(q, POLICIES).projs == [Alias(Null, "region")]
            && !NamesKept(q, POLICIES)
  {
    var q := OuterQuery(MiddleQuery(InnerQuery(None)));
    DeepNamesDiffer(None, CONDITION);
    RewriteIsOnePassExactly(q, POLICIES);
    TidyShowsNames(Rewrite(q, POLICIES), OnePass(q, POLICIES), POLICIES);
  }

  lemma {:induction false} TidyShowsNames(a: Select, b: Select, tp: TablePolicies)
    requires |a.projs| == |b.projs| == 1 && a.projs[0] == Null && b.projs[0] == Alias(Null, "region")
    ensures Tidy(a, tp) != Tidy(b, tp)
  {
    assert Kids(Null) == [] && Kids(b.projs[0]) == [];
    TidyProjs(a, tp, 0);
    TidyProjs(b, tp, 0);
  }

  // In the lemmas below `none` is always None.  As a parameter it leaves the query a term with a
  // variable, which the verifier does not try to rewrite by computation.

  lemma {:induction false} DeepNamesDiffer(none: Option<Expr>, f: Expr)
    requires none.None? && IsCondition(f)
    ensures var q := OuterQuery(MiddleQuery(InnerQuery(none)));
            Rewrite(q, POLICIES).projs == [Null] && OnePass(q, POLICIES).projs == [Alias(Null, "region")]
  {
    RefsOfCondition(f);
    LeafFirst(none, f);
    LeafSecond(f);
    DiffersOver(InnerQuery(none), f, And(f, f));
  }

  lemma {:induction false} LeafFirst(none: Option<Expr>, f: Expr)
    requires none.None? && IsCondition(f)
    ensures OnePass(InnerQuery(none), POLICIES) == InnerQuery(Some(f))
            == Walk(Rewrite(InnerQuery(none), POLICIES), POLICIES)
  {
    LeafOverT(none, f);
  }

  lemma {:induction false} LeafSecond(f: Expr)
    requires IsCondition(f)
    ensures Walk(Rewrite(InnerQuery(Some(f)), POLICIES), POLICIES) == InnerQuery(Some(And(f, f)))
  {
    assert Kids(f) == Kids(f.left) + Kids(f.right) == [];
    LeafOverT(Some(f), f);
  }

  lemma {:induction false} DiffersOver(inner: Select, f: Expr, ff: Expr)
    requires Refs(f) == [Ref("t", "region")] && Refs(ff) == [Ref("t", "region"), Ref("t", "region")]
    requires OnePass(inner, POLICIES) == InnerQuery(Some(f)) == Walk(Rewrite(inner, POLICIES), POLICIES)
    requires Walk(Rewrite(InnerQuery(Some(f)), POLICIES), POLICIES) == InnerQuery(Some(ff))
    ensures var q := OuterQuery(MiddleQuery(inner));
            Rewrite(q, POLICIES).projs == [Null] && OnePass(q, POLICIES).projs == [Alias(Null, "region")]
  {
    MiddleRewritten(inner, InnerQuery(Some(f)), InnerQuery(Some(ff)));
    DeepRewrite(MiddleQuery(inner), ff);
    DeepOnePass(MiddleQuery(inner), f);
  }

  lemma {:induction false} RefsOfCondition(f: Expr)
    requires IsCondition(f)
    ensures Refs(f) == [Ref("t", "region")]
    ensures Refs(And(f, f)) == [Ref("t", "region"), Ref("t", "region")]
  {
  }

  lemma {:induction false} MiddleRewritten(inner: Select, once: Select, twice: Select)
    requires OnePass(inner, POLICIES) == once == Walk(Rewrite(inner, POLICIES), POLICIES)
    requires Walk(Rewrite(once, POLICIES), POLICIES) == twice
    ensures OnePass(MiddleQuery(inner), POLICIES) == MiddleQuery(once)
    ensures Walk(Rewrite(MiddleQuery(inner), POLICIES), POLICIES) == MiddleQuery(twice)
  {
    OnePassMiddleOf(inner, once);
    RewriteMiddleOf(inner, once);
    WalkMiddleOf(once, twice);
  }

  lemma {:induction false} RewriteOuter(middle: Select, walked: Select, tp: TablePolicies)
    requires Walk(Rewrite(middle, tp), tp) == walked
    ensures Rewrite(OuterQuery(middle), tp) == Visit(OuterQuery(walked), tp)
  {
    RewriteUnfolds(OuterQuery(middle), tp);
    ApplyOuter(middle, WalkMap(OuterQuery(middle), tp));
  }

  lemma {:induction false} OnePassOuter(middle: Select, passed: Select)
    requires OnePass(middle, POLICIES) == passed
    ensures OnePass(OuterQuery(middle), POLICIES) == Visit(OuterQuery(passed), POLICIES)
  {
    OnePassUnfolds(OuterQuery(middle), POLICIES);
    ApplyOuter(middle, OnePassMap(OuterQuery(middle), POLICIES));
  }

  lemma {:induction false} DeepRewrite(middle: Select, f: Expr)
    requires |Refs(f)| == 2 && Refs(f)[0] == Ref("t", "region")
    requires Walk(Rewrite(middle, POLICIES), POLICIES) == MiddleQuery(InnerQuery(Some(f)))
    ensures Rewrite(OuterQuery(middle), POLICIES).projs == [Null]
  {
    RewriteOuter(middle, MiddleQuery(InnerQuery(Some(f))), POLICIES);
    VisitOuter(f);
  }

  lemma {:induction false} DeepOnePass(middle: Select, f: Expr)
    requires Refs(f) == [Ref("t", "region")]
    requires OnePass(middle, POLICIES) == MiddleQuery(InnerQuery(Some(f)))
    ensures OnePass(OuterQuery(middle), POLICIES).projs == [Alias(Null, "region")]
  {
    OnePassOuter(middle, MiddleQuery(InnerQuery(Some(f))));
    VisitOuter(f);
  }
}
