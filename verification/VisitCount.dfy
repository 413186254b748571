/**
 How often the nested walk visits one SELECT.  The SELECTs of interest are told by their
 tail, which no visit changes.
 */
module VisitCount {
  import opened SqlSyntax
  import opened Rewriter

  function One(s: Select, tag: string): nat {
    if s.tail == tag then 1 else 0
  }

  /** How many times SELECTs tagged `tag` are rewritten while `s` is. */
  function RewriteCalls(s: Select, tag: string, tp: TablePolicies): nat
    decreases Depth(s), 1, 0
  {
    One(s, tag) + WalkCalls(s, tag, tp)
  }

  function WalkCalls(s: Select, tag: string, tp: TablePolicies): nat
    decreases Depth(s), 0, |SelKids(s)| + 1
  {
    ListCalls(Depth(s), SelKids(s), tag, tp)
  }

  function ListCalls(ghost d: nat, ks: seq<Select>, tag: string, tp: TablePolicies): nat
    requires forall k | k in ks :: Depth(k) < d
    decreases d, 0, |ks|
  {
    if ks == [] then 0 else
      assert ks[0] in ks;
      RewriteCalls(ks[0], tag, tp) + WalkCalls(Rewrite(ks[0], tp), tag, tp) + ListCalls(d, ks[1..], tag, tp)
  }

  /** The tagged SELECTs below `s`, one directly below counting `w` and the weight doubling with each level. */
  function Weight(s: Select, tag: string, w: nat): nat
    decreases s, |SelKids(s)| + 1
  {
    ListWeight(s, SelKids(s), tag, w)
  }

  function ListWeight(ghost parent: Select, ks: seq<Select>, tag: string, w: nat): nat
    requires Below(parent, ks)
    decreases parent, |ks|
  {
    if ks == [] then 0 else
      assert ks[0] in ks && forall k | k in ks[1..] :: k in ks;
      w * One(ks[0], tag) + Weight(ks[0], tag, 2 * w) + ListWeight(parent, ks[1..], tag, w)
  }

  // ----- weights of lists, without the parent -----

  function Sum(ks: seq<Select>, tag: string, w: nat): nat {
    if ks == [] then 0 else w * One(ks[0], tag) + Weight(ks[0], tag, 2 * w) + Sum(ks[1..], tag, w)
  }

  lemma {:induction false} ListWeightIsSum(parent: Select, ks: seq<Select>, tag: string, w: nat)
    requires Below(parent, ks)
    ensures ListWeight(parent, ks, tag, w) == Sum(ks, tag, w)
  {
    if ks != [] {
      assert ks[0] in ks && forall k | k in ks[1..] :: k in ks;
      ListWeightIsSum(parent, ks[1..], tag, w);
    }
  }

  lemma {:induction false} WeightIsSum(s: Select, tag: string, w: nat)
    ensures Weight(s, tag, w) == Sum(SelKids(s), tag, w)
  {
    ListWeightIsSum(s, SelKids(s), tag, w);
  }

  lemma {:induction false} SumConcat(a: seq<Select>, b: seq<Select>, tag: string, w: nat)
    ensures Sum(a + b, tag, w) == Sum(a, tag, w) + Sum(b, tag, w)
  {
    if a == [] {
      assert a + b == b;
    } else {
      assert (a + b)[1..] == a[1..] + b;
      SumConcat(a[1..], b, tag, w);
    }
  }

  lemma {:induction false} SumFirst(ks: seq<Select>, tag: string, w: nat)
    requires ks != []
    ensures Sum(ks, tag, w) == w * One(ks[0], tag) + Sum(SelKids(ks[0]), tag, 2 * w) + Sum(ks[1..], tag, w)
  {
    WeightIsSum(ks[0], tag, 2 * w);
  }

  lemma {:induction false} CombineDouble(once: nat, twice: nat, w: nat, one: nat, kids: nat, kids2: nat, rest: nat,
                                         rest2: nat)
    requires once == w * one + kids + rest && twice == 2 * w * one + kids2 + rest2 && kids2 == 2 * kids
             && rest2 == 2 * rest
    ensures twice == 2 * once
  {
    assert 2 * w * one == 2 * (w * one);
  }

  lemma {:induction false} SumDoubles(bound: nat, ks: seq<Select>, tag: string, w: nat, v: nat)
    requires v == 2 * w && forall k | k in ks :: Depth(k) < bound
    ensures Sum(ks, tag, v) == 2 * Sum(ks, tag, w)
    decreases bound, |ks|
  {
    if ks != [] {
      var kids, rest := SelKids(ks[0]), ks[1..];
      assert ks[0] in ks && forall k | k in rest :: k in ks;
      SumFirst(ks, tag, w);
      SumFirst(ks, tag, v);
      SumDoubles(Depth(ks[0]), kids, tag, v, 2 * v);
      SumDoubles(bound, rest, tag, w, v);
      CombineDouble(Sum(ks, tag, w), Sum(ks, tag, v), w, One(ks[0], tag),
                    Sum(kids, tag, v), Sum(kids, tag, 2 * v), Sum(rest, tag, w), Sum(rest, tag, v));
    }
  }

  lemma {:induction false} WeightDoubles(s: Select, tag: string, w: nat)
    ensures Weight(s, tag, 2 * w) == 2 * Weight(s, tag, w)
  {
    WeightIsSum(s, tag, w);
    WeightIsSum(s, tag, 2 * w);
    SumDoubles(Depth(s), SelKids(s), tag, w, 2 * w);
  }

  // ----- rewriting adds no SELECT at any depth -----

  /** The children of a SELECT, clause by clause, with the weight of each clause. */
  function ClauseSum(s: Select, tag: string, w: nat): nat {
    Sum(KidsL(s.projs), tag, w) + Sum(KidsS(s.sources), tag, w) + Sum(KidsL(s.ons), tag, w) + Sum(KidsO(s.where), tag,
      w)
    + Sum(KidsL(s.group), tag, w) + Sum(KidsO(s.having), tag, w) + Sum(KidsL(s.order), tag, w)
  }

  lemma {:induction false} SumByClause(s: Select, tag: string, w: nat)
    ensures Sum(SelKids(s), tag, w) == ClauseSum(s, tag, w)
  {
    var k1, k2, k3 := KidsL(s.projs), KidsS(s.sources), KidsL(s.ons);
    var k4, k5, k6, k7 := KidsO(s.where), KidsL(s.group), KidsO(s.having), KidsL(s.order);
    SumConcat(k1, k2, tag, w);
    SumConcat(k1 + k2, k3, tag, w);
    SumConcat(k1 + k2 + k3, k4, tag, w);
    SumConcat(k1 + k2 + k3 + k4, k5, tag, w);
    SumConcat(k1 + k2 + k3 + k4 + k5, k6, tag, w);
    SumConcat(k1 + k2 + k3 + k4 + k5 + k6, k7, tag, w);
  }

  lemma {:induction false} KidsLConcat(a: seq<Expr>, b: seq<Expr>)
    ensures KidsL(a + b) == KidsL(a) + KidsL(b)
  {
    if a == [] {
      assert a + b == b;
    } else {
      assert (a + b)[1..] == a[1..] + b;
      KidsLConcat(a[1..], b);
    }
  }

  lemma {:induction false} ColumnsNoKids(es: seq<Expr>)
    requires forall e | e in es :: Kids(e) == []
    ensures KidsL(es) == []
  {
    if es != [] { ColumnsNoKids(es[1..]); }
  }

  lemma {:induction false} ExpandStarsKids(ps: seq<Expr>, am: AliasMap, tp: TablePolicies)
    ensures KidsL(ExpandStars(ps, am, tp)) == KidsL(ps)
  {
    if ps != [] {
      var qs := ExpandStar(ps[0], am, tp);
      AllKnownAreColumns(am, tp);
      KidsLConcat(qs, ExpandStars(ps[1..], am, tp));
      ExpandStarsKids(ps[1..], am, tp);
      if qs == [ps[0]] {
        assert KidsL([ps[0]]) == Kids(ps[0]) + [];
      } else {
        ColumnsNoKids(qs);
      }
    }
  }

  lemma {:induction false} KidsLSum(es: seq<Expr>, tag: string, w: nat)
    requires es != []
    ensures Sum(KidsL(es), tag, w) == Sum(Kids(es[0]), tag, w) + Sum(KidsL(es[1..]), tag, w)
  {
    SumConcat(Kids(es[0]), KidsL(es[1..]), tag, w);
  }

  lemma {:induction false} OneProjSum(q: Expr, am: AliasMap, tp: TablePolicies, tag: string, w: nat)
    ensures Sum(Kids(RewriteProj(q, am, tp)), tag, w) <= Sum(Kids(q), tag, w)
  {
    RewriteProjShape(q, am, tp);
  }

  lemma {:induction false} ListSumLess(rs: seq<Expr>, qs: seq<Expr>, tag: string, w: nat)
    requires |rs| == |qs| && forall i | 0 <= i < |qs| :: Sum(Kids(rs[i]), tag, w) <= Sum(Kids(qs[i]), tag, w)
    ensures Sum(KidsL(rs), tag, w) <= Sum(KidsL(qs), tag, w)
  {
    if qs != [] {
      ListSumLess(rs[1..], qs[1..], tag, w);
      KidsLSum(qs, tag, w);
      KidsLSum(rs, tag, w);
    }
  }

  lemma {:induction false} RewriteProjsSum(qs: seq<Expr>, am: AliasMap, tp: TablePolicies, tag: string, w: nat)
    ensures Sum(KidsL(RewriteProjs(qs, am, tp)), tag, w) <= Sum(KidsL(qs), tag, w)
  {
    forall i | 0 <= i < |qs|
      ensures Sum(Kids(RewriteProjs(qs, am, tp)[i]), tag, w) <= Sum(Kids(qs[i]), tag, w)
    {
      OneProjSum(qs[i], am, tp, tag, w);
    }
    ListSumLess(RewriteProjs(qs, am, tp), qs, tag, w);
  }

  lemma {:induction false} VisitProjSum(s: Select, tp: TablePolicies, tag: string, w: nat)
    ensures Sum(KidsL(Visit(s, tp).projs), tag, w) <= Sum(KidsL(s.projs), tag, w)
  {
    var am := SelAliasMap(s, tp);
    if am != [] {
      ExpandStarsKids(s.projs, am, tp);
      RewriteProjsSum(ExpandStars(s.projs, am, tp), am, tp, tag, w);
    }
  }

  lemma {:induction false} VisitWhereKids(s: Select, tp: TablePolicies)
    ensures KidsO(Visit(s, tp).where) == KidsO(s.where)
  {
    if SelConditions(s, tp) != [] { FilterNoKids(s, tp); }
  }

  lemma {:induction false} VisitClauseSum(s: Select, tp: TablePolicies, tag: string, w: nat)
    ensures ClauseSum(Visit(s, tp), tag, w) <= ClauseSum(s, tag, w)
  {
    VisitProjSum(s, tp, tag, w);
    VisitWhereKids(s, tp);
  }

  lemma {:induction false} WeightByClause(s: Select, tag: string, w: nat)
    ensures Weight(s, tag, w) == ClauseSum(s, tag, w)
  {
    WeightIsSum(s, tag, w);
    SumByClause(s, tag, w);
  }

  lemma {:induction false} VisitSum(s: Select, tp: TablePolicies, tag: string, w: nat)
    ensures Weight(Visit(s, tp), tag, w) <= Weight(s, tag, w)
  {
    var t := Visit(s, tp);
    WeightByClause(s, tag, w);
    WeightByClause(t, tag, w);
    VisitClauseSum(s, tp, tag, w);
  }

  predicate NotHeavier(t: Select, s: Select, tag: string, w: nat) {
    t.tail == s.tail && Weight(t, tag, w) <= Weight(s, tag, w)
  }

  /** What each SELECT of a list adds to a sum. */
  type Shares = (Select, string, nat) -> nat

  ghost function SumBy(f: Shares, ks: seq<Select>, tag: string, w: nat): nat {
    if ks == [] then 0 else f(ks[0], tag, w) + SumBy(f, ks[1..], tag, w)
  }

  lemma {:induction false} SumByGrows(f: Shares, js: seq<Select>, ks: seq<Select>, tag: string, w: nat)
    requires |js| == |ks| && forall i | 0 <= i < |ks| :: f(js[i], tag, w) <= f(ks[i], tag, w)
    ensures SumBy(f, js, tag, w) <= SumBy(f, ks, tag, w)
  {
    if ks != [] { SumByGrows(f, js[1..], ks[1..], tag, w); }
  }

  /** What one SELECT adds to the sum of a list. */
  function Share(k: Select, tag: string, w: nat): nat {
    w * One(k, tag) + Weight(k, tag, 2 * w)
  }

  lemma {:induction false} SumIsSumBy(ks: seq<Select>, tag: string, w: nat)
    ensures Sum(ks, tag, w) == SumBy(Share, ks, tag, w)
  {
    if ks != [] { SumIsSumBy(ks[1..], tag, w); }
  }

  lemma {:induction false} ShareLess(t: Select, s: Select, tag: string, w: nat)
    requires NotHeavier(t, s, tag, 2 * w)
    ensures Share(t, tag, w) <= Share(s, tag, w)
  {
  }

  lemma {:induction false} ReplacedSum(ks: seq<Select>, m: Subst, tag: string, w: nat)
    requires forall k | k in ks :: NotHeavier(Get(m, k), k, tag, 2 * w)
    ensures Sum(GetAll(m, ks), tag, w) <= Sum(ks, tag, w)
  {
    var js := GetAll(m, ks);
    forall i | 0 <= i < |ks|
      ensures Share(js[i], tag, w) <= Share(ks[i], tag, w)
    {
      assert ks[i] in ks && NotHeavier(Get(m, ks[i]), ks[i], tag, 2 * w);
      ShareLess(js[i], ks[i], tag, w);
    }
    SumByGrows(Share, js, ks, tag, w);
    SumIsSumBy(js, tag, w);
    SumIsSumBy(ks, tag, w);
  }

  lemma {:induction false} WalkWeight(s: Select, tp: TablePolicies, tag: string, w: nat)
    ensures Weight(Walk(s, tp), tag, w) <= Weight(s, tag, w)
    decreases Depth(s), 0, |SelKids(s)| + 1
  {
    WalkUnfolds(s, tp);
    SelKidsApply(s, WalkMap(s, tp));
    WeightIsSum(s, tag, w);
    WeightIsSum(Walk(s, tp), tag, w);
    forall k | k in SelKids(s)
      ensures NotHeavier(Get(WalkMap(s, tp), k), k, tag, 2 * w)
    {
      RewriteWeight(k, tp, tag, 2 * w);
      WalkWeight(Rewrite(k, tp), tp, tag, 2 * w);
      TailKept(k, tp);
    }
    ReplacedSum(SelKids(s), WalkMap(s, tp), tag, w);
  }

  lemma {:induction false} TailKept(k: Select, tp: TablePolicies)
    ensures Rewrite(k, tp).tail == k.tail && Walk(Rewrite(k, tp), tp).tail == k.tail
  {
    RewriteKeepsTail(k, tp);
    WalkKeepsTail(Rewrite(k, tp), tp);
  }

  lemma {:induction false} RewriteKeepsTail(k: Select, tp: TablePolicies)
    ensures Rewrite(k, tp).tail == k.tail
  {
    RewriteUnfolds(k, tp);
  }

  lemma {:induction false} WalkKeepsTail(k: Select, tp: TablePolicies)
    ensures Walk(k, tp).tail == k.tail
  {
    WalkUnfolds(k, tp);
  }

  lemma {:induction false} RewriteWeight(s: Select, tp: TablePolicies, tag: string, w: nat)
    ensures Weight(Rewrite(s, tp), tag, w) <= Weight(s, tag, w)
    decreases Depth(s), 1, 0
  {
    WalkWeight(s, tp, tag, w);
    VisitSum(Walk(s, tp), tp, tag, w);
  }

  // ----- the bound -----

  /** During the walk of `s`, a SELECT at depth d >= 1 is rewritten at most 2^(d-1) times. */
  lemma {:induction false} VisitsAreBounded(s: Select, tp: TablePolicies, tag: string)
    ensures WalkCalls(s, tag, tp) <= Weight(s, tag, 1)
    decreases Depth(s), 0, |SelKids(s)| + 1
  {
    WeightIsSum(s, tag, 1);
    ListVisitsAreBounded(s, SelKids(s), tp, tag);
  }

  lemma {:induction false} ListVisitsAreBounded(s: Select, ks: seq<Select>, tp: TablePolicies, tag: string)
    requires forall k | k in ks :: Depth(k) < Depth(s)
    ensures ListCalls(Depth(s), ks, tag, tp) <= Sum(ks, tag, 1)
    decreases Depth(s), 0, |ks|
  {
    if ks != [] {
      var k := ks[0];
      assert k in ks && forall j | j in ks[1..] :: j in ks;
      VisitsAreBounded(k, tp, tag);
      VisitsAreBounded(Rewrite(k, tp), tp, tag);
      RewriteWeight(k, tp, tag, 1);
      WeightDoubles(k, tag, 1);
      ListVisitsAreBounded(s, ks[1..], tp, tag);
    }
  }

  // ----- the bound for one SELECT at a known depth -----

  function Pow2(n: nat): nat {
    if n == 0 then 1 else 2 * Pow2(n - 1)
  }

  /** The tagged SELECTs that lie `d` levels below those of the list. */
  function TaggedAt(ks: seq<Select>, tag: string, d: nat): nat
    decreases d, |ks|
  {
    if ks == [] then 0
    else (if d == 0 then One(ks[0], tag) else TaggedAt(SelKids(ks[0]), tag, d - 1)) + TaggedAt(ks[1..], tag, d)
  }

  ghost predicate OnlyAt(ks: seq<Select>, tag: string, d: nat) {
    forall e: nat | e != d :: TaggedAt(ks, tag, e) == 0
  }

  ghost predicate Nowhere(ks: seq<Select>, tag: string) {
    forall e: nat :: TaggedAt(ks, tag, e) == 0
  }

  lemma {:induction false} TaggedFirst(ks: seq<Select>, tag: string, e: nat)
    requires ks != []
    ensures TaggedAt(ks, tag, e + 1) == TaggedAt(SelKids(ks[0]), tag, e) + TaggedAt(ks[1..], tag, e + 1)
    ensures TaggedAt(ks, tag, 0) == One(ks[0], tag) + TaggedAt(ks[1..], tag, 0)
  {
  }

  /** What a list holds nowhere, neither its first SELECT's children nor its rest hold. */
  lemma {:induction false} NowhereSplit(ks: seq<Select>, kids: seq<Select>, tag: string)
    requires ks != [] && kids == SelKids(ks[0]) && Nowhere(ks, tag)
    ensures Nowhere(kids, tag) && Nowhere(ks[1..], tag) && One(ks[0], tag) == 0
  {
    forall e: nat ensures TaggedAt(kids, tag, e) == 0 {
      TaggedFirst(ks, tag, e);
      assert TaggedAt(ks, tag, e + 1) == 0;
    }
    forall e: nat ensures TaggedAt(ks[1..], tag, e) == 0 {
      if e > 0 { TaggedFirst(ks, tag, e - 1); } else { TaggedFirst(ks, tag, 0); }
      assert TaggedAt(ks, tag, e) == 0;
    }
    TaggedFirst(ks, tag, 0);
    assert TaggedAt(ks, tag, 0) == 0;
  }

  lemma {:induction false} SumNowhere(bound: nat, ks: seq<Select>, tag: string, w: nat)
    requires (forall k | k in ks :: Depth(k) < bound) && Nowhere(ks, tag)
    ensures Sum(ks, tag, w) == 0
    decreases bound, |ks|
  {
    if ks != [] {
      assert ks[0] in ks && forall k | k in ks[1..] :: k in ks;
      NowhereSplit(ks, SelKids(ks[0]), tag);
      SumFirst(ks, tag, w);
      SumNowhere(Depth(ks[0]), SelKids(ks[0]), tag, 2 * w);
      SumNowhere(bound, ks[1..], tag, w);
    }
  }

  lemma {:induction false} OnlyAtRest(ks: seq<Select>, tag: string, d: nat)
    requires ks != [] && OnlyAt(ks, tag, d)
    ensures OnlyAt(ks[1..], tag, d)
  {
    forall e: nat | e != d ensures TaggedAt(ks[1..], tag, e) == 0 {
      if e > 0 { TaggedFirst(ks, tag, e - 1); } else { TaggedFirst(ks, tag, 0); }
      assert TaggedAt(ks, tag, e) == 0;
    }
  }

  lemma {:induction false} OnlyAtKids(ks: seq<Select>, kids: seq<Select>, tag: string, d: nat)
    requires ks != [] && kids == SelKids(ks[0]) && OnlyAt(ks, tag, d)
    ensures d == 0 ==> Nowhere(kids, tag)
    ensures d != 0 ==> OnlyAt(kids, tag, d - 1) && One(ks[0], tag) == 0
  {
    forall e: nat | e + 1 != d ensures TaggedAt(kids, tag, e) == 0 {
      TaggedFirst(ks, tag, e);
      assert TaggedAt(ks, tag, e + 1) == 0;
    }
    TaggedFirst(ks, tag, 0);
    assert d != 0 ==> TaggedAt(ks, tag, 0) == 0;
  }

  lemma {:induction false} CombineDeep(all: nat, w: nat, one: nat, kids: nat, rest: nat, p: nat, q: nat, a: nat, b: nat,
                                       n: nat)
    requires all == w * one + kids + rest && one == 0 && kids == 2 * w * q * a && p == 2 * q && rest == w * p * b
             && n == a + b
    ensures all == w * p * n
  {
    assert w * one == 0;
    assert 2 * w * q * a == w * p * a;
    assert w * p * a + w * p * b == w * p * (a + b);
  }

  lemma {:induction false} CombineTop(all: nat, w: nat, one: nat, kids: nat, rest: nat, p: nat, b: nat, n: nat)
    requires all == w * one + kids + rest && kids == 0 && p == 1 && rest == w * p * b && n == one + b
    ensures all == w * p * n
  {
    assert w * p == w;
    assert w * one + w * b == w * (one + b);
  }

  /** A level counts twice what the level above it counts. */
  lemma {:induction false} SumAtDepth(ks: seq<Select>, tag: string, w: nat, d: nat)
    requires OnlyAt(ks, tag, d)
    ensures Sum(ks, tag, w) == w * Pow2(d) * TaggedAt(ks, tag, d)
    decreases d, |ks|
  {
    if ks != [] {
      var kids, rest := SelKids(ks[0]), ks[1..];
      OnlyAtRest(ks, tag, d);
      OnlyAtKids(ks, kids, tag, d);
      SumFirst(ks, tag, w);
      SumAtDepth(rest, tag, w, d);
      if d == 0 {
        SumNowhere(Depth(ks[0]), kids, tag, 2 * w);
        TaggedFirst(ks, tag, 0);
        CombineTop(Sum(ks, tag, w), w, One(ks[0], tag), Sum(kids, tag, 2 * w), Sum(rest, tag, w),
                   Pow2(0), TaggedAt(rest, tag, 0), TaggedAt(ks, tag, 0));
      } else {
        TaggedFirst(ks, tag, d - 1);
        SumAtDepth(kids, tag, 2 * w, d - 1);
        CombineDeep(Sum(ks, tag, w), w, One(ks[0], tag), Sum(kids, tag, 2 * w), Sum(rest, tag, w),
                    Pow2(d), Pow2(d - 1), TaggedAt(kids, tag, d - 1), TaggedAt(rest, tag, d), TaggedAt(ks, tag, d));
      }
    }
  }

  /** A SELECT that lies `d` levels below the root's own nested SELECTs is rewritten at most 2^d times. */
  lemma {:induction false} VisitedAtMost(s: Select, tp: TablePolicies, tag: string, d: nat)
    requires OnlyAt(SelKids(s), tag, d) && TaggedAt(SelKids(s), tag, d) == 1
    ensures WalkCalls(s, tag, tp) <= Pow2(d)
  {
    VisitsAreBounded(s, tp, tag);
    WeightIsSum(s, tag, 1);
    SumAtDepth(SelKids(s), tag, 1, d);
  }
}
