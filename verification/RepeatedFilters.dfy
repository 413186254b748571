/**
 Row filters and the references a SELECT holds.  After the nested walk a SELECT holds the
 references it holds after a single pass, or at least two where a SELECT below it has a row
 filter, since the walk visits that SELECT again.
 */
module RepeatedFilters {
  import opened Wrappers
  import opened Policies
  import opened SqlSyntax
  import opened Rewriter
  import opened ProjectionInvariant
  import opened RepeatedVisits
  import opened NamesAside

  // ----- where row filters go -----

  /** No SELECT of the tree gets a row filter. */
  predicate Unfiltered(s: Select, tp: TablePolicies)
    decreases s
  {
    SelConditions(s, tp) == [] && forall k | k in SelKids(s) :: Unfiltered(k, tp)
  }

  /** Some SELECT nested in `s` gets a row filter. */
  predicate FilteredBelow(s: Select, tp: TablePolicies) {
    exists k | k in SelKids(s) :: !Unfiltered(k, tp)
  }

  lemma {:induction false} UnnamedKids(ps: seq<Expr>)
    ensures KidsL(UnnameL(ps)) == KidsL(ps)
  {
    if ps != [] {
      assert UnnameL(ps)[1..] == UnnameL(ps[1..]);
      UnnamedKids(ps[1..]);
    }
  }

  lemma {:induction false} PlainKidsAre(s: Select, tp: TablePolicies)
    ensures SelKids(Plain(s, tp)) == GetAll(PlainKids(s, tp), SelKids(s))
    ensures SelConditions(Plain(s, tp), tp) == SelConditions(s, tp)
  {
    var t := SelApply(s, PlainKids(s, tp));
    PlainUnfolds(s, tp);
    SelKidsApply(s, PlainKids(s, tp));
    ConditionsApply(s, PlainKids(s, tp), tp);
    TidyHereKids(t, tp);
    UnnamedKids(t.projs);
  }

  lemma {:induction false} PlainKidIs(s: Select, tp: TablePolicies, k: Select)
    requires k in SelKids(s)
    ensures Plain(k, tp) in SelKids(Plain(s, tp))
  {
    PlainKidsAre(s, tp);
    InGetAll(PlainKids(s, tp), SelKids(s));
    assert Get(PlainKids(s, tp), k) == Plain(k, tp);
  }

  lemma {:induction false} PlainKidOf(s: Select, tp: TablePolicies, x: Select) returns (k: Select)
    requires x in SelKids(Plain(s, tp))
    ensures k in SelKids(s) && x == Plain(k, tp)
  {
    var ks := SelKids(s);
    PlainKidsAre(s, tp);
    var i :| 0 <= i < |ks| && GetAll(PlainKids(s, tp), ks)[i] == x;
    k := ks[i];
    assert k in ks && Get(PlainKids(s, tp), k) == Plain(k, tp);
  }

  lemma {:induction false} FilteredPlain(s: Select, tp: TablePolicies)
    requires forall k | k in SelKids(s) :: Unfiltered(Plain(k, tp), tp) == Unfiltered(k, tp)
    ensures FilteredBelow(Plain(s, tp), tp) == FilteredBelow(s, tp)
  {
    if FilteredBelow(s, tp) {
      var k :| k in SelKids(s) && !Unfiltered(k, tp);
      PlainKidIs(s, tp, k);
    }
    if FilteredBelow(Plain(s, tp), tp) {
      var x :| x in SelKids(Plain(s, tp)) && !Unfiltered(x, tp);
      var k := PlainKidOf(s, tp, x);
    }
  }

  lemma {:induction false} UnfilteredPlain(s: Select, tp: TablePolicies)
    ensures Unfiltered(Plain(s, tp), tp) == Unfiltered(s, tp)
    ensures FilteredBelow(Plain(s, tp), tp) == FilteredBelow(s, tp)
    decreases s
  {
    forall k | k in SelKids(s)
      ensures Unfiltered(Plain(k, tp), tp) == Unfiltered(k, tp)
    {
      UnfilteredPlain(k, tp);
    }
    FilteredPlain(s, tp);
    PlainKidsAre(s, tp);
    UnfilteredHere(s, tp);
    UnfilteredHere(Plain(s, tp), tp);
  }

  lemma {:induction false} UnfilteredHere(s: Select, tp: TablePolicies)
    ensures Unfiltered(s, tp) <==> SelConditions(s, tp) == [] && !FilteredBelow(s, tp)
  {
  }

  // ----- references under replaced children -----

  predicate SameRefs(m: Subst, o: Subst, ks: seq<Select>) {
    forall k | k in ks :: SelRefs(Get(m, k)) == SelRefs(Get(o, k))
  }

  lemma {:induction false} RefsSame(e: Expr, m: Subst, o: Subst)
    requires SameRefs(m, o, Kids(e))
    ensures Refs(Apply(e, m)) == Refs(Apply(e, o))
  {
    match e
    case Op(_, l, r) => RefsSame(l, m, o); RefsSame(r, m, o);
    case And(l, r) => RefsSame(l, m, o); RefsSame(r, m, o);
    case InList(a, _) => RefsSame(a, m, o);
    case Agg(_, a) => RefsSame(a, m, o);
    case Alias(a, _) => RefsSame(a, m, o);
    case Sub(_, a, q) => assert q in Kids(e); RefsSame(a, m, o);
    case _ =>
  }

  lemma {:induction false} RefsSameL(es: seq<Expr>, m: Subst, o: Subst)
    requires SameRefs(m, o, KidsL(es))
    ensures RefsL(ApplyL(es, m)) == RefsL(ApplyL(es, o))
  {
    if es != [] {
      assert ApplyL(es, m)[1..] == ApplyL(es[1..], m) && ApplyL(es, o)[1..] == ApplyL(es[1..], o);
      RefsSame(es[0], m, o);
      RefsSameL(es[1..], m, o);
    }
  }

  lemma {:induction false} RefsSameS(ss: seq<Source>, m: Subst, o: Subst)
    requires SameRefs(m, o, KidsS(ss))
    ensures RefsS(ApplyS(ss, m)) == RefsS(ApplyS(ss, o))
  {
    if ss != [] {
      assert ApplyS(ss, m)[1..] == ApplyS(ss[1..], m) && ApplyS(ss, o)[1..] == ApplyS(ss[1..], o);
      if ss[0].Derived? { assert ss[0].query in KidsS(ss); }
      RefsSameS(ss[1..], m, o);
    }
  }

  lemma {:induction false} RefsSameO(w: Option<Expr>, m: Subst, o: Subst)
    requires SameRefs(m, o, KidsO(w))
    ensures RefsO(ApplyO(w, m)) == RefsO(ApplyO(w, o))
  {
    if w.Some? { RefsSame(w.value, m, o); }
  }

  predicate InClauses(s: Select, k: Select) {
    k in KidsS(s.sources) || k in KidsL(s.ons) || k in KidsO(s.where)
    || k in KidsL(s.group) || k in KidsO(s.having) || k in KidsL(s.order)
  }

  /** The references of two SELECTs that differ in their children, projections and WHERE. */
  lemma {:induction false} SelRefsSame(s: Select, m: Subst, o: Subst, t: Select, t': Select)
    requires forall k | InClauses(s, k) :: SelRefs(Get(m, k)) == SelRefs(Get(o, k))
    requires t == SelApply(s, m).(projs := t.projs, where := t.where)
    requires t' == SelApply(s, o).(projs := t'.projs, where := t'.where)
    requires RefsL(t.projs) == RefsL(t'.projs) && RefsO(t.where) == RefsO(t'.where)
    ensures SelRefs(t) == SelRefs(t')
  {
    RefsSameS(s.sources, m, o);
    RefsSameL(s.ons, m, o);
    RefsSameL(s.group, m, o);
    RefsSameO(s.having, m, o);
    RefsSameL(s.order, m, o);
  }

  lemma {:induction false} SelRefsApply(s: Select, m: Subst)
    requires forall k | k in SelKids(s) :: SelRefs(Get(m, k)) == SelRefs(k)
    ensures SelRefs(SelApply(s, m)) == SelRefs(s)
  {
    SelApplyNothing(s, map[]);
    RefsSameL(s.projs, m, map[]);
    RefsSameO(s.where, m, map[]);
    SelRefsSame(s, m, map[], SelApply(s, m), s);
  }

  /** Without row filters a tree has the references of its plain tree. */
  lemma {:induction false} UnfilteredRefs(s: Select, tp: TablePolicies)
    requires Unfiltered(s, tp)
    ensures SelRefs(Plain(s, tp)) == SelRefs(s)
    decreases s
  {
    forall k | k in SelKids(s) { UnfilteredRefs(k, tp); }
    SelRefsApply(s, PlainKids(s, tp));
    PlainUnfolds(s, tp);
    ConditionsApply(s, PlainKids(s, tp), tp);
    UnnamedRefs(SelApply(s, PlainKids(s, tp)).projs);
  }

  lemma {:induction false} SamePlainRefs(a: Select, b: Select, tp: TablePolicies)
    requires Plain(a, tp) == Plain(b, tp) && Unfiltered(a, tp)
    ensures SelRefs(a) == SelRefs(b)
  {
    UnfilteredPlain(a, tp);
    UnfilteredPlain(b, tp);
    UnfilteredRefs(a, tp);
    UnfilteredRefs(b, tp);
  }

  // ----- one visit, over children replaced by `m` -----

  /** The projections a visit goes through. */
  function Listed(s: Select, tp: TablePolicies): seq<Expr> {
    if SelAliasMap(s, tp) == [] then s.projs else ExpandStars(s.projs, SelAliasMap(s, tp), tp)
  }

  predicate Stays(q: Expr, m: Subst, am: AliasMap, tp: TablePolicies) {
    am == [] || Keeps(Apply(q, m), am, tp)
  }

  function StayAt(qs: seq<Expr>, m: Subst, am: AliasMap, tp: TablePolicies): seq<bool> {
    seq(|qs|, i requires 0 <= i < |qs| => Stays(qs[i], m, am, tp))
  }

  function NamesAt(qs: seq<Expr>, m: Subst): seq<string> {
    seq(|qs|, i requires 0 <= i < |qs| => OutName(Apply(qs[i], m)))
  }

  /** Projections that stay, and the others as NULL under their names. */
  function Shown(qs: seq<Expr>, stay: seq<bool>, names: seq<string>, u: Subst): seq<Expr>
    requires |stay| == |names| == |qs|
  {
    seq(|qs|, i requires 0 <= i < |qs| => if stay[i] then Apply(qs[i], u) else Nulled(names[i]))
  }

  lemma {:induction false} VisitShown(s: Select, m: Subst, qs: seq<Expr>, stay: seq<bool>, tp: TablePolicies)
    requires qs == Listed(s, tp) && stay == StayAt(qs, m, SelAliasMap(s, tp), tp)
    ensures Visit(SelApply(s, m), tp)
            == SelApply(s, m).(projs := Shown(qs, stay, NamesAt(qs, m), m),
                               where := AddCondition(ApplyO(s.where, m), SelConditions(s, tp)))
  {
    var am := SelAliasMap(s, tp);
    ConditionsApply(s, m, tp);
    if am == [] {
      assert Shown(qs, stay, NamesAt(qs, m), m) == ApplyL(s.projs, m);
    } else {
      VisitUnfolds(s, m, qs, tp);
      assert Shown(qs, stay, NamesAt(qs, m), m) == RewriteProjs(ApplyL(qs, m), am, tp);
    }
  }

  /** Nested in a clause other than the projections, or in a projection that stays. */
  predicate Survives(s: Select, qs: seq<Expr>, stay: seq<bool>, k: Select)
    requires |stay| == |qs|
  {
    InClauses(s, k) || exists i | 0 <= i < |qs| :: stay[i] && k in Kids(qs[i])
  }

  lemma {:induction false} ListedKids(s: Select, qs: seq<Expr>, tp: TablePolicies, q: Expr, k: Select)
    requires qs == Listed(s, tp) && q in qs && k in Kids(q)
    ensures k in SelKids(s)
  {
    if SelAliasMap(s, tp) == [] {
      var i :| 0 <= i < |qs| && qs[i] == q;
      assert k in KidsL(s.projs);
    } else {
      ExpandedKids(s.projs, SelAliasMap(s, tp), tp, q, k);
    }
  }

  lemma {:induction false} SurvivorBelow(s: Select, m: Subst, qs: seq<Expr>, stay: seq<bool>, tp: TablePolicies,
                                         k: Select)
    requires qs == Listed(s, tp) && stay == StayAt(qs, m, SelAliasMap(s, tp), tp)
    requires Survives(s, qs, stay, k)
    ensures k in SelKids(s) && Get(m, k) in SelKids(Visit(SelApply(s, m), tp))
  {
    var t := Visit(SelApply(s, m), tp);
    VisitShown(s, m, qs, stay, tp);
    if InClauses(s, k) {
      ClauseKids(s, m, t);
    } else {
      var i :| 0 <= i < |qs| && stay[i] && k in Kids(qs[i]);
      ListedKids(s, qs, tp, qs[i], k);
      assert t.projs[i] == Apply(qs[i], m);
      KeptKids(t.projs, qs[i], m, k);
    }
  }

  // ----- references after the walk and after a single pass -----

  lemma {:induction false} ShownRefs(qs: seq<Expr>, stay: seq<bool>, names: seq<string>, names': seq<string>,
                                     m: Subst, o: Subst)
    requires |stay| == |names| == |names'| == |qs|
    requires forall i | 0 <= i < |qs| && stay[i] :: SameRefs(m, o, Kids(qs[i]))
    ensures RefsL(Shown(qs, stay, names, m)) == RefsL(Shown(qs, stay, names', o))
  {
    if qs != [] {
      var a, b := Shown(qs, stay, names, m), Shown(qs, stay, names', o);
      assert a[1..] == Shown(qs[1..], stay[1..], names[1..], m) && b[1..] == Shown(qs[1..], stay[1..], names'[1..], o);
      ShownRefs(qs[1..], stay[1..], names[1..], names'[1..], m, o);
      if stay[0] { RefsSame(qs[0], m, o); }
    }
  }

  lemma {:induction false} AddedRefs(w: Option<Expr>, cs: seq<Expr>, m: Subst, o: Subst)
    requires SameRefs(m, o, KidsO(w))
    ensures RefsO(AddCondition(ApplyO(w, m), cs)) == RefsO(AddCondition(ApplyO(w, o), cs))
  {
    RefsSameO(w, m, o);
  }

  lemma {:induction false} VisitRefs(s: Select, m: Subst, o: Subst, qs: seq<Expr>, stay: seq<bool>, tp: TablePolicies)
    requires qs == Listed(s, tp) && stay == StayAt(qs, m, SelAliasMap(s, tp), tp)
    requires stay == StayAt(qs, o, SelAliasMap(s, tp), tp)
    requires forall k | Survives(s, qs, stay, k) :: SelRefs(Get(m, k)) == SelRefs(Get(o, k))
    ensures SelRefs(Visit(SelApply(s, m), tp)) == SelRefs(Visit(SelApply(s, o), tp))
  {
    VisitShown(s, m, qs, stay, tp);
    VisitShown(s, o, qs, stay, tp);
    ShownRefs(qs, stay, NamesAt(qs, m), NamesAt(qs, o), m, o);
    AddedRefs(s.where, SelConditions(s, tp), m, o);
    SelRefsSame(s, m, o, Visit(SelApply(s, m), tp), Visit(SelApply(s, o), tp));
  }

  lemma {:induction false} KidPlain(s: Select, k: Select, tp: TablePolicies)
    requires k in SelKids(s)
    ensures Plain(Get(WalkMap(s, tp), k), tp) == Plain(Get(OnePassMap(s, tp), k), tp)
  {
    MapsAt(s, k, tp);
    WalkedPlain(k, tp);
    RewriteIsOnePassNamesAside(k, tp);
  }

  predicate PlainAlike(m: Subst, o: Subst, ks: seq<Select>, tp: TablePolicies) {
    forall k | k in ks :: Plain(Get(m, k), tp) == Plain(Get(o, k), tp)
  }

  lemma {:induction false} StaysAlike(q: Expr, m: Subst, o: Subst, n: Subst, am: AliasMap, tp: TablePolicies)
    requires forall k | k in Kids(q) :: Plain(Get(m, k), tp) == Get(n, k)
    requires forall k | k in Kids(q) :: Plain(Get(o, k), tp) == Get(n, k)
    ensures Stays(q, m, am, tp) == Stays(q, o, am, tp)
    ensures VerdictOn(Apply(q, m), am, tp) == VerdictOn(Apply(q, o), am, tp)
  {
    KeepsPlain(q, m, n, am, tp);
    KeepsPlain(q, o, n, am, tp);
  }

  /** Children with the same plain trees lead to the same verdicts. */
  lemma {:induction false} VerdictsAlike(s: Select, q: Expr, m: Subst, o: Subst, tp: TablePolicies)
    requires q in Listed(s, tp) && PlainAlike(m, o, SelKids(s), tp)
    ensures Stays(q, m, SelAliasMap(s, tp), tp) == Stays(q, o, SelAliasMap(s, tp), tp)
    ensures VerdictOn(Apply(q, m), SelAliasMap(s, tp), tp) == VerdictOn(Apply(q, o), SelAliasMap(s, tp), tp)
  {
    var n: Subst := map k | k in SelKids(s) :: Plain(Get(o, k), tp);
    forall k | k in Kids(q)
      ensures Plain(Get(m, k), tp) == Get(n, k) == Plain(Get(o, k), tp)
    {
      ListedKids(s, Listed(s, tp), tp, q, k);
    }
    StaysAlike(q, m, o, n, SelAliasMap(s, tp), tp);
  }

  lemma {:induction false} StayAlike(s: Select, qs: seq<Expr>, m: Subst, o: Subst, tp: TablePolicies)
    requires qs == Listed(s, tp) && PlainAlike(m, o, SelKids(s), tp)
    ensures StayAt(qs, m, SelAliasMap(s, tp), tp) == StayAt(qs, o, SelAliasMap(s, tp), tp)
  {
    forall i | 0 <= i < |qs|
      ensures Stays(qs[i], m, SelAliasMap(s, tp), tp) == Stays(qs[i], o, SelAliasMap(s, tp), tp)
    {
      VerdictsAlike(s, qs[i], m, o, tp);
    }
  }

  /** The walk and the single pass keep the same projections. */
  lemma {:induction false} SameStay(s: Select, tp: TablePolicies)
    ensures PlainAlike(WalkMap(s, tp), OnePassMap(s, tp), SelKids(s), tp)
    ensures StayAt(Listed(s, tp), WalkMap(s, tp), SelAliasMap(s, tp), tp)
            == StayAt(Listed(s, tp), OnePassMap(s, tp), SelAliasMap(s, tp), tp)
  {
    forall k | k in SelKids(s)
      ensures Plain(Get(WalkMap(s, tp), k), tp) == Plain(Get(OnePassMap(s, tp), k), tp)
    {
      KidPlain(s, k, tp);
    }
    StayAlike(s, Listed(s, tp), WalkMap(s, tp), OnePassMap(s, tp), tp);
  }

  lemma {:induction false} RewriteRefs(s: Select, tp: TablePolicies)
    requires !FilteredBelow(OnePass(s, tp), tp)
    ensures SelRefs(Rewrite(s, tp)) == SelRefs(OnePass(s, tp))
  {
    var qs, m, o := Listed(s, tp), WalkMap(s, tp), OnePassMap(s, tp);
    var stay := StayAt(qs, o, SelAliasMap(s, tp), tp);
    RewriteUnfolds(s, tp);
    OnePassUnfolds(s, tp);
    SameStay(s, tp);
    forall k | Survives(s, qs, stay, k)
      ensures SelRefs(Get(m, k)) == SelRefs(Get(o, k))
    {
      SurvivorBelow(s, o, qs, stay, tp, k);
      SamePlainRefs(Get(o, k), Get(m, k), tp);
    }
    VisitRefs(s, m, o, qs, stay, tp);
  }

  lemma {:induction false} WalkSettledPlain(z: Select, tp: TablePolicies)
    requires Settled(z, tp)
    ensures Plain(Walk(Rewrite(z, tp), tp), tp) == Plain(z, tp)
  {
    WalkedPlain(z, tp);
    RewriteAgainTidy(z, tp);
    PlainOfTidy(Rewrite(z, tp), tp);
    PlainOfTidy(z, tp);
  }

  /** With no row filter below, what a SELECT refers to after the walk is what it refers to after a single pass. */
  lemma {:induction false} WalkedRefs(s: Select, tp: TablePolicies)
    requires !FilteredBelow(OnePass(s, tp), tp)
    ensures SelRefs(Walk(Rewrite(s, tp), tp)) == SelRefs(OnePass(s, tp))
  {
    var r := Rewrite(s, tp);
    RewriteRefs(s, tp);
    RewriteIsOnePassNamesAside(s, tp);
    UnfilteredPlain(r, tp);
    UnfilteredPlain(OnePass(s, tp), tp);
    RewriteSettles(s, tp);
    forall z | z in SelKids(r)
      ensures SelRefs(Get(WalkMap(r, tp), z)) == SelRefs(z)
    {
      WalkSettledPlain(z, tp);
      SamePlainRefs(z, Walk(Rewrite(z, tp), tp), tp);
    }
    SelRefsApply(r, WalkMap(r, tp));
    WalkUnfolds(r, tp);
  }

  // ----- a row filter below is there twice -----

  /** The WHERE ends in the conjunction of `cs` twice. */
  predicate EndsTwice(where: Option<Expr>, cs: seq<Expr>) {
    cs == []
    || (where.Some? && where.value.And? && where.value.right == Conjoin(cs) && EndsIn(Some(where.value.left), cs))
  }

  predicate Twice(s: Select, tp: TablePolicies)
    decreases s
  {
    EndsTwice(s.where, SelConditions(s, tp)) && forall k | k in SelKids(s) :: Twice(k, tp)
  }

  lemma {:induction false} EndsTwiceApply(s: Select, m: Subst, tp: TablePolicies)
    requires EndsTwice(s.where, SelConditions(s, tp))
    ensures EndsTwice(ApplyO(s.where, m), SelConditions(s, tp))
  {
    var cs := SelConditions(s, tp);
    if cs != [] {
      var w, f := s.where.value, Conjoin(cs);
      FilterNoKids(s, tp);
      ApplyNothing(f, m);
      assert Apply(w, m) == And(Apply(w.left, m), f);
      if w.left != f { assert Apply(w.left, m) == And(Apply(w.left.left, m), f); }
    }
  }

  lemma {:induction false} NoAliasNoCondition(s: Select, tp: TablePolicies)
    requires SelAliasMap(s, tp) == []
    ensures SelConditions(s, tp) == []
  {
  }

  lemma {:induction false} VisitEndsTwice(s: Select, tp: TablePolicies)
    requires SettledHere(s, tp)
    ensures EndsTwice(Visit(s, tp).where, SelConditions(Visit(s, tp), tp))
  {
    VisitSettledAgain(s, tp);
    if SelAliasMap(s, tp) == [] { NoAliasNoCondition(s, tp); }
  }

  /** Visiting a settled tree repeats every row filter. */
  lemma {:induction false} WalkAgainTwice(s: Select, tp: TablePolicies)
    requires Settled(s, tp)
    ensures Twice(Walk(Rewrite(s, tp), tp), tp)
    decreases Depth(s)
  {
    var r, w := Rewrite(s, tp), Walk(Rewrite(s, tp), tp);
    WalkKeepsSettled(s, tp);
    VisitEndsTwice(Walk(s, tp), tp);
    RewriteSettles(s, tp);
    EndsTwiceApply(r, WalkMap(r, tp), tp);
    WalkUnfolds(r, tp);
    ConditionsApply(r, WalkMap(r, tp), tp);
    forall t | t in SelKids(w)
      ensures Twice(t, tp)
    {
      var k := WalkedKid(r, tp, t);
      WalkAgainTwice(k, tp);
    }
  }

  lemma {:induction false} KidRefs(e: Expr, k: Select)
    requires k in Kids(e)
    ensures |SelRefs(k)| <= |Refs(e)|
  {
    match e
    case Op(_, l, r) => if k in Kids(l) { KidRefs(l, k); } else { KidRefs(r, k); }
    case And(l, r) => if k in Kids(l) { KidRefs(l, k); } else { KidRefs(r, k); }
    case InList(a, _) => KidRefs(a, k);
    case Agg(_, a) => KidRefs(a, k);
    case Alias(a, _) => KidRefs(a, k);
    case Sub(_, a, q) => if k in Kids(a) { KidRefs(a, k); }
    case _ =>
  }

  lemma {:induction false} KidRefsL(es: seq<Expr>, k: Select)
    requires k in KidsL(es)
    ensures |SelRefs(k)| <= |RefsL(es)|
  {
    if k in Kids(es[0]) { KidRefs(es[0], k); } else { KidRefsL(es[1..], k); }
  }

  lemma {:induction false} KidRefsS(ss: seq<Source>, k: Select)
    requires k in KidsS(ss)
    ensures |SelRefs(k)| <= |RefsS(ss)|
  {
    if k !in KidsS(ss[1..]) { assert ss[0] == Derived(k, ss[0].alias); } else { KidRefsS(ss[1..], k); }
  }

  lemma {:induction false} SelKidRefs(s: Select, k: Select)
    requires k in SelKids(s)
    ensures |SelRefs(k)| <= |SelRefs(s)|
  {
    if k in KidsL(s.projs) { KidRefsL(s.projs, k); }
    else if k in KidsS(s.sources) { KidRefsS(s.sources, k); }
    else if k in KidsL(s.ons) { KidRefsL(s.ons, k); }
    else if k in KidsO(s.where) { KidRefs(s.where.value, k); }
    else if k in KidsL(s.group) { KidRefsL(s.group, k); }
    else if k in KidsO(s.having) { KidRefs(s.having.value, k); }
    else { KidRefsL(s.order, k); }
  }

  lemma {:induction false} ConjoinRefs(cs: seq<Expr>)
    requires cs != [] && forall c | c in cs :: Refs(c) != []
    ensures Refs(Conjoin(cs)) != []
  {
    assert cs[|cs| - 1] in cs;
  }

  lemma {:induction false} FilterRefs(s: Select, tp: TablePolicies)
    requires SelConditions(s, tp) != []
    ensures Refs(Conjoin(SelConditions(s, tp))) != []
  {
    ConditionsAreFilters(SelAliasMap(s, tp), tp, {});
    forall c | c in SelConditions(s, tp)
      ensures Refs(c) != []
    {
      var e, f :| e in SelAliasMap(s, tp) && f in FiltersOf(tp, e.key) && c == FilterExpr(e.alias, f);
      assert Refs(Col(e.alias, f.column)) == [Ref(e.alias, f.column)];
    }
    ConjoinRefs(SelConditions(s, tp));
  }

  lemma {:induction false} TwiceHasTwo(s: Select, tp: TablePolicies)
    requires Twice(s, tp) && !Unfiltered(s, tp)
    ensures |SelRefs(s)| >= 2
    decreases s
  {
    if SelConditions(s, tp) != [] {
      var w, f := s.where.value, Conjoin(SelConditions(s, tp));
      FilterRefs(s, tp);
      assert Refs(w) == Refs(w.left) + Refs(f);
      if w.left != f { assert Refs(w.left) == Refs(w.left.left) + Refs(f); }
    } else {
      var k :| k in SelKids(s) && !Unfiltered(k, tp);
      TwiceHasTwo(k, tp);
      SelKidRefs(s, k);
    }
  }

  /** With a row filter below, a SELECT holds two references after the walk. */
  lemma {:induction false} WalkedHasTwo(s: Select, tp: TablePolicies)
    requires FilteredBelow(OnePass(s, tp), tp)
    ensures |SelRefs(Walk(Rewrite(s, tp), tp))| >= 2
  {
    var r, w := Rewrite(s, tp), Walk(Rewrite(s, tp), tp);
    RewriteIsOnePassNamesAside(s, tp);
    WalkedPlain(s, tp);
    UnfilteredPlain(OnePass(s, tp), tp);
    UnfilteredPlain(w, tp);
    var t :| t in SelKids(w) && !Unfiltered(t, tp);
    var k := WalkedKid(r, tp, t);
    RewriteSettles(s, tp);
    WalkAgainTwice(k, tp);
    TwiceHasTwo(t, tp);
    SelKidRefs(w, t);
  }
}
