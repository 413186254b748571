/**
 When repeated visits change the outcome.  A SELECT nested two or more deep in a projection
 gets its row filter more than once, which makes two references of one; a projection that is
 suppressed and named after its only reference then loses its name.  Nothing else is lost:
 the nested walk yields the tree of a single pass exactly when this happens nowhere.
 */
module LostNames {
  import opened Wrappers
  import opened Policies
  import opened SqlSyntax
  import opened Rewriter
  import opened RepeatedVisits
  import opened NamesAside
  import opened RepeatedFilters

  // ----- when a suppressed projection loses its name -----

  /** With SELECTs replaced by `o`, some SELECT nested two or more deep in the projection gets a row filter. */
  predicate HidesFilter(q: Expr, o: Subst, tp: TablePolicies) {
    exists k | k in Kids(q) :: FilteredBelow(Get(o, k), tp)
  }

  /** The projection holds one reference, that of a filter nested two or more deep, which the walk makes two of. */
  predicate CountsTwice(q: Expr, o: Subst, tp: TablePolicies) {
    var refs := Refs(Inner(Apply(q, o)));
    |refs| == 1 && refs[0].name != "" && HidesFilter(q, o, tp)
  }

  /** Such a projection is named after that reference unless it has an alias. */
  predicate LosesName(q: Expr, o: Subst, tp: TablePolicies) {
    AliasName(q) == "" && CountsTwice(q, o, tp)
  }

  /** `a` has the references of `b`, or two and more where a filter lies below `b`. */
  predicate Grows(a: Select, b: Select, tp: TablePolicies) {
    if FilteredBelow(b, tp) then |SelRefs(a)| >= 2 else SelRefs(a) == SelRefs(b)
  }

  predicate RefsGrow(m: Subst, o: Subst, ks: seq<Select>, tp: TablePolicies) {
    forall k | k in ks :: Grows(Get(m, k), Get(o, k), tp)
  }

  lemma {:induction false} WalkGrows(k: Select, tp: TablePolicies)
    ensures Grows(Walk(Rewrite(k, tp), tp), OnePass(k, tp), tp)
  {
    if FilteredBelow(OnePass(k, tp), tp) { WalkedHasTwo(k, tp); } else { WalkedRefs(k, tp); }
  }

  lemma {:induction false} WalkGrowsRefs(s: Select, tp: TablePolicies)
    ensures RefsGrow(WalkMap(s, tp), OnePassMap(s, tp), SelKids(s), tp)
  {
    forall k | k in SelKids(s)
      ensures Grows(Get(WalkMap(s, tp), k), Get(OnePassMap(s, tp), k), tp)
    {
      MapsAt(s, k, tp);
      WalkGrows(k, tp);
    }
  }

  lemma {:induction false} NumberOfRefs(q: Expr, m: Subst, o: Subst, tp: TablePolicies)
    requires RefsGrow(m, o, Kids(q), tp)
    ensures !HidesFilter(q, o, tp) ==> Refs(Inner(Apply(q, m))) == Refs(Inner(Apply(q, o)))
    ensures HidesFilter(q, o, tp) ==> |Refs(Inner(Apply(q, m)))| >= 2
  {
    var e := Inner(q);
    assert Kids(e) == Kids(q) && Inner(Apply(q, m)) == Apply(e, m) && Inner(Apply(q, o)) == Apply(e, o);
    if HidesFilter(q, o, tp) {
      var k :| k in Kids(q) && FilteredBelow(Get(o, k), tp);
      KidsApply(e, m);
      InGetAll(m, Kids(e));
      KidRefs(Apply(e, m), Get(m, k));
    } else {
      RefsSame(e, m, o);
    }
  }

  lemma {:induction false} NameKeptExactly(q: Expr, m: Subst, o: Subst, tp: TablePolicies)
    requires RefsGrow(m, o, Kids(q), tp)
    ensures OutName(Apply(q, m)) == OutName(Apply(q, o)) <==> !LosesName(q, o, tp)
  {
    NumberOfRefs(q, m, o, tp);
    assert AliasName(Apply(q, m)) == AliasName(q) == AliasName(Apply(q, o));
  }

  // ----- tidied visits, compared -----

  lemma {:induction false} AgreeOn(u: Subst, v: Subst, ks: seq<Select>)
    ensures GetAll(u, ks) == GetAll(v, ks) <==> forall k | k in ks :: Get(u, k) == Get(v, k)
  {
    if GetAll(u, ks) == GetAll(v, ks) {
      forall k | k in ks
        ensures Get(u, k) == Get(v, k)
      {
        var i :| 0 <= i < |ks| && ks[i] == k;
        assert GetAll(u, ks)[i] == GetAll(v, ks)[i];
      }
    }
  }

  lemma {:induction false} ApplyExactly(e: Expr, u: Subst, v: Subst)
    ensures Apply(e, u) == Apply(e, v) <==> forall k | k in Kids(e) :: Get(u, k) == Get(v, k)
  {
    KidsApply(e, u);
    KidsApply(e, v);
    AgreeOn(u, v, Kids(e));
    if forall k | k in Kids(e) :: Get(u, k) == Get(v, k) { ApplySame(e, u, v); }
  }

  lemma {:induction false} ApplyLExactly(es: seq<Expr>, u: Subst, v: Subst)
    ensures ApplyL(es, u) == ApplyL(es, v) <==> forall k | k in KidsL(es) :: Get(u, k) == Get(v, k)
  {
    KidsApplyL(es, u);
    KidsApplyL(es, v);
    AgreeOn(u, v, KidsL(es));
    if forall k | k in KidsL(es) :: Get(u, k) == Get(v, k) {
      forall i | 0 <= i < |es| { ApplySame(es[i], u, v); }
    }
  }

  lemma {:induction false} ApplyOExactly(w: Option<Expr>, u: Subst, v: Subst)
    ensures ApplyO(w, u) == ApplyO(w, v) <==> forall k | k in KidsO(w) :: Get(u, k) == Get(v, k)
  {
    if w.Some? { ApplyExactly(w.value, u, v); }
  }

  lemma {:induction false} ApplySExactly(ss: seq<Source>, u: Subst, v: Subst)
    ensures ApplyS(ss, u) == ApplyS(ss, v) <==> forall k | k in KidsS(ss) :: Get(u, k) == Get(v, k)
  {
    KidsApplyS(ss, u);
    KidsApplyS(ss, v);
    AgreeOn(u, v, KidsS(ss));
    if forall k | k in KidsS(ss) :: Get(u, k) == Get(v, k) {
      assert forall i | 0 <= i < |ss| && ss[i].Derived? :: ss[i].query in KidsS(ss);
      assert forall i | 0 <= i < |ss| :: ApplyS(ss, u)[i] == ApplyS(ss, v)[i];
    }
  }

  function TidyWhereOf(s: Select, u: Subst, tp: TablePolicies): Option<Expr> {
    CollapseWhere(AddCondition(ApplyO(s.where, u), SelConditions(s, tp)), SelConditions(s, tp))
  }

  lemma {:induction false} TidyWhereKids(s: Select, u: Subst, tp: TablePolicies)
    ensures KidsO(TidyWhereOf(s, u, tp)) == GetAll(u, KidsO(s.where))
  {
    var cs := SelConditions(s, tp);
    KidsApplyO(s.where, u);
    if cs != [] {
      FilterNoKids(s, tp);
      CollapseKids(AddCondition(ApplyO(s.where, u), cs).value, Conjoin(cs));
    }
  }

  lemma {:induction false} TidyWhereExactly(s: Select, u: Subst, v: Subst, tp: TablePolicies)
    ensures TidyWhereOf(s, u, tp) == TidyWhereOf(s, v, tp) <==> forall k | k in KidsO(s.where) :: Get(u, k) == Get(v, k)
  {
    TidyWhereKids(s, u, tp);
    TidyWhereKids(s, v, tp);
    AgreeOn(u, v, KidsO(s.where));
    if forall k | k in KidsO(s.where) :: Get(u, k) == Get(v, k) { ApplyOExactly(s.where, u, v); }
  }

  /** At one place: the projections are the same, or the names. */
  predicate SamePlace(q: Expr, stays: bool, name: string, name': string, u: Subst, v: Subst) {
    if stays then forall k | k in Kids(q) :: Get(u, k) == Get(v, k) else name == name'
  }

  lemma {:induction false} ShownExactly(qs: seq<Expr>, stay: seq<bool>, names: seq<string>, names': seq<string>,
                                        u: Subst, v: Subst)
    requires |stay| == |names| == |names'| == |qs|
    ensures Shown(qs, stay, names, u) == Shown(qs, stay, names', v)
            <==> forall i | 0 <= i < |qs| :: SamePlace(qs[i], stay[i], names[i], names'[i], u, v)
  {
    var a, b := Shown(qs, stay, names, u), Shown(qs, stay, names', v);
    forall i | 0 <= i < |qs|
      ensures a[i] == b[i] <==> SamePlace(qs[i], stay[i], names[i], names'[i], u, v)
    {
      ApplyExactly(qs[i], u, v);
      assert Nulled(names[i]) == Nulled(names'[i]) <==> names[i] == names'[i];
    }
    if a != b { var i :| 0 <= i < |qs| && a[i] != b[i]; }
  }

  /** The tidied result of a visit over children whose tidied trees are given by `u`. */
  function Form(s: Select, qs: seq<Expr>, stay: seq<bool>, names: seq<string>, u: Subst, tp: TablePolicies): Select
    requires |stay| == |names| == |qs|
  {
    SelApply(s, u).(projs := Shown(qs, stay, names, u), where := TidyWhereOf(s, u, tp))
  }

  lemma {:induction false} FormsExactly(s: Select, qs: seq<Expr>, stay: seq<bool>, names: seq<string>,
                                        names': seq<string>, u: Subst, v: Subst, tp: TablePolicies)
    requires |stay| == |names| == |names'| == |qs|
    ensures Form(s, qs, stay, names, u, tp) == Form(s, qs, stay, names', v, tp) <==>
              && (forall k | InClauses(s, k) :: Get(u, k) == Get(v, k))
              && (forall i | 0 <= i < |qs| :: SamePlace(qs[i], stay[i], names[i], names'[i], u, v))
  {
    ApplySExactly(s.sources, u, v);
    ApplyLExactly(s.ons, u, v);
    TidyWhereExactly(s, u, v, tp);
    ApplyLExactly(s.group, u, v);
    ApplyOExactly(s.having, u, v);
    ApplyLExactly(s.order, u, v);
    ShownExactly(qs, stay, names, names', u, v);
  }

  function TidiedKids(s: Select, m: Subst, tp: TablePolicies): Subst {
    map k | k in SelKids(s) :: Tidy(Get(m, k), tp)
  }

  lemma {:induction false} ShownTwice(qs: seq<Expr>, stay: seq<bool>, names: seq<string>, m: Subst, u: Subst, n: Subst)
    requires |stay| == |names| == |qs|
    requires forall i, k | 0 <= i < |qs| && stay[i] && k in Kids(qs[i]) :: Get(u, Get(m, k)) == Get(n, k)
    ensures ApplyL(Shown(qs, stay, names, m), u) == Shown(qs, stay, names, n)
  {
    forall i | 0 <= i < |qs|
      ensures Apply(Shown(qs, stay, names, m)[i], u) == Shown(qs, stay, names, n)[i]
    {
      if stay[i] { ApplyTwice(qs[i], m, u, n); }
    }
  }

  lemma {:induction false} VisitForm(s: Select, m: Subst, qs: seq<Expr>, stay: seq<bool>, tp: TablePolicies)
    requires qs == Listed(s, tp) && stay == StayAt(qs, m, SelAliasMap(s, tp), tp)
    ensures Tidy(Visit(SelApply(s, m), tp), tp) == Form(s, qs, stay, NamesAt(qs, m), TidiedKids(s, m, tp), tp)
  {
    var t, n := Visit(SelApply(s, m), tp), TidiedKids(s, m, tp);
    var u := TidyKids(t, tp);
    VisitShown(s, m, qs, stay, tp);
    forall k | Survives(s, qs, stay, k)
      ensures Get(u, Get(m, k)) == Get(n, k)
    {
      SurvivorBelow(s, m, qs, stay, tp, k);
    }
    PlainClauses(s, m, u, n, t.projs, tp);
    ShownTwice(qs, stay, NamesAt(qs, m), m, u, n);
    ConditionsApply(s, n, tp);
  }

  // ----- the theorem -----

  /**
   In every SELECT of the result of a single pass, no suppressed projection lost its name.  SELECTs in
   suppressed projections are gone from the result and do not matter.
   */
  predicate NamesKept(s: Select, tp: TablePolicies)
    decreases s
  {
    var qs, o := Listed(s, tp), OnePassMap(s, tp);
    var stay := StayAt(qs, o, SelAliasMap(s, tp), tp);
    && (forall i | 0 <= i < |qs| && !stay[i] :: !LosesName(qs[i], o, tp))
    && (forall k | k in SelKids(s) && Survives(s, qs, stay, k) :: NamesKept(k, tp))
  }

  lemma {:induction false} SurvivorsAndNames(s: Select, qs: seq<Expr>, stay: seq<bool>, names: seq<string>,
                                             names': seq<string>, u: Subst, v: Subst, tp: TablePolicies)
    requires |stay| == |names| == |names'| == |qs|
    ensures Form(s, qs, stay, names, u, tp) == Form(s, qs, stay, names', v, tp) <==>
              && (forall k | Survives(s, qs, stay, k) :: Get(u, k) == Get(v, k))
              && (forall i | 0 <= i < |qs| && !stay[i] :: names[i] == names'[i])
  {
    FormsExactly(s, qs, stay, names, names', u, v, tp);
  }

  lemma {:induction false} TidiedAt(s: Select, m: Subst, qs: seq<Expr>, stay: seq<bool>, tp: TablePolicies)
    requires qs == Listed(s, tp) && |stay| == |qs|
    ensures forall k | Survives(s, qs, stay, k) ::
              k in SelKids(s) && Get(TidiedKids(s, m, tp), k) == Tidy(Get(m, k), tp)
  {
    forall k | Survives(s, qs, stay, k)
      ensures k in SelKids(s)
    {
      if i :| 0 <= i < |qs| && stay[i] && k in Kids(qs[i]) { ListedKids(s, qs, tp, qs[i], k); }
    }
  }

  predicate NamesAgree(qs: seq<Expr>, stay: seq<bool>, m: Subst, o: Subst)
    requires |stay| == |qs|
  {
    forall i | 0 <= i < |qs| && !stay[i] :: OutName(Apply(qs[i], m)) == OutName(Apply(qs[i], o))
  }

  predicate SurvivorsAgree(s: Select, qs: seq<Expr>, stay: seq<bool>, m: Subst, o: Subst, tp: TablePolicies)
    requires |stay| == |qs|
  {
    forall k | k in SelKids(s) && Survives(s, qs, stay, k) :: Tidy(Get(m, k), tp) == Tidy(Get(o, k), tp)
  }

  lemma {:induction false} SurvivorsTidied(s: Select, qs: seq<Expr>, stay: seq<bool>, m: Subst, o: Subst,
                                           tp: TablePolicies)
    requires qs == Listed(s, tp) && |stay| == |qs|
    ensures SurvivorsAgree(s, qs, stay, m, o, tp) <==>
              forall k | Survives(s, qs, stay, k) :: Get(TidiedKids(s, m, tp), k) == Get(TidiedKids(s, o, tp), k)
  {
    TidiedAt(s, m, qs, stay, tp);
    TidiedAt(s, o, qs, stay, tp);
  }

  lemma {:induction false} NamesListed(qs: seq<Expr>, stay: seq<bool>, m: Subst, o: Subst)
    requires |stay| == |qs|
    ensures NamesAgree(qs, stay, m, o)
            <==> forall i | 0 <= i < |qs| && !stay[i] :: NamesAt(qs, m)[i] == NamesAt(qs, o)[i]
  {
  }

  lemma {:induction false} FormsAgree(s: Select, qs: seq<Expr>, stay: seq<bool>, m: Subst, o: Subst, tp: TablePolicies)
    requires qs == Listed(s, tp) && |stay| == |qs|
    ensures Form(s, qs, stay, NamesAt(qs, m), TidiedKids(s, m, tp), tp)
            == Form(s, qs, stay, NamesAt(qs, o), TidiedKids(s, o, tp), tp)
            <==> SurvivorsAgree(s, qs, stay, m, o, tp) && NamesAgree(qs, stay, m, o)
  {
    SurvivorsAndNames(s, qs, stay, NamesAt(qs, m), NamesAt(qs, o), TidiedKids(s, m, tp), TidiedKids(s, o, tp), tp);
    SurvivorsTidied(s, qs, stay, m, o, tp);
    NamesListed(qs, stay, m, o);
  }

  /** Two ways to replace children lead a visit to the same tree exactly when survivors and names are the same. */
  lemma {:induction false} VisitsAgree(s: Select, qs: seq<Expr>, stay: seq<bool>, m: Subst, o: Subst, tp: TablePolicies)
    requires qs == Listed(s, tp) && stay == StayAt(qs, m, SelAliasMap(s, tp), tp)
    requires stay == StayAt(qs, o, SelAliasMap(s, tp), tp)
    ensures Tidy(Visit(SelApply(s, m), tp), tp) == Tidy(Visit(SelApply(s, o), tp), tp)
            <==> SurvivorsAgree(s, qs, stay, m, o, tp) && NamesAgree(qs, stay, m, o)
  {
    VisitForm(s, m, qs, stay, tp);
    VisitForm(s, o, qs, stay, tp);
    FormsAgree(s, qs, stay, m, o, tp);
  }

  lemma {:induction false} NamesAgreeExactly(s: Select, qs: seq<Expr>, stay: seq<bool>, m: Subst, o: Subst,
                                             tp: TablePolicies)
    requires qs == Listed(s, tp) && |stay| == |qs| && RefsGrow(m, o, SelKids(s), tp)
    ensures NamesAgree(qs, stay, m, o) <==> forall i | 0 <= i < |qs| && !stay[i] :: !LosesName(qs[i], o, tp)
  {
    forall i | 0 <= i < |qs|
      ensures OutName(Apply(qs[i], m)) == OutName(Apply(qs[i], o)) <==> !LosesName(qs[i], o, tp)
    {
      forall k | k in Kids(qs[i]) ensures k in SelKids(s) { ListedKids(s, qs, tp, qs[i], k); }
      NameKeptExactly(qs[i], m, o, tp);
    }
  }

  lemma {:induction false} NamesKeptExactly(s: Select, m: Subst, o: Subst, tp: TablePolicies)
    requires o == OnePassMap(s, tp) && RefsGrow(m, o, SelKids(s), tp)
    requires StayAt(Listed(s, tp), m, SelAliasMap(s, tp), tp) == StayAt(Listed(s, tp), o, SelAliasMap(s, tp), tp)
    requires forall k | k in SelKids(s) :: Tidy(Get(m, k), tp) == Tidy(Get(o, k), tp) <==> NamesKept(k, tp)
    ensures Tidy(Visit(SelApply(s, m), tp), tp) == Tidy(Visit(SelApply(s, o), tp), tp) <==> NamesKept(s, tp)
  {
    var qs := Listed(s, tp);
    var stay := StayAt(qs, o, SelAliasMap(s, tp), tp);
    VisitsAgree(s, qs, stay, m, o, tp);
    NamesAgreeExactly(s, qs, stay, m, o, tp);
    TidiedAt(s, o, qs, stay, tp);
  }

  lemma {:induction false} KidTidied(s: Select, k: Select, tp: TablePolicies)
    requires k in SelKids(s)
    ensures Tidy(Get(WalkMap(s, tp), k), tp) == Tidy(Rewrite(k, tp), tp)
    ensures Tidy(Get(OnePassMap(s, tp), k), tp) == Tidy(OnePass(k, tp), tp)
  {
    MapsAt(s, k, tp);
    WalkedTidy(k, tp);
  }

  /**
   The nested walk yields the tree of a single bottom-up pass, up to repeated conjuncts, exactly
   when no name is lost.
   */
  lemma {:induction false} RewriteIsOnePassExactly(s: Select, tp: TablePolicies)
    ensures Tidy(Rewrite(s, tp), tp) == Tidy(OnePass(s, tp), tp) <==> NamesKept(s, tp)
    decreases s
  {
    forall k | k in SelKids(s)
      ensures Tidy(Get(WalkMap(s, tp), k), tp) == Tidy(Get(OnePassMap(s, tp), k), tp) <==> NamesKept(k, tp)
    {
      KidTidied(s, k, tp);
      RewriteIsOnePassExactly(k, tp);
    }
    SameStay(s, tp);
    WalkGrowsRefs(s, tp);
    NamesKeptExactly(s, WalkMap(s, tp), OnePassMap(s, tp), tp);
    RewriteUnfolds(s, tp);
    OnePassUnfolds(s, tp);
  }

  // ----- a condition on the query alone -----

  /** No projection holds a SELECT that itself holds a SELECT. */
  predicate Shallow(s: Select)
    decreases s
  {
    && (forall k | k in KidsL(s.projs) :: SelKids(k) == [])
    && (forall k | k in SelKids(s) :: Shallow(k))
  }

  lemma {:induction false} LeafHidesNothing(k: Select, tp: TablePolicies)
    requires SelKids(k) == []
    ensures !FilteredBelow(OnePass(k, tp), tp)
  {
    LeafOnePass(k, tp);
    LeafVisit(k, tp);
  }

  lemma {:induction false} ListedFrom(s: Select, tp: TablePolicies, q: Expr, k: Select)
    requires q in Listed(s, tp) && k in Kids(q)
    ensures k in KidsL(s.projs)
  {
    if SelAliasMap(s, tp) == [] {
      var i :| 0 <= i < |s.projs| && s.projs[i] == q;
    } else {
      ExpandedKids(s.projs, SelAliasMap(s, tp), tp, q, k);
    }
  }

  /** Whatever the policies, a tree with shallow projections loses no name. */
  lemma {:induction false} ShallowKeepsNames(s: Select, tp: TablePolicies)
    requires Shallow(s)
    ensures NamesKept(s, tp)
    decreases s
  {
    var qs := Listed(s, tp);
    forall q, k | q in qs && k in Kids(q)
      ensures !FilteredBelow(Get(OnePassMap(s, tp), k), tp)
    {
      ListedFrom(s, tp, q, k);
      ListedKids(s, qs, tp, q, k);
      LeafHidesNothing(k, tp);
    }
    assert forall q | q in qs :: !HidesFilter(q, OnePassMap(s, tp), tp);
    forall k | k in SelKids(s) { ShallowKeepsNames(k, tp); }
  }
}
