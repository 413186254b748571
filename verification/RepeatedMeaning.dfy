/**
 Repeated conjuncts do not change what a query computes, so the tree the nested walk
 leaves computes what the tree of a single bottom-up pass computes.
 */
module RepeatedMeaning {
  import opened SqlSyntax
  import opened Rewriter
  import opened RepeatedVisits
  import opened LostNames
  import opened Semantics
  import opened Congruence

  /** Nested SELECTs and their replacements compute the same relations. */
  predicate SameResults(sub: Results, sub': Results, m: Subst, ks: seq<Select>) {
    forall k | k in ks :: k in sub && Get(m, k) in sub' && sub'[Get(m, k)] == sub[k]
  }

  lemma {:induction false} SameSources(db: Database, sub: Results, sub': Results, m: Subst, ss: seq<Source>)
    requires SameResults(sub, sub', m, KidsS(ss))
    ensures ScopeOf(db, sub', ApplyS(ss, m)) == ScopeOf(db, sub, ss)
    ensures RowLists(db, sub', ApplyS(ss, m)) == RowLists(db, sub, ss)
  {
    forall i | 0 <= i < |ss|
      ensures SourceRel(db, sub', ApplyS(ss, m)[i]) == SourceRel(db, sub, ss[i])
    {
      if ss[i].Derived? { assert ss[i].query in KidsS(ss); }
    }
  }

  lemma {:induction false} NothingHidden(scope: Scope, s: Select)
    ensures BlindAfterWhere(scope, {}, s) && BlindL(scope, {}, s.ons) && BlindO(scope, {}, s.where)
  {
  }

  lemma {:induction false} ClausesAgree(sub: Results, sub': Results, m: Subst, s: Select)
    requires SameResults(sub, sub', m, SelKids(s))
    ensures KidsAgreeAfterWhere(sub, sub', m, s) && SameResults(sub, sub', m, KidsS(s.sources))
    ensures KidsAgree(sub, sub', m, KidsL(s.ons)) && KidsAgree(sub, sub', m, KidsO(s.where))
  {
  }

  lemma {:induction false} RunApply(E: Engine, db: Database, sub: Results, sub': Results, m: Subst, s: Select)
    requires SameResults(sub, sub', m, SelKids(s))
    ensures Run(E, db, sub', SelApply(s, m)) == Run(E, db, sub, s)
  {
    ClausesAgree(sub, sub', m, s);
    SameSources(db, sub, sub', m, s.sources);
    var scope, ts := ScopeOf(db, sub, s.sources), Cross(RowLists(db, sub, s.sources));
    NothingHidden(scope, s);
    SelfAlike(ts);
    forall i | 0 <= i < |ts| { PassesCong(E, sub, sub', m, scope, {}, s, ts[i], ts[i]); }
    KeptCong(E, sub, sub', scope, {}, s, SelApply(s, m), ts, ts);
    FinishCong(E, sub, sub', m, scope, {}, s, Kept(E, sub, scope, s, ts), Kept(E, sub', scope, SelApply(s, m), ts));
  }

  /** Replacing nested SELECTs by ones that compute the same changes nothing. */
  lemma {:induction false} MeaningApply(E: Engine, db: Database, s: Select, m: Subst)
    requires forall k | k in SelKids(s) :: Meaning(E, db, Get(m, k)) == Meaning(E, db, k)
    ensures Meaning(E, db, SelApply(s, m)) == Meaning(E, db, s)
  {
    var t := SelApply(s, m);
    SelKidsApply(s, m);
    InGetAll(m, SelKids(s));
    RunApply(E, db, KidResults(E, db, s), KidResults(E, db, t), m, s);
  }

  lemma {:induction false} CollapseTruth(E: Engine, sub: Results, scope: Scope, g: Group, w: Expr, f: Expr)
    ensures TruthOf(Eval(E, sub, scope, g, Collapse(w, f))) == True <==> TruthOf(Eval(E, sub, scope, g, w)) == True
    decreases w
  {
    if w.And? && w.right == f && (w.left == f || (w.left.And? && w.left.right == f)) {
      CollapseTruth(E, sub, scope, g, w.left, f);
    }
  }

  lemma {:induction false} KeptSame(E: Engine, sub: Results, scope: Scope, s: Select, s': Select, ts: seq<Tuple>)
    requires forall t :: Passes(E, sub, scope, s', t) == Passes(E, sub, scope, s, t)
    ensures Kept(E, sub, scope, s', ts) == Kept(E, sub, scope, s, ts)
  {
    if ts != [] { KeptSame(E, sub, scope, s, s', ts[1..]); }
  }

  lemma {:induction false} MeaningTidyHere(E: Engine, db: Database, s: Select, tp: TablePolicies)
    ensures Meaning(E, db, TidyHere(s, tp)) == Meaning(E, db, s)
  {
    var cs, t := SelConditions(s, tp), TidyHere(s, tp);
    if cs != [] && s.where.Some? {
      FilterNoKids(s, tp);
      var f, sub, scope := Conjoin(cs), KidResults(E, db, s), ScopeOf(db, KidResults(E, db, s), s.sources);
      CollapseKids(s.where.value, f);
      assert KidResults(E, db, t) == sub;
      forall u: Tuple
        ensures Passes(E, sub, scope, t, u) == Passes(E, sub, scope, s, u)
      {
        CollapseTruth(E, sub, scope, [u], s.where.value, f);
      }
      var ts := Cross(RowLists(db, sub, s.sources));
      KeptSame(E, sub, scope, s, t, ts);
      FinishIgnoresWhere(E, sub, scope, s, t.where, Kept(E, sub, scope, s, ts));
    }
  }

  /** Dropping repeated conjuncts everywhere in a tree changes nothing. */
  lemma {:induction false} MeaningTidy(E: Engine, db: Database, s: Select, tp: TablePolicies)
    ensures Meaning(E, db, Tidy(s, tp)) == Meaning(E, db, s)
    decreases s
  {
    forall k | k in SelKids(s) { MeaningTidy(E, db, k, tp); }
    MeaningApply(E, db, s, TidyKids(s, tp));
    MeaningTidyHere(E, db, SelApply(s, TidyKids(s, tp)), tp);
  }

  /** Where no name is lost, the tree of the nested walk computes what a single pass's tree computes. */
  lemma {:induction false} RewriteMeansOnePass(E: Engine, db: Database, s: Select, tp: TablePolicies)
    requires NamesKept(s, tp)
    ensures Meaning(E, db, Rewrite(s, tp)) == Meaning(E, db, OnePass(s, tp))
  {
    RewriteIsOnePassExactly(s, tp);
    MeaningTidy(E, db, Rewrite(s, tp), tp);
    MeaningTidy(E, db, OnePass(s, tp), tp);
  }

  /** For every tree, rewriting a rewritten tree again does not change what it computes. */
  lemma {:induction false} RewriteAgainMeansTheSame(E: Engine, db: Database, s: Select, tp: TablePolicies)
    ensures Meaning(E, db, Rewrite(Rewrite(s, tp), tp)) == Meaning(E, db, Rewrite(s, tp))
  {
    RewriteIdempotent(s, tp);
    MeaningTidy(E, db, Rewrite(Rewrite(s, tp), tp), tp);
    MeaningTidy(E, db, Rewrite(s, tp), tp);
  }
}
