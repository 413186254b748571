/**
 Which names the metadata lists as denied.  The nested walk lists the names a single pass lists,
 but for those of suppressed projections that lose their name; so the lists hold the same names
 exactly when another projection lists every lost name too.
 */
module DeniedNames {
  import opened Policies
  import opened SqlSyntax
  import opened Rewriter
  import opened ProjectionInvariant
  import opened RepeatedVisits
  import opened RepeatedFilters
  import opened LostNames
  import opened RewriteLog
  import opened OnePassLog

  predicate Denies(es: seq<Event>, n: string) {
    Denied(n) in es
  }

  lemma {:induction false} RecordedNames(m: Meta, es: seq<Event>, n: string)
    ensures n in RecordAll(m, es).denied <==> n in m.denied || Denies(es, n)
    decreases |es|
  {
    if es != [] {
      assert es == [es[0]] + es[1..];
      RecordedNames(Record(m, es[0]), es[1..], n);
    }
  }

  // ----- one projection -----

  /** A single pass names the projection, and the walk does not. */
  predicate Loses(q: Expr, o: Subst, am: AliasMap, tp: TablePolicies) {
    LosesName(q, o, tp) && !Keeps(Apply(q, o), am, tp)
  }

  lemma {:induction false} VerdictDenies(inner: Expr, refs: nat, v: Verdict, out: string, n: string)
    ensures Denies(VerdictEvents(inner, refs, v, out), n)
            <==> n == out != "" && (v.action == Deny || (v.action == Mask && !PlainColumn(inner)))
  {
  }

  lemma {:induction false} ProjDenies(p: Expr, am: AliasMap, tp: TablePolicies, n: string)
    ensures Denies(ProjEvents(p, am, tp), n) <==> n == OutName(p) != "" && !Keeps(p, am, tp)
  {
    VerdictDenies(Inner(p), |Refs(Inner(p))|, Judge(Refs(Inner(p)), am, tp), OutName(p), n);
  }

  lemma {:induction false} KeepsAlike(q: Expr, m: Subst, o: Subst, am: AliasMap, tp: TablePolicies)
    requires VerdictsAgree(q, m, o, am, tp)
    ensures Keeps(Apply(q, m), am, tp) == Keeps(Apply(q, o), am, tp)
  {
    Applied(q, m);
    Applied(q, o);
  }

  /** The walk lists the name under which a projection is suppressed unless the projection loses it. */
  lemma {:induction false} WalkedDenies(q: Expr, m: Subst, o: Subst, am: AliasMap, tp: TablePolicies, n: string)
    requires RefsGrow(m, o, Kids(q), tp) && VerdictsAgree(q, m, o, am, tp)
    ensures Denies(ProjEvents(Apply(q, m), am, tp), n)
            <==> Denies(ProjEvents(Apply(q, o), am, tp), n) && !Loses(q, o, am, tp)
    ensures Loses(q, o, am, tp) ==> (Denies(ProjEvents(Apply(q, o), am, tp), n) <==> n == OutName(Apply(q, o)))
  {
    ProjDenies(Apply(q, m), am, tp, n);
    ProjDenies(Apply(q, o), am, tp, n);
    KeepsAlike(q, m, o, am, tp);
    NameKeptExactly(q, m, o, tp);
    if LosesName(q, o, tp) { LostIsUnnamed(q, m, o, tp); }
  }

  lemma {:induction false} LostIsUnnamed(q: Expr, m: Subst, o: Subst, tp: TablePolicies)
    requires RefsGrow(m, o, Kids(q), tp) && LosesName(q, o, tp)
    ensures OutName(Apply(q, m)) == "" && OutName(Apply(q, o)) != ""
  {
    NumberOfRefs(q, m, o, tp);
    Applied(q, m);
    Applied(q, o);
  }

  // ----- all projections of a SELECT -----

  lemma {:induction false} ProjsDeny(ps: seq<Expr>, am: AliasMap, tp: TablePolicies, n: string)
    ensures Denies(ProjsEvents(ps, am, tp), n) <==> exists i :: 0 <= i < |ps| && Denies(ProjEvents(ps[i], am, tp), n)
  {
    if ps != [] {
      ProjsDeny(ps[1..], am, tp, n);
      if i :| 0 <= i < |ps| && Denies(ProjEvents(ps[i], am, tp), n) {
        if i > 0 { assert ps[1..][i - 1] == ps[i]; }
      }
      if j :| 0 <= j < |ps| - 1 && Denies(ProjEvents(ps[1..][j], am, tp), n) { assert ps[j + 1] == ps[1..][j]; }
    }
  }

  /** A projection that loses its name would have it from a single pass. */
  predicate LostHere(s: Select, tp: TablePolicies, n: string) {
    var am, o := SelAliasMap(s, tp), OnePassMap(s, tp);
    am != [] && exists q | q in Listed(s, tp) :: Loses(q, o, am, tp) && OutName(Apply(q, o)) == n
  }

  /** A projection that loses no name is suppressed under it. */
  predicate ListedHere(s: Select, tp: TablePolicies, n: string) {
    var am, o := SelAliasMap(s, tp), OnePassMap(s, tp);
    am != [] && exists q | q in Listed(s, tp) :: !Loses(q, o, am, tp) && Denies(ProjEvents(Apply(q, o), am, tp), n)
  }

  lemma {:induction false} AppliedDeny(qs: seq<Expr>, m: Subst, am: AliasMap, tp: TablePolicies, n: string)
    ensures Denies(ProjsEvents(ApplyL(qs, m), am, tp), n)
            <==> exists q :: q in qs && Denies(ProjEvents(Apply(q, m), am, tp), n)
  {
    var ps := ApplyL(qs, m);
    ProjsDeny(ps, am, tp, n);
    if i :| 0 <= i < |ps| && Denies(ProjEvents(ps[i], am, tp), n) { assert qs[i] in qs; }
    if q :| q in qs && Denies(ProjEvents(Apply(q, m), am, tp), n) {
      var i :| 0 <= i < |qs| && qs[i] == q;
      assert ps[i] == Apply(q, m);
    }
  }

  lemma {:induction false} DeniesConcat(a: seq<Event>, b: seq<Event>, n: string)
    ensures Denies(a + b, n) <==> Denies(a, n) || Denies(b, n)
  {
  }

  lemma {:induction false} DeniedOver(s: Select, m: Subst, tp: TablePolicies, n: string)
    ensures Denies(VisitEvents(SelApply(s, m), tp), n)
            <==> SelAliasMap(s, tp) != []
                 && exists q :: q in Listed(s, tp) && Denies(ProjEvents(Apply(q, m), SelAliasMap(s, tp), tp), n)
  {
    var qs, am := Listed(s, tp), SelAliasMap(s, tp);
    VisitEventsOver(s, m, tp);
    if am != [] {
      AppliedDeny(qs, m, am, tp, n);
      DeniesConcat(ProjsEvents(ApplyL(qs, m), am, tp), When(SelConditions(s, tp) != [], Filtered), n);
    }
  }

  lemma {:induction false} VisitDenies(s: Select, m: Subst, o: Subst, tp: TablePolicies, n: string)
    requires o == OnePassMap(s, tp) && EachAgrees(Listed(s, tp), m, o, SelAliasMap(s, tp), tp)
    ensures Denies(VisitEvents(SelApply(s, m), tp), n) <==> ListedHere(s, tp, n)
    ensures Denies(VisitEvents(SelApply(s, o), tp), n) <==> ListedHere(s, tp, n) || LostHere(s, tp, n)
  {
    DeniedOver(s, m, tp, n);
    DeniedOver(s, o, tp, n);
    forall q | q in Listed(s, tp) { WalkedDenies(q, m, o, SelAliasMap(s, tp), tp, n); }
  }

  // ----- walking into settled trees denies nothing more -----

  lemma {:induction false} SettledDenies(s: Select, tp: TablePolicies, n: string)
    requires SettledHere(s, tp)
    ensures !Denies(VisitEvents(s, tp), n)
  {
    VisitEventsSettled(s, tp);
    if SelAliasMap(s, tp) != [] {
      ProjsDeny(s.projs, SelAliasMap(s, tp), tp, n);
      forall i | 0 <= i < |s.projs|
        ensures !Denies(ProjEvents(s.projs[i], SelAliasMap(s, tp), tp), n)
      {
        assert s.projs[i] in s.projs;
        ProjDenies(s.projs[i], SelAliasMap(s, tp), tp, n);
      }
    }
  }

  lemma {:induction false} StandsUndenied(m: Meta, s: Select, tp: TablePolicies)
    requires Settled(s, tp) && TreeStands(m, s, tp)
    ensures TreeStands(m.(denied := []), s, tp)
    decreases s
  {
    forall e | e in VisitEvents(s, tp)
      ensures Stands(m.(denied := []), e)
    {
      assert Stands(m, e);
      if e.Denied? { SettledDenies(s, tp, e.name); }
    }
    forall k | k in SelKids(s) { StandsUndenied(m, k, tp); }
  }

  lemma {:induction false} SettledWalkDenies(m: Meta, r: Select, tp: TablePolicies, n: string)
    requires Settled(r, tp) && TreeStands(m, r, tp)
    ensures !Denies(WalkEvents(r, tp), n)
  {
    StandsUndenied(m, r, tp);
    RewriteAgainStands(m.(denied := []), r, tp);
    assert !Stands(m.(denied := []), Denied(n));
  }

  lemma {:induction false} WalkDeniesNothing(k: Select, tp: TablePolicies, n: string)
    ensures !Denies(WalkEvents(Rewrite(k, tp), tp), n)
  {
    RewriteLeavesStanding(EmptyMeta, k, tp);
    RewriteSettles(k, tp);
    SettledWalkDenies(RecordAll(EmptyMeta, RewriteEvents(k, tp)), Rewrite(k, tp), tp, n);
  }

  // ----- whole trees -----

  /** Somewhere in the tree the name is lost. */
  predicate LostIn(s: Select, tp: TablePolicies, n: string)
    decreases s
  {
    LostHere(s, tp, n) || exists k | k in SelKids(s) :: LostIn(k, tp, n)
  }

  /** Somewhere in the tree a projection that loses no name is suppressed under it. */
  predicate ListedIn(s: Select, tp: TablePolicies, n: string)
    decreases s
  {
    ListedHere(s, tp, n) || exists k | k in SelKids(s) :: ListedIn(k, tp, n)
  }

  lemma {:induction false} NodeDenies(s: Select, tp: TablePolicies, n: string)
    ensures Denies(VisitEvents(Walk(s, tp), tp), n) <==> ListedHere(s, tp, n)
    ensures Denies(VisitEvents(SelApply(s, OnePassMap(s, tp)), tp), n) <==> ListedHere(s, tp, n) || LostHere(s, tp, n)
  {
    WalkAgrees(s, tp);
    VisitDenies(s, WalkMap(s, tp), OnePassMap(s, tp), tp, n);
    WalkUnfolds(s, tp);
  }

  lemma {:induction false} TreeDenies(s: Select, tp: TablePolicies, n: string)
    ensures Denies(RewriteEvents(s, tp), n) <==> ListedIn(s, tp, n)
    ensures Denies(OnePassEvents(s, tp), n) <==> ListedIn(s, tp, n) || LostIn(s, tp, n)
    decreases s
  {
    NodeDenies(s, tp, n);
    ListDenies(s, SelKids(s), tp, n);
    EventsSplit(s, tp, n);
    InUnfolds(s, tp, n);
  }

  lemma {:induction false} EventsSplit(s: Select, tp: TablePolicies, n: string)
    ensures Denies(RewriteEvents(s, tp), n)
            <==> Denies(WalkListEvents(Depth(s), SelKids(s), tp), n) || Denies(VisitEvents(Walk(s, tp), tp), n)
    ensures Denies(OnePassEvents(s, tp), n)
            <==> Denies(OnePassListEvents(s, SelKids(s), tp), n)
                 || Denies(VisitEvents(SelApply(s, OnePassMap(s, tp)), tp), n)
  {
    DeniesConcat(WalkEvents(s, tp), VisitEvents(Walk(s, tp), tp), n);
    DeniesConcat(OnePassListEvents(s, SelKids(s), tp), VisitEvents(SelApply(s, OnePassMap(s, tp)), tp), n);
  }

  lemma {:induction false} InUnfolds(s: Select, tp: TablePolicies, n: string)
    ensures ListedIn(s, tp, n) <==> ListedHere(s, tp, n) || AnyListed(SelKids(s), tp, n)
    ensures LostIn(s, tp, n) <==> LostHere(s, tp, n) || AnyLost(SelKids(s), tp, n)
  {
  }

  predicate AnyListed(ks: seq<Select>, tp: TablePolicies, n: string) {
    exists k | k in ks :: ListedIn(k, tp, n)
  }

  predicate AnyLost(ks: seq<Select>, tp: TablePolicies, n: string) {
    exists k | k in ks :: LostIn(k, tp, n)
  }

  lemma {:induction false} AnyFirst(ks: seq<Select>, tp: TablePolicies, n: string)
    requires ks != []
    ensures AnyListed(ks, tp, n) <==> ListedIn(ks[0], tp, n) || AnyListed(ks[1..], tp, n)
    ensures AnyLost(ks, tp, n) <==> LostIn(ks[0], tp, n) || AnyLost(ks[1..], tp, n)
  {
    assert forall k :: k in ks <==> k == ks[0] || k in ks[1..];
  }

  lemma {:induction false} ListDenies(s: Select, ks: seq<Select>, tp: TablePolicies, n: string)
    requires (forall k | k in ks :: Depth(k) < Depth(s)) && Below(s, ks)
    ensures Denies(WalkListEvents(Depth(s), ks, tp), n) <==> AnyListed(ks, tp, n)
    ensures Denies(OnePassListEvents(s, ks, tp), n) <==> AnyListed(ks, tp, n) || AnyLost(ks, tp, n)
    decreases s, |ks|
  {
    if ks != [] {
      assert ks[0] in ks && forall j | j in ks[1..] :: j in ks;
      TreeDenies(ks[0], tp, n);
      ListDenies(s, ks[1..], tp, n);
      WalkDeniesNothing(ks[0], tp, n);
      AnyFirst(ks, tp, n);
    }
  }

  /**
   The walk and a single pass list the same names as denied exactly when every lost name was listed
   before or is also listed by a projection that loses none; the walk never lists more.
   */
  lemma {:induction false} SameNamesDeniedExactly(m: Meta, s: Select, tp: TablePolicies)
    ensures var walked, once := RecordAll(m, RewriteEvents(s, tp)).denied, RecordAll(m, OnePassEvents(s, tp)).denied;
            && (forall n | n in walked :: n in once)
            && ((forall n | n in once :: n in walked)
                <==> forall n: string :: LostIn(s, tp, n) ==> n in m.denied || ListedIn(s, tp, n))
  {
    var walked, once := RecordAll(m, RewriteEvents(s, tp)).denied, RecordAll(m, OnePassEvents(s, tp)).denied;
    forall n: string
      ensures n in walked <==> n in m.denied || ListedIn(s, tp, n)
      ensures n in once <==> n in m.denied || ListedIn(s, tp, n) || LostIn(s, tp, n)
    {
      RecordedNames(m, RewriteEvents(s, tp), n);
      RecordedNames(m, OnePassEvents(s, tp), n);
      TreeDenies(s, tp, n);
    }
  }
}
