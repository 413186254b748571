/**
 What the nested walk records compared with a single pass.  They record the same but for
 suppressed projections whose only reference the walk doubles: there the walk warns of a
 function over several columns where a single pass does not, and misses the column's name.
 */
module OnePassLog {
  import opened Policies
  import opened SqlSyntax
  import opened Rewriter
  import opened ProjectionInvariant
  import opened RepeatedVisits
  import opened NamesAside
  import opened RepeatedFilters
  import opened LostNames
  import opened RewriteLog

  // ----- the events of a single pass -----

  function OnePassEvents(s: Select, tp: TablePolicies): seq<Event>
    decreases s
  {
    OnePassListEvents(s, SelKids(s), tp) + VisitEvents(SelApply(s, OnePassMap(s, tp)), tp)
  }

  function OnePassListEvents(ghost parent: Select, ks: seq<Select>, tp: TablePolicies): seq<Event>
    requires Below(parent, ks)
    decreases parent, |ks|
  {
    if ks == [] then [] else
      assert ks[0] in ks && forall k | k in ks[1..] :: k in ks;
      OnePassEvents(ks[0], tp) + OnePassListEvents(parent, ks[1..], tp)
  }

  // ----- one visit -----

  /** Suppressed for a denied column that is its only reference, one that the walk doubles. */
  predicate WarnsMore(q: Expr, o: Subst, am: AliasMap, tp: TablePolicies) {
    CountsTwice(q, o, tp) && VerdictOn(Apply(q, o), am, tp).action == Deny
  }

  /** The walk does not record for the projection what a single pass records. */
  predicate Misrecords(q: Expr, o: Subst, am: AliasMap, tp: TablePolicies) {
    WarnsMore(q, o, am, tp) || (LosesName(q, o, tp) && !Keeps(Apply(q, o), am, tp))
  }

  predicate VerdictsAgree(q: Expr, m: Subst, o: Subst, am: AliasMap, tp: TablePolicies) {
    VerdictOn(Apply(q, m), am, tp) == VerdictOn(Apply(q, o), am, tp)
  }

  lemma {:induction false} Applied(q: Expr, m: Subst)
    ensures AliasName(Apply(q, m)) == AliasName(q) && PlainColumn(Inner(Apply(q, m))) == PlainColumn(Inner(q))
  {
    assert Inner(Apply(q, m)) == Apply(Inner(q), m);
  }

  /** Two suppressed projections under one verdict record the same unless one of them alone has a single reference. */
  lemma {:induction false} SuppressedAlike(a: Expr, b: Expr, am: AliasMap, tp: TablePolicies)
    requires AliasName(a) == AliasName(b) && PlainColumn(Inner(a)) == PlainColumn(Inner(b))
    requires VerdictOn(a, am, tp) == VerdictOn(b, am, tp) && VerdictOn(b, am, tp).action in {Deny, Mask}
    requires var refs := Refs(Inner(b));
             Refs(Inner(a)) == refs
             || (|Refs(Inner(a))| >= 2 && (|refs| == 1 && refs[0].name != "" ==>
                                             AliasName(b) != "" && VerdictOn(b, am, tp).action == Mask))
    requires !PlainColumn(Inner(b)) || Refs(Inner(a)) == Refs(Inner(b))
    ensures ProjEvents(a, am, tp) == ProjEvents(b, am, tp)
  {
    SingleName(Refs(Inner(b)), am, tp);
  }

  lemma {:induction false} PlainColumnRefs(e: Expr, m: Subst)
    requires PlainColumn(e)
    ensures Apply(e, m) == e && Kids(e) == []
  {
  }

  lemma {:induction false} ProjEventsAlike(q: Expr, m: Subst, o: Subst, am: AliasMap, tp: TablePolicies)
    requires RefsGrow(m, o, Kids(q), tp) && VerdictsAgree(q, m, o, am, tp) && !Misrecords(q, o, am, tp)
    ensures ProjEvents(Apply(q, m), am, tp) == ProjEvents(Apply(q, o), am, tp)
  {
    var a, b := Apply(q, m), Apply(q, o);
    NumberOfRefs(q, m, o, tp);
    Applied(q, m);
    Applied(q, o);
    if Keeps(b, am, tp) {
      KeptProjEvents(a, am, tp);
      KeptProjEvents(b, am, tp);
    } else {
      if PlainColumn(Inner(q)) { PlainColumnRefs(Inner(q), m); PlainColumnRefs(Inner(q), o); }
      assert Inner(a) == Apply(Inner(q), m) && Inner(b) == Apply(Inner(q), o);
      SuppressedAlike(a, b, am, tp);
    }
  }

  /** A verdict that restricts comes from a reference, and from the only one if there is one. */
  lemma {:induction false} SingleName(refs: seq<Ref>, am: AliasMap, tp: TablePolicies)
    requires Judge(refs, am, tp).action != Allow
    ensures refs != [] && (|refs| == 1 ==> Judge(refs, am, tp).name == refs[0].name)
  {
    if |refs| == 1 {
      JudgeOne(refs, am, tp);
      ResolvedName(refs[0], am, tp);
    }
  }

  // ----- warnings -----

  function WarningsOf(es: seq<Event>): seq<Warning> {
    if es == [] then [] else (if es[0].Warned? then [es[0].warning] else []) + WarningsOf(es[1..])
  }

  lemma {:induction false} WarningsConcat(a: seq<Event>, b: seq<Event>)
    ensures WarningsOf(a + b) == WarningsOf(a) + WarningsOf(b)
  {
    if a == [] {
      assert a + b == b;
    } else {
      assert (a + b)[1..] == a[1..] + b;
      WarningsConcat(a[1..], b);
    }
  }

  lemma {:induction false} RecordedWarnings(m: Meta, es: seq<Event>)
    ensures RecordAll(m, es).warnings == m.warnings + WarningsOf(es)
    decreases |es|
  {
    if es != [] { RecordedWarnings(Record(m, es[0]), es[1..]); }
  }

  lemma {:induction false} NoWarnings(es: seq<Event>)
    requires forall e | e in es :: !e.Warned?
    ensures WarningsOf(es) == []
  {
    if es != [] {
      assert es[0] in es && forall e | e in es[1..] :: e in es;
      NoWarnings(es[1..]);
    }
  }

  /** The same warnings, or more of them. */
  predicate Warns(a: seq<Event>, b: seq<Event>, same: bool) {
    if same then WarningsOf(a) == WarningsOf(b) else |WarningsOf(a)| > |WarningsOf(b)|
  }

  lemma {:induction false} WarnsConcat(a: seq<Event>, b: seq<Event>, p: bool, a': seq<Event>, b': seq<Event>, p': bool)
    requires Warns(a, b, p) && Warns(a', b', p')
    ensures Warns(a + a', b + b', p && p')
  {
    WarningsConcat(a, a');
    WarningsConcat(b, b');
  }

  lemma {:induction false} WarningsWhen(c: bool, e: Event)
    ensures WarningsOf(When(c, e)) == if c && e.Warned? then [e.warning] else []
  {
    assert [e][1..] == [];
  }

  lemma {:induction false} WarningsOfPair(a: seq<Event>, b: seq<Event>, w: seq<Warning>)
    requires WarningsOf(a) == [] && WarningsOf(b) == w
    ensures WarningsOf(a + b) == w
  {
    WarningsConcat(a, b);
  }

  lemma {:induction false} WarningsOfVerdict(inner: Expr, n: nat, v: Verdict, out: string)
    ensures WarningsOf(VerdictEvents(inner, n, v, out)) ==
            if v.action == Deny && n > 1 && v.name != "" then [FunctionLeakage(v.name)]
            else if v.action == Mask && !PlainColumn(inner) then [MaskedLeakage(v.name)] else []
  {
    var key, named, leak := FirstNonEmpty(out, v.name), When(out != "", Denied(out)), Warned(FunctionLeakage(v.name));
    WarningsWhen(out != "", Denied(out));
    match v.action
    case Allow =>
    case Deny =>
      WarningsWhen(n > 1 && v.name != "", leak);
      WarningsOfPair(named, When(n > 1 && v.name != "", leak), WarningsOf(When(n > 1 && v.name != "", leak)));
    case Mask =>
      WarningsWhen(key != "", Masked(key, v.pii));
      WarningsWhen(true, Warned(MaskedLeakage(v.name)));
      WarningsOfPair(named, [Warned(MaskedLeakage(v.name))], [MaskedLeakage(v.name)]);
    case Tokenize => WarningsWhen(key != "", Tokenized(key, FirstNonEmpty(v.name, key)));
  }

  /** The same warnings under the same verdict, unless the one has a single reference and the other more. */
  lemma {:induction false} VerdictWarns(a: Expr, b: Expr, am: AliasMap, tp: TablePolicies)
    requires PlainColumn(Inner(a)) == PlainColumn(Inner(b)) && VerdictOn(a, am, tp) == VerdictOn(b, am, tp)
    requires Refs(Inner(a)) == Refs(Inner(b)) || |Refs(Inner(a))| >= 2
    ensures Warns(ProjEvents(a, am, tp), ProjEvents(b, am, tp),
                  !(|Refs(Inner(a))| >= 2 && |Refs(Inner(b))| == 1 && Refs(Inner(b))[0].name != ""
                    && VerdictOn(b, am, tp).action == Deny))
  {
    var v := VerdictOn(b, am, tp);
    WarningsOfVerdict(Inner(a), |Refs(Inner(a))|, v, OutName(a));
    WarningsOfVerdict(Inner(b), |Refs(Inner(b))|, v, OutName(b));
    if v.action == Deny { SingleName(Refs(Inner(b)), am, tp); }
  }

  lemma {:induction false} ProjWarns(q: Expr, m: Subst, o: Subst, am: AliasMap, tp: TablePolicies)
    requires RefsGrow(m, o, Kids(q), tp) && VerdictsAgree(q, m, o, am, tp)
    ensures Warns(ProjEvents(Apply(q, m), am, tp), ProjEvents(Apply(q, o), am, tp), !WarnsMore(q, o, am, tp))
  {
    NumberOfRefs(q, m, o, tp);
    Applied(q, m);
    Applied(q, o);
    VerdictWarns(Apply(q, m), Apply(q, o), am, tp);
  }

  // ----- all projections of a SELECT -----

  predicate EachAgrees(qs: seq<Expr>, m: Subst, o: Subst, am: AliasMap, tp: TablePolicies) {
    forall q | q in qs :: RefsGrow(m, o, Kids(q), tp) && VerdictsAgree(q, m, o, am, tp)
  }

  lemma {:induction false} ListsAlike(ps: seq<Expr>, qs: seq<Expr>, am: AliasMap, tp: TablePolicies)
    requires |ps| == |qs| && forall i | 0 <= i < |ps| :: ProjEvents(ps[i], am, tp) == ProjEvents(qs[i], am, tp)
    ensures ProjsEvents(ps, am, tp) == ProjsEvents(qs, am, tp)
  {
    if ps != [] { ListsAlike(ps[1..], qs[1..], am, tp); }
  }

  lemma {:induction false} ProjsEventsAlike(qs: seq<Expr>, m: Subst, o: Subst, am: AliasMap, tp: TablePolicies)
    requires EachAgrees(qs, m, o, am, tp) && forall q | q in qs :: !Misrecords(q, o, am, tp)
    ensures ProjsEvents(ApplyL(qs, m), am, tp) == ProjsEvents(ApplyL(qs, o), am, tp)
  {
    forall i | 0 <= i < |qs|
      ensures ProjEvents(ApplyL(qs, m)[i], am, tp) == ProjEvents(ApplyL(qs, o)[i], am, tp)
    {
      assert qs[i] in qs;
      ProjEventsAlike(qs[i], m, o, am, tp);
    }
    ListsAlike(ApplyL(qs, m), ApplyL(qs, o), am, tp);
  }

  predicate NoneWarnsMore(qs: seq<Expr>, o: Subst, am: AliasMap, tp: TablePolicies) {
    forall q | q in qs :: !WarnsMore(q, o, am, tp)
  }

  predicate All(flags: seq<bool>) {
    forall i | 0 <= i < |flags| :: flags[i]
  }

  lemma {:induction false} ListsWarn(ps: seq<Expr>, qs: seq<Expr>, flags: seq<bool>, am: AliasMap, tp: TablePolicies)
    requires |ps| == |qs| == |flags|
    requires forall i | 0 <= i < |ps| :: Warns(ProjEvents(ps[i], am, tp), ProjEvents(qs[i], am, tp), flags[i])
    ensures Warns(ProjsEvents(ps, am, tp), ProjsEvents(qs, am, tp), All(flags))
  {
    if ps != [] {
      ListsWarn(ps[1..], qs[1..], flags[1..], am, tp);
      WarnsConcat(ProjEvents(ps[0], am, tp), ProjEvents(qs[0], am, tp), flags[0],
                  ProjsEvents(ps[1..], am, tp), ProjsEvents(qs[1..], am, tp), All(flags[1..]));
      assert flags == [flags[0]] + flags[1..];
      assert All(flags) <==> flags[0] && All(flags[1..]);
    }
  }

  function AsBefore(qs: seq<Expr>, o: Subst, am: AliasMap, tp: TablePolicies): seq<bool> {
    seq(|qs|, i requires 0 <= i < |qs| => !WarnsMore(qs[i], o, am, tp))
  }

  lemma {:induction false} AllAsBefore(qs: seq<Expr>, o: Subst, am: AliasMap, tp: TablePolicies)
    ensures All(AsBefore(qs, o, am, tp)) <==> NoneWarnsMore(qs, o, am, tp)
  {
    if All(AsBefore(qs, o, am, tp)) {
      forall q | q in qs
        ensures !WarnsMore(q, o, am, tp)
      {
        var i :| 0 <= i < |qs| && qs[i] == q;
        assert AsBefore(qs, o, am, tp)[i];
      }
    }
  }

  lemma {:induction false} ProjWarnsAt(qs: seq<Expr>, i: nat, m: Subst, o: Subst, am: AliasMap, tp: TablePolicies)
    requires i < |qs| && EachAgrees(qs, m, o, am, tp)
    ensures Warns(ProjEvents(ApplyL(qs, m)[i], am, tp), ProjEvents(ApplyL(qs, o)[i], am, tp),
                  AsBefore(qs, o, am, tp)[i])
  {
    assert qs[i] in qs;
    ProjWarns(qs[i], m, o, am, tp);
  }

  lemma {:induction false} ProjsWarn(qs: seq<Expr>, m: Subst, o: Subst, am: AliasMap, tp: TablePolicies)
    requires EachAgrees(qs, m, o, am, tp)
    ensures Warns(ProjsEvents(ApplyL(qs, m), am, tp), ProjsEvents(ApplyL(qs, o), am, tp), NoneWarnsMore(qs, o, am, tp))
  {
    forall i | 0 <= i < |qs|
      ensures Warns(ProjEvents(ApplyL(qs, m)[i], am, tp), ProjEvents(ApplyL(qs, o)[i], am, tp),
                    AsBefore(qs, o, am, tp)[i])
    {
      ProjWarnsAt(qs, i, m, o, am, tp);
    }
    ListsWarn(ApplyL(qs, m), ApplyL(qs, o), AsBefore(qs, o, am, tp), am, tp);
    AllAsBefore(qs, o, am, tp);
  }

  lemma {:induction false} ListedAgree(s: Select, m: Subst, o: Subst, qs: seq<Expr>, tp: TablePolicies)
    requires qs == Listed(s, tp) && PlainAlike(m, o, SelKids(s), tp) && RefsGrow(m, o, SelKids(s), tp)
    ensures EachAgrees(qs, m, o, SelAliasMap(s, tp), tp)
  {
    forall q | q in qs
      ensures RefsGrow(m, o, Kids(q), tp) && VerdictsAgree(q, m, o, SelAliasMap(s, tp), tp)
    {
      forall k | k in Kids(q) ensures k in SelKids(s) { ListedKids(s, qs, tp, q, k); }
      VerdictsAlike(s, q, m, o, tp);
    }
  }

  lemma {:induction false} VisitEventsOver(s: Select, m: Subst, tp: TablePolicies)
    ensures VisitEvents(SelApply(s, m), tp) ==
            if SelAliasMap(s, tp) == [] then []
            else ProjsEvents(ApplyL(Listed(s, tp), m), SelAliasMap(s, tp), tp)
                 + When(SelConditions(s, tp) != [], Filtered)
  {
    ConditionsApply(s, m, tp);
    if SelAliasMap(s, tp) != [] { ExpandStarsApply(s.projs, m, SelAliasMap(s, tp), tp); }
  }

  // ----- whole trees -----

  /** At no SELECT that reads a table with a policy, however nested, does a projection misrecord. */
  predicate RecordsKept(s: Select, tp: TablePolicies)
    decreases s
  {
    && (SelAliasMap(s, tp) != [] ==>
          forall q | q in Listed(s, tp) :: !Misrecords(q, OnePassMap(s, tp), SelAliasMap(s, tp), tp))
    && forall k | k in SelKids(s) :: RecordsKept(k, tp)
  }

  predicate WarningsKeptHere(s: Select, tp: TablePolicies) {
    SelAliasMap(s, tp) != [] ==> NoneWarnsMore(Listed(s, tp), OnePassMap(s, tp), SelAliasMap(s, tp), tp)
  }

  /** At no such SELECT does a projection warn more. */
  predicate WarningsKept(s: Select, tp: TablePolicies)
    decreases s
  {
    WarningsKeptHere(s, tp) && forall k | k in SelKids(s) :: WarningsKept(k, tp)
  }

  lemma {:induction false} WalkAgrees(s: Select, tp: TablePolicies)
    ensures EachAgrees(Listed(s, tp), WalkMap(s, tp), OnePassMap(s, tp), SelAliasMap(s, tp), tp)
  {
    SameStay(s, tp);
    WalkGrowsRefs(s, tp);
    ListedAgree(s, WalkMap(s, tp), OnePassMap(s, tp), Listed(s, tp), tp);
  }

  lemma {:induction false} VisitRecordsSame(s: Select, tp: TablePolicies)
    requires RecordsKept(s, tp)
    ensures VisitEvents(Walk(s, tp), tp) == VisitEvents(SelApply(s, OnePassMap(s, tp)), tp)
  {
    WalkUnfolds(s, tp);
    VisitEventsOver(s, WalkMap(s, tp), tp);
    VisitEventsOver(s, OnePassMap(s, tp), tp);
    if SelAliasMap(s, tp) != [] {
      WalkAgrees(s, tp);
      ProjsEventsAlike(Listed(s, tp), WalkMap(s, tp), OnePassMap(s, tp), SelAliasMap(s, tp), tp);
    }
  }

  /** Where no projection misrecords, the metadata is that of a single bottom-up pass. */
  lemma {:induction false} RewriteRecordsOnePass(m: Meta, s: Select, tp: TablePolicies)
    requires RecordsKept(s, tp)
    ensures RecordAll(m, RewriteEvents(s, tp)) == RecordAll(m, OnePassEvents(s, tp))
    decreases s
  {
    RecordConcat(m, WalkEvents(s, tp), VisitEvents(Walk(s, tp), tp));
    RecordConcat(m, OnePassListEvents(s, SelKids(s), tp), VisitEvents(SelApply(s, OnePassMap(s, tp)), tp));
    VisitRecordsSame(s, tp);
    WalkListRecordsOnePass(m, s, SelKids(s), tp);
  }

  lemma {:induction false} WalkListRecordsOnePass(m: Meta, s: Select, ks: seq<Select>, tp: TablePolicies)
    requires forall k | k in ks :: Depth(k) < Depth(s) && RecordsKept(k, tp)
    requires Below(s, ks)
    ensures RecordAll(m, WalkListEvents(Depth(s), ks, tp)) == RecordAll(m, OnePassListEvents(s, ks, tp))
    decreases s, |ks|
  {
    if ks != [] {
      var k := ks[0];
      assert k in ks && forall j | j in ks[1..] :: j in ks;
      RecordConcat(m, RewriteEvents(k, tp) + WalkEvents(Rewrite(k, tp), tp), WalkListEvents(Depth(s), ks[1..], tp));
      RecordConcat(m, OnePassEvents(k, tp), OnePassListEvents(s, ks[1..], tp));
      RewriteLeavesStanding(m, k, tp);
      WalkRecordsNothing(m, k, tp);
      RewriteRecordsOnePass(m, k, tp);
      WalkListRecordsOnePass(RecordAll(m, RewriteEvents(k, tp)), s, ks[1..], tp);
    }
  }

  // ----- warnings, exactly -----

  lemma {:induction false} VisitWarns(s: Select, tp: TablePolicies)
    ensures Warns(VisitEvents(Walk(s, tp), tp), VisitEvents(SelApply(s, OnePassMap(s, tp)), tp),
                  WarningsKeptHere(s, tp))
  {
    var am, m, o := SelAliasMap(s, tp), WalkMap(s, tp), OnePassMap(s, tp);
    WalkUnfolds(s, tp);
    VisitEventsOver(s, m, tp);
    VisitEventsOver(s, o, tp);
    if am != [] {
      var last := When(SelConditions(s, tp) != [], Filtered);
      WalkAgrees(s, tp);
      ProjsWarn(Listed(s, tp), m, o, am, tp);
      WarnsConcat(ProjsEvents(ApplyL(Listed(s, tp), m), am, tp), ProjsEvents(ApplyL(Listed(s, tp), o), am, tp),
                  WarningsKeptHere(s, tp), last, last, true);
    }
  }

  lemma {:induction false} StandingWarnsNothing(m: Meta, es: seq<Event>)
    requires AllStand(m, es)
    ensures WarningsOf(es) == []
  {
    forall e | e in es
      ensures !e.Warned?
    {
      assert Stands(m, e);
      assert e.Warned? ==> |Record(m, e).warnings| == |m.warnings| + 1;
    }
    NoWarnings(es);
  }

  lemma {:induction false} SettledWarnsNothing(m: Meta, r: Select, tp: TablePolicies)
    requires Settled(r, tp) && TreeStands(m, r, tp)
    ensures WarningsOf(WalkEvents(r, tp)) == []
  {
    RewriteAgainStands(m, r, tp);
    StandingWarnsNothing(m, WalkEvents(r, tp));
  }

  /** Walking into what a rewriting made warns of nothing. */
  lemma {:induction false} WalkWarnsNothing(k: Select, tp: TablePolicies)
    ensures WarningsOf(WalkEvents(Rewrite(k, tp), tp)) == []
  {
    RewriteLeavesStanding(EmptyMeta, k, tp);
    RewriteSettles(k, tp);
    SettledWarnsNothing(RecordAll(EmptyMeta, RewriteEvents(k, tp)), Rewrite(k, tp), tp);
  }

  lemma {:induction false} WarnsAfterWalk(first: seq<Event>, walk: seq<Event>, rest: seq<Event>, one: seq<Event>,
                                          ones: seq<Event>, p: bool, below: bool)
    requires WarningsOf(walk) == [] && Warns(first, one, p) && Warns(rest, ones, below)
    ensures Warns(first + walk + rest, one + ones, p && below)
  {
    WarningsConcat(first, walk);
    WarnsConcat(first + walk, one, p, rest, ones, below);
  }

  lemma {:induction false} TreeWarns(s: Select, tp: TablePolicies)
    ensures Warns(RewriteEvents(s, tp), OnePassEvents(s, tp), WarningsKept(s, tp))
    decreases s
  {
    var below := AllKeep(SelKids(s), tp);
    ListWarns(s, SelKids(s), tp);
    VisitWarns(s, tp);
    WarnsConcat(WalkEvents(s, tp), OnePassListEvents(s, SelKids(s), tp), below,
                VisitEvents(Walk(s, tp), tp), VisitEvents(SelApply(s, OnePassMap(s, tp)), tp), WarningsKeptHere(s, tp));
  }

  predicate AllKeep(ks: seq<Select>, tp: TablePolicies) {
    forall k | k in ks :: WarningsKept(k, tp)
  }

  lemma {:induction false} AllKeepFirst(ks: seq<Select>, tp: TablePolicies)
    requires ks != []
    ensures AllKeep(ks, tp) <==> WarningsKept(ks[0], tp) && AllKeep(ks[1..], tp)
  {
    assert forall j :: j in ks <==> j == ks[0] || j in ks[1..];
  }

  lemma {:induction false} ListWarns(s: Select, ks: seq<Select>, tp: TablePolicies)
    requires (forall k | k in ks :: Depth(k) < Depth(s)) && Below(s, ks)
    ensures Warns(WalkListEvents(Depth(s), ks, tp), OnePassListEvents(s, ks, tp), AllKeep(ks, tp))
    decreases s, |ks|
  {
    if ks != [] {
      assert ks[0] in ks && forall j | j in ks[1..] :: j in ks;
      TreeWarns(ks[0], tp);
      ListWarns(s, ks[1..], tp);
      FirstTreeWarns(s, Depth(s), ks, tp);
    }
  }

  lemma {:induction false} FirstTreeWarns(s: Select, d: nat, ks: seq<Select>, tp: TablePolicies)
    requires ks != [] && (forall j | j in ks :: Depth(j) < d) && Below(s, ks)
    requires (forall j | j in ks[1..] :: Depth(j) < d) && Below(s, ks[1..])
    requires Warns(RewriteEvents(ks[0], tp), OnePassEvents(ks[0], tp), WarningsKept(ks[0], tp))
    requires Warns(WalkListEvents(d, ks[1..], tp), OnePassListEvents(s, ks[1..], tp), AllKeep(ks[1..], tp))
    ensures Warns(WalkListEvents(d, ks, tp), OnePassListEvents(s, ks, tp), AllKeep(ks, tp))
  {
    var k, rest := ks[0], ks[1..];
    WalkWarnsNothing(k, tp);
    WarnsAfterWalk(RewriteEvents(k, tp), WalkEvents(Rewrite(k, tp), tp), WalkListEvents(d, rest, tp),
                   OnePassEvents(k, tp), OnePassListEvents(s, rest, tp), WarningsKept(k, tp), AllKeep(rest, tp));
    AllKeepFirst(ks, tp);
  }

  /** The walk warns of what a single pass warns of exactly when no projection warns more; otherwise of more. */
  lemma {:induction false} RewriteWarnsExactly(m: Meta, s: Select, tp: TablePolicies)
    ensures var walked := RecordAll(m, RewriteEvents(s, tp)).warnings;
            var once := RecordAll(m, OnePassEvents(s, tp)).warnings;
            (walked == once <==> WarningsKept(s, tp)) && |walked| >= |once|
  {
    TreeWarns(s, tp);
    RecordedWarnings(m, RewriteEvents(s, tp));
    RecordedWarnings(m, OnePassEvents(s, tp));
  }
}
