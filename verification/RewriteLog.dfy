/**
 What the rewriter records about a query, and why visiting a SELECT again records nothing new.
 Each visit is described by the events it records; the metadata is the events in order,
 most of them recorded only once.
 */
module RewriteLog {
  import opened Wrappers
  import opened Policies
  import opened SqlSyntax
  import opened Rewriter
  import opened ProjectionInvariant
  import opened RepeatedVisits

  datatype Warning =
    | FunctionLeakage(column: string)         // an expression over several columns was suppressed
    | MaskedLeakage(column: string)           // an expression around a masked column was suppressed

  datatype Event =
    | Denied(name: string)
    | Masked(name: string, pii: Option<string>)
    | Tokenized(name: string, original: string)
    | Filtered
    | Warned(warning: Warning)

  datatype Meta = Meta(
    denied: seq<string>,
    masked: map<string, Option<string>>,
    tokenized: map<string, string>,
    filtered: bool,
    warnings: seq<Warning>)

  const EmptyMeta := Meta([], map[], map[], false, [])

  function Record(m: Meta, e: Event): Meta {
    match e
    case Denied(n) => if n in m.denied then m else m.(denied := m.denied + [n])
    case Masked(n, p) => if n in m.masked then m else m.(masked := m.masked[n := p])
    case Tokenized(n, o) => if n in m.tokenized then m else m.(tokenized := m.tokenized[n := o])
    case Filtered => m.(filtered := true)
    case Warned(w) => m.(warnings := m.warnings + [w])
  }

  function RecordAll(m: Meta, es: seq<Event>): Meta
    decreases |es|
  {
    if es == [] then m else RecordAll(Record(m, es[0]), es[1..])
  }

  // ----- the events of one visit -----

  function When(c: bool, e: Event): seq<Event> {
    if c then [e] else []
  }

  function FirstNonEmpty(a: string, b: string): string {
    if a != "" then a else b
  }

  function ProjEvents(p: Expr, am: AliasMap, tp: TablePolicies): seq<Event> {
    var refs := Refs(Inner(p));
    VerdictEvents(Inner(p), |refs|, Judge(refs, am, tp), OutName(p))
  }

  /** What acting on a verdict records, for an expression over `n` columns that would keep its place as `out`. */
  function VerdictEvents(inner: Expr, n: nat, v: Verdict, out: string): seq<Event> {
    var key := FirstNonEmpty(out, v.name);
    match v.action
    case Allow => []
    case Deny => When(out != "", Denied(out)) + When(n > 1 && v.name != "", Warned(FunctionLeakage(v.name)))
    case Mask =>
      if PlainColumn(inner) then When(key != "", Masked(key, v.pii))
      else When(out != "", Denied(out)) + [Warned(MaskedLeakage(v.name))]
    case Tokenize => When(key != "", Tokenized(key, FirstNonEmpty(v.name, key)))
  }

  function ProjsEvents(ps: seq<Expr>, am: AliasMap, tp: TablePolicies): seq<Event> {
    if ps == [] then [] else ProjEvents(ps[0], am, tp) + ProjsEvents(ps[1..], am, tp)
  }

  function VisitEvents(s: Select, tp: TablePolicies): seq<Event> {
    var am := SelAliasMap(s, tp);
    if am == [] then []
    else ProjsEvents(ExpandStars(s.projs, am, tp), am, tp) + When(SelConditions(s, tp) != [], Filtered)
  }

  // ----- the events of the nested walk -----

  function RewriteEvents(s: Select, tp: TablePolicies): seq<Event>
    decreases Depth(s), 1, 0
  {
    WalkEvents(s, tp) + VisitEvents(Walk(s, tp), tp)
  }

  function WalkEvents(s: Select, tp: TablePolicies): seq<Event>
    decreases Depth(s), 0, |SelKids(s)| + 1
  {
    WalkListEvents(Depth(s), SelKids(s), tp)
  }

  function WalkListEvents(ghost d: nat, ks: seq<Select>, tp: TablePolicies): seq<Event>
    requires forall k | k in ks :: Depth(k) < d
    decreases d, 0, |ks|
  {
    if ks == [] then [] else
      assert ks[0] in ks;
      RewriteEvents(ks[0], tp) + WalkEvents(Rewrite(ks[0], tp), tp) + WalkListEvents(d, ks[1..], tp)
  }

  // ----- recording -----

  lemma {:induction false} RecordConcat(m: Meta, a: seq<Event>, b: seq<Event>)
    ensures RecordAll(m, a + b) == RecordAll(RecordAll(m, a), b)
    decreases |a|
  {
    if a == [] {
      assert a + b == b;
    } else {
      assert (a + b)[1..] == a[1..] + b;
      RecordConcat(Record(m, a[0]), a[1..], b);
    }
  }

  /** Recording the event again changes nothing. */
  predicate Stands(m: Meta, e: Event) {
    Record(m, e) == m
  }

  predicate AllStand(m: Meta, es: seq<Event>) {
    forall e | e in es :: Stands(m, e)
  }

  lemma {:induction false} StandsAfter(m: Meta, e: Event, es: seq<Event>)
    requires Stands(m, e)
    ensures Stands(RecordAll(m, es), e)
    decreases |es|
  {
    if es != [] { StandsAfter(Record(m, es[0]), e, es[1..]); }
  }

  lemma {:induction false} RecordStanding(m: Meta, es: seq<Event>)
    requires AllStand(m, es)
    ensures RecordAll(m, es) == m
    decreases |es|
  {
    if es != [] {
      assert es[0] in es && forall e | e in es[1..] :: e in es;
      RecordStanding(m, es[1..]);
    }
  }

  /** Every event but a warning stands once recorded. */
  lemma {:induction false} RecordedStands(m: Meta, es: seq<Event>, e: Event)
    requires e in es && !e.Warned?
    ensures Stands(RecordAll(m, es), e)
    decreases |es|
  {
    if es[0] == e {
      StandsAfter(Record(m, e), e, es[1..]);
    } else {
      RecordedStands(Record(m, es[0]), es[1..], e);
    }
  }

  // ----- the events of a settled SELECT do not depend on how often it was visited -----

  lemma {:induction false} RestrictingName(am: AliasMap, tp: TablePolicies, name: string)
    ensures FirstRestricting(am, tp, name).action != Allow ==> FirstRestricting(am, tp, name).name == name
  {
    if am != [] { RestrictingName(am[1..], tp, name); }
  }

  lemma {:induction false} ResolvedName(r: Ref, am: AliasMap, tp: TablePolicies)
    ensures Resolve(r, am, tp).action != Allow ==> Resolve(r, am, tp).name == r.name
  {
    RestrictingName(am, tp, r.name);
    if Find(am, r.table).Some? { RestrictingName([Entry(r.table, Find(am, r.table).value)], tp, r.name); }
  }

  lemma {:induction false} JudgeOne(refs: seq<Ref>, am: AliasMap, tp: TablePolicies)
    requires |refs| == 1
    ensures Judge(refs, am, tp) == Resolve(refs[0], am, tp)
  {
    assert refs[1..] == [];
    assert Judge(refs[1..], am, tp) == NoVerdict;
  }

  /** The events of a projection that stays, from its alias and its verdict alone. */
  function KeptEvents(alias: string, v: Verdict): seq<Event> {
    var key := FirstNonEmpty(alias, v.name);
    match v.action
    case Mask => When(key != "", Masked(key, v.pii))
    case Tokenize => When(key != "", Tokenized(key, FirstNonEmpty(v.name, key)))
    case _ => []
  }

  lemma {:induction false} KeptProjEvents(p: Expr, am: AliasMap, tp: TablePolicies)
    requires Keeps(p, am, tp)
    ensures ProjEvents(p, am, tp) == KeptEvents(AliasName(p), Judge(Refs(Inner(p)), am, tp))
  {
    var refs := Refs(Inner(p));
    if |refs| == 1 {
      JudgeOne(refs, am, tp);
      ResolvedName(refs[0], am, tp);
    }
  }

  lemma {:induction false} ProjEventsApply(p: Expr, m: Subst, am: AliasMap, tp: TablePolicies)
    requires forall k | k in Kids(p) :: Judge(SelRefs(Get(m, k)), am, tp) == Judge(SelRefs(k), am, tp)
    requires Keeps(p, am, tp)
    ensures ProjEvents(Apply(p, m), am, tp) == ProjEvents(p, am, tp)
  {
    KeepsApply(p, m, am, tp);
    KeptProjEvents(p, am, tp);
    KeptProjEvents(Apply(p, m), am, tp);
    assert Inner(Apply(p, m)) == Apply(Inner(p), m) && AliasName(Apply(p, m)) == AliasName(p);
    JudgeApply(Inner(p), m, am, tp);
  }

  lemma {:induction false} ProjsEventsApply(ps: seq<Expr>, m: Subst, am: AliasMap, tp: TablePolicies)
    requires forall k | k in KidsL(ps) :: Judge(SelRefs(Get(m, k)), am, tp) == Judge(SelRefs(k), am, tp)
    requires forall p | p in ps :: Keeps(p, am, tp)
    ensures ProjsEvents(ApplyL(ps, m), am, tp) == ProjsEvents(ps, am, tp)
  {
    if ps != [] {
      assert ps[0] in ps && ApplyL(ps, m)[1..] == ApplyL(ps[1..], m);
      ProjEventsApply(ps[0], m, am, tp);
      ProjsEventsApply(ps[1..], m, am, tp);
    }
  }

  lemma {:induction false} VisitEventsSettled(s: Select, tp: TablePolicies)
    requires SettledHere(s, tp)
    ensures var am := SelAliasMap(s, tp);
            VisitEvents(s, tp) == if am == [] then []
              else ProjsEvents(s.projs, am, tp) + When(SelConditions(s, tp) != [], Filtered)
  {
    var am := SelAliasMap(s, tp);
    if am != [] { ExpandStarsSettled(s.projs, am, tp); }
  }

  lemma {:induction false} VisitEventsApply(s: Select, m: Subst, tp: TablePolicies)
    requires SettledHere(s, tp) && forall k | k in SelKids(s) :: SameJudge(Get(m, k), k, tp)
    ensures VisitEvents(SelApply(s, m), tp) == VisitEvents(s, tp)
  {
    var am := SelAliasMap(s, tp);
    SettledHereApply(s, m, tp);
    ConditionsApply(s, m, tp);
    VisitEventsSettled(s, tp);
    VisitEventsSettled(SelApply(s, m), tp);
    if am != [] { ProjsEventsApply(s.projs, m, am, tp); }
  }

  /** A visited SELECT would record, if visited again, only events its visit recorded, and no warning. */
  lemma {:induction false} VisitedEvents(s: Select, tp: TablePolicies)
    ensures forall e | e in VisitEvents(Visit(s, tp), tp) :: e in VisitEvents(s, tp) && !e.Warned?
  {
    var am, t := SelAliasMap(s, tp), Visit(s, tp);
    VisitSettlesHere(s, tp);
    VisitEventsSettled(t, tp);
    if am != [] { KeptAreRecorded(ExpandStars(s.projs, am, tp), am, tp); }
  }

  lemma {:induction false} KeptAreRecorded(qs: seq<Expr>, am: AliasMap, tp: TablePolicies)
    ensures forall e | e in ProjsEvents(RewriteProjs(qs, am, tp), am, tp) :: e in ProjsEvents(qs, am, tp) && !e.Warned?
  {
    if qs != [] {
      var q := qs[0];
      assert RewriteProjs(qs, am, tp)[1..] == RewriteProjs(qs[1..], am, tp);
      KeptAreRecorded(qs[1..], am, tp);
      if Keeps(q, am, tp) {
        KeptProjEvents(q, am, tp);
      } else {
        assert Refs(Inner(Nulled(OutName(q)))) == [];
        assert ProjEvents(Nulled(OutName(q)), am, tp) == [];
      }
    }
  }

  // ----- trees all of whose events stand -----

  predicate TreeStands(m: Meta, s: Select, tp: TablePolicies)
    decreases s
  {
    AllStand(m, VisitEvents(s, tp)) && forall k | k in SelKids(s) :: TreeStands(m, k, tp)
  }

  lemma {:induction false} AllStandAfter(m: Meta, es: seq<Event>, more: seq<Event>)
    requires AllStand(m, es)
    ensures AllStand(RecordAll(m, more), es)
  {
    forall e | e in es { StandsAfter(m, e, more); }
  }

  lemma {:induction false} TreeStandsAfter(m: Meta, s: Select, tp: TablePolicies, more: seq<Event>)
    requires TreeStands(m, s, tp)
    ensures TreeStands(RecordAll(m, more), s, tp)
    decreases s
  {
    AllStandAfter(m, VisitEvents(s, tp), more);
    forall k | k in SelKids(s) { TreeStandsAfter(m, k, tp, more); }
  }

  lemma {:induction false} WalkEventsSame(s: Select, tp: TablePolicies)
    requires Settled(s, tp)
    ensures VisitEvents(Walk(s, tp), tp) == VisitEvents(s, tp)
  {
    WalkUnfolds(s, tp);
    forall k | k in SelKids(s)
      ensures SameJudge(Get(WalkMap(s, tp), k), k, tp)
    {
      WalkedSameJudge(k, tp);
    }
    VisitEventsApply(s, WalkMap(s, tp), tp);
  }

  lemma {:induction false} WalkedSameJudge(k: Select, tp: TablePolicies)
    requires Settled(k, tp)
    ensures SameJudge(Walk(Rewrite(k, tp), tp), k, tp)
  {
    RewriteAgain(k, tp);
    WalkKeepsSettled(Rewrite(k, tp), tp);
  }

  lemma {:induction false} RewriteEventsSame(s: Select, tp: TablePolicies)
    requires Settled(s, tp)
    ensures VisitEvents(Rewrite(s, tp), tp) == VisitEvents(s, tp)
  {
    var w := Walk(s, tp);
    WalkEventsSame(s, tp);
    WalkKeepsSettled(s, tp);
    VisitSettlesHere(w, tp);
    VisitSettledAgain(w, tp);
    VisitEventsSettled(w, tp);
    VisitEventsSettled(Visit(w, tp), tp);
  }

  lemma {:induction false} TreeStandsWalk(m: Meta, s: Select, tp: TablePolicies)
    requires Settled(s, tp) && TreeStands(m, s, tp)
    ensures TreeStands(m, Walk(s, tp), tp)
    decreases Depth(s), 0
  {
    WalkEventsSame(s, tp);
    forall t | t in SelKids(Walk(s, tp))
      ensures TreeStands(m, t, tp)
    {
      var k := WalkedKid(s, tp, t);
      TreeStandsRewrite(m, k, tp);
      RewriteSettles(k, tp);
      TreeStandsWalk(m, Rewrite(k, tp), tp);
    }
  }

  lemma {:induction false} TreeStandsRewrite(m: Meta, s: Select, tp: TablePolicies)
    requires Settled(s, tp) && TreeStands(m, s, tp)
    ensures TreeStands(m, Rewrite(s, tp), tp)
    decreases Depth(s), 1
  {
    RewriteEventsSame(s, tp);
    TreeStandsWalk(m, s, tp);
    VisitKids(Walk(s, tp), tp);
  }

  // ----- rewriting a settled tree again records nothing -----

  lemma {:induction false} RewriteAgainStands(m: Meta, s: Select, tp: TablePolicies)
    requires Settled(s, tp) && TreeStands(m, s, tp)
    ensures AllStand(m, RewriteEvents(s, tp)) && AllStand(m, WalkEvents(s, tp))
    decreases Depth(s), 0, |SelKids(s)| + 1
  {
    WalkListStands(m, s, SelKids(s), tp);
    WalkEventsSame(s, tp);
  }

  lemma {:induction false} WalkListStands(m: Meta, s: Select, ks: seq<Select>, tp: TablePolicies)
    requires forall k | k in ks :: Depth(k) < Depth(s) && Settled(k, tp) && TreeStands(m, k, tp)
    ensures AllStand(m, WalkListEvents(Depth(s), ks, tp))
    decreases Depth(s), 0, |ks|
  {
    if ks != [] {
      var k := ks[0];
      assert k in ks && forall j | j in ks[1..] :: j in ks;
      RewriteAgainStands(m, k, tp);
      RewriteSettles(k, tp);
      TreeStandsRewrite(m, k, tp);
      RewriteAgainStands(m, Rewrite(k, tp), tp);
      WalkListStands(m, s, ks[1..], tp);
    }
  }

  // ----- after a rewriting, everything it recorded stands -----

  lemma {:induction false} RewriteLeavesStanding(m: Meta, s: Select, tp: TablePolicies)
    ensures TreeStands(RecordAll(m, RewriteEvents(s, tp)), Rewrite(s, tp), tp)
    decreases Depth(s), 0, |SelKids(s)| + 1
  {
    var w := Walk(s, tp);
    var es := VisitEvents(w, tp);
    var m1 := RecordAll(m, WalkEvents(s, tp));
    RecordConcat(m, WalkEvents(s, tp), es);
    WalkListLeavesStanding(m, s, SelKids(s), tp);
    forall k | k in SelKids(Visit(w, tp))
      ensures TreeStands(RecordAll(m1, es), k, tp)
    {
      VisitKids(w, tp);
      var j := WalkedKid(s, tp, k);
      TreeStandsAfter(m1, k, tp, es);
    }
    VisitedEvents(w, tp);
    forall e | e in VisitEvents(Visit(w, tp), tp)
      ensures Stands(RecordAll(m1, es), e)
    {
      RecordedStands(m1, es, e);
    }
  }

  lemma {:induction false} WalkListLeavesStanding(m: Meta, s: Select, ks: seq<Select>, tp: TablePolicies)
    requires forall k | k in ks :: Depth(k) < Depth(s)
    ensures forall k | k in ks ::
            TreeStands(RecordAll(m, WalkListEvents(Depth(s), ks, tp)), Walk(Rewrite(k, tp), tp), tp)
    decreases Depth(s), 0, |ks|
  {
    if ks != [] {
      var k := ks[0];
      var rest := WalkListEvents(Depth(s), ks[1..], tp);
      assert k in ks && forall j | j in ks[1..] :: j in ks;
      var m1 := RecordAll(m, RewriteEvents(k, tp) + WalkEvents(Rewrite(k, tp), tp));
      RecordConcat(m, RewriteEvents(k, tp) + WalkEvents(Rewrite(k, tp), tp), rest);
      RewriteLeavesStanding(m, k, tp);
      WalkRecordsNothing(m, k, tp);
      RewriteSettles(k, tp);
      TreeStandsWalk(m1, Rewrite(k, tp), tp);
      TreeStandsAfter(m1, Walk(Rewrite(k, tp), tp), tp, rest);
      WalkListLeavesStanding(m1, s, ks[1..], tp);
    }
  }

  /** Walking into what a rewriting made records nothing more. */
  lemma {:induction false} WalkRecordsNothing(m: Meta, k: Select, tp: TablePolicies)
    requires TreeStands(RecordAll(m, RewriteEvents(k, tp)), Rewrite(k, tp), tp)
    ensures RecordAll(m, RewriteEvents(k, tp) + WalkEvents(Rewrite(k, tp), tp)) == RecordAll(m, RewriteEvents(k, tp))
  {
    RecordConcat(m, RewriteEvents(k, tp), WalkEvents(Rewrite(k, tp), tp));
    RewriteSettles(k, tp);
    RewriteAgainStands(RecordAll(m, RewriteEvents(k, tp)), Rewrite(k, tp), tp);
    RecordStanding(RecordAll(m, RewriteEvents(k, tp)), WalkEvents(Rewrite(k, tp), tp));
  }

  /** For every tree, rewriting what was rewritten records nothing new. */
  lemma {:induction false} RewriteAgainRecordsNothing(m: Meta, s: Select, tp: TablePolicies)
    ensures RecordAll(RecordAll(m, RewriteEvents(s, tp)), RewriteEvents(Rewrite(s, tp), tp))
            == RecordAll(m, RewriteEvents(s, tp))
  {
    var m1 := RecordAll(m, RewriteEvents(s, tp));
    RewriteLeavesStanding(m, s, tp);
    RewriteSettles(s, tp);
    RewriteAgainStands(m1, Rewrite(s, tp), tp);
    RecordStanding(m1, RewriteEvents(Rewrite(s, tp), tp));
  }
}
