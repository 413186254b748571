/**
 The rewriter as the source runs it: loops over sources, projections, references and
 filters, and a walk that updates the metadata object as it goes.  Each method is tied
 to the functions of `Rewriter` and to the events of `RewriteLog`.
 */
module SqlRewriter {
  import opened Wrappers
  import opened Policies
  import opened SqlSyntax
  import opened Rewriter
  import opened RewriteLog
  import opened Hardening

  class RewriteMeta {
    var deniedColumns: seq<string>
    var maskedColumns: map<string, Option<string>>
    var tokenizedColumns: map<string, string>
    var rowFilterApplied: bool
    var warnings: seq<Warning>

    function State(): Meta
      reads this
    {
      Meta(deniedColumns, maskedColumns, tokenizedColumns, rowFilterApplied, warnings)
    }

    constructor ()
      ensures State() == EmptyMeta
    {
      deniedColumns, maskedColumns, tokenizedColumns, rowFilterApplied, warnings := [], map[], map[], false, [];
    }

    /** A named suppressed column, listed once. */
    method AddDenied(name: string)
      modifies this
      ensures State() == RecordAll(old(State()), When(name != "", Denied(name)))
    {
      if name != "" && name !in deniedColumns { deniedColumns := deniedColumns + [name]; }
    }

    method AddMasked(name: string, pii: Option<string>)
      modifies this
      ensures State() == RecordAll(old(State()), When(name != "", Masked(name, pii)))
    {
      if name != "" && name !in maskedColumns { maskedColumns := maskedColumns[name := pii]; }
    }

    method AddTokenized(name: string, original: string)
      modifies this
      ensures State() == RecordAll(old(State()), When(name != "", Tokenized(name, original)))
    {
      if name != "" && name !in tokenizedColumns { tokenizedColumns := tokenizedColumns[name := original]; }
    }

    /** A suppressed column, with a warning where one is due. */
    method AddSuppressed(name: string, c: bool, w: Warning)
      modifies this
      ensures State() == RecordAll(old(State()), When(name != "", Denied(name)) + When(c, Warned(w)))
    {
      RecordConcat(State(), When(name != "", Denied(name)), When(c, Warned(w)));
      AddDenied(name);
      if c { warnings := warnings + [w]; }
    }
  }

  // ----- the alias map -----

  method CollectAliases(s: Select, tp: TablePolicies) returns (am: AliasMap)
    ensures am == SelAliasMap(s, tp)
  {
    am := [];
    for i := 0 to |s.sources|
      invariant am == BuildAliasMap(s.sources[..i], tp)
    {
      var source := s.sources[i];
      assert s.sources[..i + 1][..i] == s.sources[..i];
      if source.Table? {
        var name := source.name;
        var alias := if source.alias != "" then source.alias else name;
        var key := PolicyKey(tp, name);
        if key.Some? {
          am := Assign(am, alias, key.value);
          if alias != name { am := Assign(am, name, key.value); }
        }
      }
    }
    assert s.sources[..|s.sources|] == s.sources;
  }

  // ----- star expansion -----

  method ExpandOne(p: Expr, am: AliasMap, tp: TablePolicies) returns (projs: seq<Expr>)
    ensures projs == ExpandStar(p, am, tp)
  {
    projs := [p];
    match p {
      case Star =>
        var expanded := CollectKnown(am, tp);
        if expanded != [] { projs := expanded; }
      case QualStar(t) =>
        var key := Find(am, t);
        if key.Some? && KnownOf(tp, key.value) != [] { projs := Columns(t, KnownOf(tp, key.value)); }
      case _ =>
    }
  }

  method ExpandAllStars(s: Select, am: AliasMap, tp: TablePolicies) returns (r: Select)
    ensures r == s.(projs := ExpandStars(s.projs, am, tp))
  {
    var projs: seq<Expr> := [];
    var ps := s.projs;
    for i := 0 to |ps|
      invariant projs + ExpandStars(ps[i..], am, tp) == ExpandStars(ps, am, tp)
    {
      assert ps[i..][1..] == ps[i + 1..];
      var expanded := ExpandOne(ps[i], am, tp);
      projs := projs + expanded;
    }
    r := s.(projs := projs);
  }

  method CollectKnown(am: AliasMap, tp: TablePolicies) returns (cols: seq<Expr>)
    ensures cols == AllKnown(am, tp)
  {
    cols := [];
    for i := 0 to |am|
      invariant cols + AllKnown(am[i..], tp) == AllKnown(am, tp)
    {
      assert am[i..][1..] == am[i + 1..];
      cols := cols + Columns("", KnownOf(tp, am[i].key));
    }
  }

  // ----- projections -----

  lemma {:induction false} StricterAssociates(a: Verdict, b: Verdict, c: Verdict)
    ensures Stricter(Stricter(a, b), c) == Stricter(a, Stricter(b, c))
  {
  }

  /** The first reference of the highest rank decides. */
  method JudgeReferences(refs: seq<Ref>, am: AliasMap, tp: TablePolicies) returns (overall: Verdict)
    ensures overall == Judge(refs, am, tp)
  {
    overall := NoVerdict;
    for i := 0 to |refs|
      invariant overall.action == Allow ==> overall == NoVerdict
      invariant Stricter(overall, Judge(refs[i..], am, tp)) == Judge(refs, am, tp)
    {
      assert refs[i..][1..] == refs[i + 1..];
      var v := Resolve(refs[i], am, tp);
      StricterAssociates(overall, v, Judge(refs[i + 1..], am, tp));
      if Rank(v.action) > Rank(overall.action) { overall := v; }
    }
  }

  method RewriteProjection(p: Expr, am: AliasMap, tp: TablePolicies, meta: RewriteMeta) returns (r: Expr)
    modifies meta
    ensures r == RewriteProj(p, am, tp)
    ensures meta.State() == RecordAll(old(meta.State()), ProjEvents(p, am, tp))
  {
    var inner := Inner(p);
    var refs := Refs(inner);
    r := p;
    if refs == [] {
      return;
    }
    var v := JudgeReferences(refs, am, tp);
    var out := if AliasName(p) != "" then AliasName(p) else if |refs| == 1 then refs[0].name else "";
    r := ActOnVerdict(p, inner, |refs|, v, out, meta);
  }

  method ActOnVerdict(p: Expr, inner: Expr, n: nat, v: Verdict, out: string, meta: RewriteMeta) returns (r: Expr)
    modifies meta
    ensures r == if v.action == Deny || (v.action == Mask && !PlainColumn(inner)) then Nulled(out) else p
    ensures meta.State() == RecordAll(old(meta.State()), VerdictEvents(inner, n, v, out))
  {
    r := p;
    match v.action {
      case Deny =>
        r := Nulled(out);
        meta.AddSuppressed(out, n > 1 && v.name != "", FunctionLeakage(v.name));
      case Mask =>
        if PlainColumn(inner) {
          meta.AddMasked(FirstNonEmpty(out, v.name), v.pii);
        } else {
          r := Nulled(out);
          meta.AddSuppressed(out, true, MaskedLeakage(v.name));
        }
      case Tokenize =>
        var key := FirstNonEmpty(out, v.name);
        meta.AddTokenized(key, FirstNonEmpty(v.name, key));
      case Allow =>
    }
  }

  lemma {:induction false} RestOfProjs(m: Meta, ps: seq<Expr>, i: nat, am: AliasMap, tp: TablePolicies)
    requires i < |ps|
    ensures RecordAll(m, ProjsEvents(ps[i..], am, tp))
            == RecordAll(RecordAll(m, ProjEvents(ps[i], am, tp)), ProjsEvents(ps[i + 1..], am, tp))
  {
    assert ps[i..][1..] == ps[i + 1..];
    RecordConcat(m, ProjEvents(ps[i], am, tp), ProjsEvents(ps[i + 1..], am, tp));
  }

  lemma {:induction false} NextProj(ps: seq<Expr>, i: nat, am: AliasMap, tp: TablePolicies)
    requires i < |ps|
    ensures RewriteProjs(ps, am, tp)[..i] + [RewriteProj(ps[i], am, tp)] == RewriteProjs(ps, am, tp)[..i + 1]
  {
  }

  method RewriteProjections(s: Select, am: AliasMap, tp: TablePolicies, meta: RewriteMeta) returns (r: Select)
    modifies meta
    ensures r == s.(projs := RewriteProjs(s.projs, am, tp))
    ensures meta.State() == RecordAll(old(meta.State()), ProjsEvents(s.projs, am, tp))
  {
    var ps := s.projs;
    var projs: seq<Expr> := [];
    ghost var m0 := meta.State();
    for i := 0 to |ps|
      invariant projs == RewriteProjs(ps, am, tp)[..i]
      invariant RecordAll(meta.State(), ProjsEvents(ps[i..], am, tp)) == RecordAll(m0, ProjsEvents(ps, am, tp))
    {
      RestOfProjs(meta.State(), ps, i, am, tp);
      NextProj(ps, i, am, tp);
      var q := RewriteProjection(ps[i], am, tp, meta);
      projs := projs + [q];
    }
    r := s.(projs := projs);
  }

  // ----- row filters -----

  /** One decision's filters; `seen` is the set that keeps a filter from being added under a second alias. */
  method AppendFilters(start: seq<Expr>, alias: string, key: string, fs: seq<RowFilter>, before: Seen)
    returns (conditions: seq<Expr>, seen: Seen)
    ensures conditions == start + OwnConditions(alias, key, fs, before)
    ensures seen == before + Marked(key, fs)
  {
    conditions, seen := start, before;
    for i := 0 to |fs|
      invariant conditions + OwnConditions(alias, key, fs[i..], seen) == start + OwnConditions(alias, key, fs, before)
      invariant seen == before + Marked(key, fs[..i])
    {
      assert fs[i..][1..] == fs[i + 1..];
      assert fs[..i + 1] == fs[..i] + [fs[i]];
      if fs[i].column != "" && (key, fs[i]) !in seen {
        seen := seen + {(key, fs[i])};
        conditions := conditions + [FilterExpr(alias, fs[i])];
      }
      assert seen == before + Marked(key, fs[..i + 1]);
    }
    assert fs[..|fs|] == fs;
  }

  lemma {:induction false} RestOfConditions(start: seq<Expr>, am: AliasMap, i: nat, tp: TablePolicies, seen: Seen)
    requires i < |am|
    ensures start + Conditions(am[i..], tp, seen)
            == start + OwnConditions(am[i].alias, am[i].key, FiltersOf(tp, am[i].key), seen)
               + Conditions(am[i + 1..], tp, seen + Marked(am[i].key, FiltersOf(tp, am[i].key)))
  {
    assert am[i..][1..] == am[i + 1..];
  }

  method CollectConditions(am: AliasMap, tp: TablePolicies) returns (conditions: seq<Expr>)
    ensures conditions == Conditions(am, tp, {})
  {
    var seen: Seen := {};
    conditions := [];
    for i := 0 to |am|
      invariant conditions + Conditions(am[i..], tp, seen) == Conditions(am, tp, {})
    {
      RestOfConditions(conditions, am, i, tp, seen);
      conditions, seen := AppendFilters(conditions, am[i].alias, am[i].key, FiltersOf(tp, am[i].key), seen);
    }
  }

  method Combine(conditions: seq<Expr>) returns (combined: Expr)
    requires conditions != []
    ensures combined == Conjoin(conditions)
  {
    combined := conditions[0];
    for i := 1 to |conditions|
      invariant combined == Conjoin(conditions[..i])
    {
      assert conditions[..i + 1][..i] == conditions[..i];
      combined := And(combined, conditions[i]);
    }
    assert conditions[..|conditions|] == conditions;
  }

  method InjectRowFilters(s: Select, am: AliasMap, tp: TablePolicies, meta: RewriteMeta) returns (r: Select)
    modifies meta
    ensures r == s.(where := AddCondition(s.where, Conditions(am, tp, {})))
    ensures meta.State() == RecordAll(old(meta.State()), When(Conditions(am, tp, {}) != [], Filtered))
  {
    var conditions := CollectConditions(am, tp);
    if conditions == [] {
      return s;
    }
    meta.rowFilterApplied := true;
    var combined := Combine(conditions);
    r := s.(where := Some(if s.where.Some? then And(s.where.value, combined) else combined));
  }

  // ----- a visit, the walk, and the rewriting of a node -----

  method VisitNode(s: Select, tp: TablePolicies, meta: RewriteMeta) returns (r: Select)
    modifies meta
    ensures r == Visit(s, tp)
    ensures meta.State() == RecordAll(old(meta.State()), VisitEvents(s, tp))
  {
    var am := CollectAliases(s, tp);
    if am == [] {
      return s;
    }
    r := ExpandAllStars(s, am, tp);
    RecordConcat(meta.State(), ProjsEvents(r.projs, am, tp), When(SelConditions(s, tp) != [], Filtered));
    r := RewriteProjections(r, am, tp, meta);
    r := InjectRowFilters(r, am, tp, meta);
  }

  /** What the walk does at one nested SELECT: the tree it leaves and the events it records. */
  datatype Step = Step(result: Select, events: seq<Event>)

  ghost function StepOf(k: Select, tp: TablePolicies): Step {
    Step(Walk(Rewrite(k, tp), tp), RewriteEvents(k, tp) + WalkEvents(Rewrite(k, tp), tp))
  }

  /**
   Lists of SELECTs are reasoned about for any function telling the step at each.  Where a lemma or
   method takes such a function `f` with `f == StepOf`, the parameter keeps the verifier from
   unfolding the walk at every element of the list; callers always pass `StepOf`.
   */
  type Steps = (Select, TablePolicies) -> Step

  ghost function ResultMap(f: Steps, ks: seq<Select>, tp: TablePolicies): Subst {
    if ks == [] then map[] else ResultMap(f, ks[..|ks| - 1], tp)[ks[|ks| - 1] := f(ks[|ks| - 1], tp).result]
  }

  ghost function EventsOf(f: Steps, ks: seq<Select>, tp: TablePolicies): seq<Event> {
    if ks == [] then [] else EventsOf(f, ks[..|ks| - 1], tp) + f(ks[|ks| - 1], tp).events
  }

  lemma {:induction false} EventsOfFirst(f: Steps, k: Select, ks: seq<Select>, tp: TablePolicies)
    ensures EventsOf(f, [k] + ks, tp) == f(k, tp).events + EventsOf(f, ks, tp)
  {
    var all := [k] + ks;
    if ks == [] {
      assert all[..0] == [];
    } else {
      EventsOfFirst(f, k, ks[..|ks| - 1], tp);
      assert all[..|all| - 1] == [k] + ks[..|ks| - 1] && all[|all| - 1] == ks[|ks| - 1];
      assert EventsOf(f, all, tp) == EventsOf(f, all[..|all| - 1], tp) + f(all[|all| - 1], tp).events;
    }
  }

  lemma {:induction false} ResultMapAt(f: Steps, ks: seq<Select>, tp: TablePolicies, k: Select)
    ensures k in ResultMap(f, ks, tp) <==> k in ks
    ensures k in ResultMap(f, ks, tp) ==> ResultMap(f, ks, tp)[k] == f(k, tp).result
  {
    if ks != [] {
      ResultMapAt(f, ks[..|ks| - 1], tp, k);
      assert ks == ks[..|ks| - 1] + [ks[|ks| - 1]];
    }
  }

  ghost predicate Recorded(m: Meta, m0: Meta, es: seq<Event>) {
    m == RecordAll(m0, es)
  }

  lemma {:induction false} OneMoreStep(m0: Meta, f: Steps, kids: seq<Select>, i: nat, tp: TablePolicies)
    requires i < |kids|
    ensures ResultMap(f, kids[..i + 1], tp) == ResultMap(f, kids[..i], tp)[kids[i] := f(kids[i], tp).result]
    ensures Recorded(RecordAll(RecordAll(m0, EventsOf(f, kids[..i], tp)), f(kids[i], tp).events), m0,
            EventsOf(f, kids[..i + 1], tp))
  {
    assert kids[..i + 1][..i] == kids[..i];
    RecordConcat(m0, EventsOf(f, kids[..i], tp), f(kids[i], tp).events);
  }

  lemma {:induction false} SameMap(l: Subst, r: Subst)
    requires forall k :: (k in l <==> k in r) && (k in l ==> l[k] == r[k])
    ensures l == r
  {
  }

  lemma {:induction false} WalkMapAt(s: Select, tp: TablePolicies, k: Select)
    ensures k in WalkMap(s, tp) <==> k in SelKids(s)
    ensures k in WalkMap(s, tp) ==> WalkMap(s, tp)[k] == StepOf(k, tp).result
  {
  }

  lemma {:induction false} WalkMapBySteps(s: Select, tp: TablePolicies, f: Steps)
    requires f == StepOf
    ensures ResultMap(f, SelKids(s), tp) == WalkMap(s, tp)
  {
    var l, r := ResultMap(f, SelKids(s), tp), WalkMap(s, tp);
    forall k
      ensures k in l <==> k in r
      ensures k in l ==> l[k] == r[k]
    {
      ResultMapAt(f, SelKids(s), tp, k);
      WalkMapAt(s, tp, k);
    }
    SameMap(l, r);
  }

  lemma {:induction false} WalkListFirst(d: nat, ks: seq<Select>, tp: TablePolicies, f: Steps)
    requires f == StepOf && ks != [] && forall k | k in ks :: Depth(k) < d
    ensures forall k | k in ks[1..] :: Depth(k) < d
    ensures WalkListEvents(d, ks, tp) == f(ks[0], tp).events + WalkListEvents(d, ks[1..], tp)
  {
    assert forall k | k in ks[1..] :: k in ks;
  }

  /** The events of the walk over a list, where they are defined. */
  ghost function ListEvents(d: nat, ks: seq<Select>, tp: TablePolicies): seq<Event> {
    if forall k | k in ks :: Depth(k) < d then WalkListEvents(d, ks, tp) else []
  }

  lemma {:induction false} ListEventsFirst(d: nat, ks: seq<Select>, i: nat, tp: TablePolicies, f: Steps)
    requires f == StepOf && i < |ks| && forall k | k in ks :: Depth(k) < d
    ensures ListEvents(d, ks[i..], tp) == f(ks[i], tp).events + ListEvents(d, ks[i + 1..], tp)
  {
    assert forall k | k in ks[i..] :: k in ks;
    assert ks[i..][1..] == ks[i + 1..];
    WalkListFirst(d, ks[i..], tp, f);
  }

  /** A function on lists that puts the events of the first SELECT before those of the rest. */
  lemma {:induction false} EventsBySuffix(f: Steps, all: (nat, seq<Select>, TablePolicies) -> seq<Event>, d: nat,
                                          ks: seq<Select>, i: nat, tp: TablePolicies)
    requires i <= |ks| && all(d, [], tp) == []
    requires forall j | 0 <= j < |ks| :: all(d, ks[j..], tp) == f(ks[j], tp).events + all(d, ks[j + 1..], tp)
    ensures all(d, ks[i..], tp) == EventsOf(f, ks[i..], tp)
    decreases |ks| - i
  {
    if i == |ks| {
      assert ks[i..] == [];
    } else {
      EventsBySuffix(f, all, d, ks, i + 1, tp);
      EventsOfFirst(f, ks[i], ks[i + 1..], tp);
      assert ks[i..] == [ks[i]] + ks[i + 1..];
    }
  }

  lemma {:induction false} WalkListBySteps(d: nat, ks: seq<Select>, tp: TablePolicies, f: Steps)
    requires f == StepOf && forall k | k in ks :: Depth(k) < d
    ensures EventsOf(f, ks, tp) == WalkListEvents(d, ks, tp)
  {
    forall j | 0 <= j < |ks|
      ensures ListEvents(d, ks[j..], tp) == f(ks[j], tp).events + ListEvents(d, ks[j + 1..], tp)
    {
      ListEventsFirst(d, ks, j, tp, f);
    }
    EventsBySuffix(f, ListEvents, d, ks, 0, tp);
    assert ks[0..] == ks;
  }

  /** One step of the walk: rewrite the SELECT that was reached and walk on into the result. */
  method RewriteKid(k: Select, ghost f: Steps, tp: TablePolicies, meta: RewriteMeta) returns (q: Select)
    requires f == StepOf
    modifies meta
    ensures q == f(k, tp).result
    ensures meta.State() == RecordAll(old(meta.State()), f(k, tp).events)
    decreases Depth(k), 3
  {
    RecordConcat(meta.State(), RewriteEvents(k, tp), WalkEvents(Rewrite(k, tp), tp));
    q := RewriteNode(k, tp, meta);
    q := WalkNode(q, tp, meta);
  }

  method WalkNode(s: Select, tp: TablePolicies, meta: RewriteMeta) returns (r: Select)
    modifies meta
    ensures r == Walk(s, tp)
    ensures meta.State() == RecordAll(old(meta.State()), WalkEvents(s, tp))
    decreases Depth(s), 1
  {
    WalkListBySteps(Depth(s), SelKids(s), tp, StepOf);
    WalkMapBySteps(s, tp, StepOf);
    WalkUnfolds(s, tp);
    var m := WalkKids(SelKids(s), StepOf, Depth(s), tp, meta);
    r := SelApply(s, m);
  }

  method WalkKids(kids: seq<Select>, ghost f: Steps, ghost d: nat, tp: TablePolicies, meta: RewriteMeta)
    returns (m: Subst)
    requires f == StepOf && forall k | k in kids :: Depth(k) < d
    modifies meta
    ensures m == ResultMap(f, kids, tp)
    ensures meta.State() == RecordAll(old(meta.State()), EventsOf(f, kids, tp))
    decreases d, 0
  {
    m := map[];
    ghost var m0 := meta.State();
    for i := 0 to |kids|
      invariant m == ResultMap(f, kids[..i], tp)
      invariant Recorded(meta.State(), m0, EventsOf(f, kids[..i], tp))
    {
      OneMoreStep(m0, f, kids, i, tp);
      var q := RewriteKid(kids[i], f, tp, meta);
      m := m[kids[i] := q];
    }
    assert kids[..|kids|] == kids;
  }

  method RewriteNode(s: Select, tp: TablePolicies, meta: RewriteMeta) returns (r: Select)
    modifies meta
    ensures r == Rewrite(s, tp)
    ensures meta.State() == RecordAll(old(meta.State()), RewriteEvents(s, tp))
    decreases Depth(s), 2
  {
    RecordConcat(meta.State(), WalkEvents(s, tp), VisitEvents(Walk(s, tp), tp));
    r := WalkNode(s, tp, meta);
    r := VisitNode(r, tp, meta);
  }

  // ----- set operations, and what is stripped from a lone SELECT -----

  /** The events of rewriting a set operation: those of its branches, left to right. */
  function UnionEvents(t: QueryTree, tp: TablePolicies): seq<Event> {
    match t
    case Leaf(q) => RewriteEvents(q, tp)
    case SetOp(_, l, r) => UnionEvents(l, tp) + UnionEvents(r, tp)
  }

  method RewriteUnionTree(t: QueryTree, ghost rewriteFn: Select -> Select, tp: TablePolicies, meta: RewriteMeta)
    returns (r: QueryTree)
    requires forall q :: rewriteFn(q) == Rewrite(q, tp)
    modifies meta
    ensures r == RewriteUnion(t, rewriteFn)
    ensures meta.State() == RecordAll(old(meta.State()), UnionEvents(t, tp))
    decreases t
  {
    match t {
      case Leaf(q) =>
        var branch := RewriteNode(q, tp, meta);
        r := Leaf(branch);
      case SetOp(op, left, right) =>
        RecordConcat(meta.State(), UnionEvents(left, tp), UnionEvents(right, tp));
        var newLeft := RewriteUnionTree(left, rewriteFn, tp, meta);
        var newRight := RewriteUnionTree(right, rewriteFn, tp, meta);
        r := SetOp(op, newLeft, newRight);
    }
  }

  lemma {:induction false} NextKept(es: seq<Expr>, i: nat, names: set<string>)
    requires i < |es|
    ensures WithoutNames(es[i..], names)
            == (if Names(es[i], names) then [] else [es[i]]) + WithoutNames(es[i + 1..], names)
  {
    assert es[i..][1..] == es[i + 1..];
  }

  method StripInferenceBypass(s: Select, tp: TablePolicies) returns (r: Select)
    ensures r == StripInference(s, tp)
  {
    var denied := AllDenied(tp);
    r := s;
    if denied == {} {
      return;
    }
    var kept: seq<Expr> := [];
    for i := 0 to |s.order|
      invariant kept + WithoutNames(s.order[i..], denied) == WithoutNames(s.order, denied)
    {
      NextKept(s.order, i, denied);
      if !Names(s.order[i], denied) { kept := kept + [s.order[i]]; }
    }
    r := r.(order := kept);
    if s.having.Some? && Names(s.having.value, denied) { r := r.(having := None); }
  }
}
