/**
 The independent check that runs on the rewritten query: it lists every reference to a
 denied column name that is still live in a projection.  On queries whose qualifiers are
 in scope, under decisions that deny the same names, it has nothing to list.
 */
module LeakChecker {
  import opened Wrappers
  import opened Text
  import opened Policies
  import opened SqlSyntax
  import opened Rewriter
  import opened VisitFacts
  import opened ProjectionInvariant
  import opened Hardening

  // ----- what the check lists -----

  predicate Suppressed(p: Expr) {
    p.Null? || (p.Alias? && p.arg.Null?)
  }

  function Named(refs: seq<Ref>, names: set<string>): seq<Ref> {
    if refs == [] then []
    else (if refs[0].name in names then [refs[0]] else []) + Named(refs[1..], names)
  }

  function ProjLeaks(p: Expr, names: set<string>): seq<Ref> {
    if Suppressed(p) then [] else Named(Refs(p), names)
  }

  function SelectLeaks(ps: seq<Expr>, names: set<string>): seq<Ref> {
    if ps == [] then [] else ProjLeaks(ps[0], names) + SelectLeaks(ps[1..], names)
  }

  function ListLeaks(nodes: seq<Select>, names: set<string>): seq<Ref> {
    if nodes == [] then [] else SelectLeaks(nodes[0].projs, names) + ListLeaks(nodes[1..], names)
  }

  /** The SELECTs of a tree, each before those nested in it. */
  function AllSelects(s: Select): seq<Select>
    decreases s
  {
    [s] + AllNested(s, SelKids(s))
  }

  function AllNested(ghost parent: Select, ks: seq<Select>): seq<Select>
    requires Below(parent, ks)
    decreases parent, |ks|
  {
    if ks == [] then [] else
      assert ks[0] in ks && forall k | k in ks[1..] :: k in ks;
      AllSelects(ks[0]) + AllNested(parent, ks[1..])
  }

  /** The loops of the check, over the SELECTs of the tree, their projections and the references in them. */
  method VerifyNoColumnLeak(tree: Select, tp: TablePolicies) returns (warnings: seq<Ref>)
    ensures warnings == ListLeaks(AllSelects(tree), AllDenied(tp))
  {
    warnings := ScanSelects(AllSelects(tree), AllDenied(tp));
  }

  lemma {:induction false} RestOfSelects(start: seq<Ref>, nodes: seq<Select>, n: nat, denied: set<string>)
    requires n < |nodes|
    ensures start + ListLeaks(nodes[n..], denied)
            == start + SelectLeaks(nodes[n].projs, denied) + ListLeaks(nodes[n + 1..], denied)
  {
    assert nodes[n..][1..] == nodes[n + 1..];
  }

  method ScanSelects(nodes: seq<Select>, denied: set<string>) returns (warnings: seq<Ref>)
    ensures warnings == ListLeaks(nodes, denied)
  {
    warnings := [];
    for n := 0 to |nodes|
      invariant warnings + ListLeaks(nodes[n..], denied) == ListLeaks(nodes, denied)
    {
      RestOfSelects(warnings, nodes, n, denied);
      warnings := ScanProjections(warnings, nodes[n].projs, denied);
    }
  }

  lemma {:induction false} RestOfLeaks(start: seq<Ref>, ps: seq<Expr>, i: nat, denied: set<string>)
    requires i < |ps|
    ensures start + SelectLeaks(ps[i..], denied)
            == start + (if Suppressed(ps[i]) then [] else Named(Refs(ps[i]), denied)) + SelectLeaks(ps[i + 1..], denied)
  {
    assert ps[i..][1..] == ps[i + 1..];
  }

  method ScanProjections(start: seq<Ref>, ps: seq<Expr>, denied: set<string>) returns (r: seq<Ref>)
    ensures r == start + SelectLeaks(ps, denied)
  {
    r := start;
    for i := 0 to |ps|
      invariant r + SelectLeaks(ps[i..], denied) == start + SelectLeaks(ps, denied)
    {
      RestOfLeaks(r, ps, i, denied);
      if !Suppressed(ps[i]) {
        r := AppendNamed(r, Refs(ps[i]), denied);
      }
    }
  }

  method AppendNamed(start: seq<Ref>, refs: seq<Ref>, names: set<string>) returns (r: seq<Ref>)
    ensures r == start + Named(refs, names)
  {
    r := start;
    for i := 0 to |refs|
      invariant r + Named(refs[i..], names) == start + Named(refs, names)
    {
      if refs[i].name in names { r := r + [refs[i]]; }
    }
  }

  // ----- the list is empty exactly when no denied name is live -----

  lemma {:induction false} NamedMembers(refs: seq<Ref>, names: set<string>, r: Ref)
    ensures r in Named(refs, names) <==> r in refs && r.name in names
  {
    if refs != [] { NamedMembers(refs[1..], names, r); }
  }

  lemma {:induction false} SelectLeaksMembers(ps: seq<Expr>, names: set<string>, r: Ref)
    ensures r in SelectLeaks(ps, names) <==> exists p :: p in ps && !Suppressed(p) && r in Refs(p) && r.name in names
  {
    if ps != [] {
      NamedMembers(Refs(ps[0]), names, r);
      SelectLeaksMembers(ps[1..], names, r);
      assert ps == [ps[0]] + ps[1..];
    }
  }

  lemma {:induction false} ListLeaksMembers(nodes: seq<Select>, names: set<string>, r: Ref)
    ensures r in ListLeaks(nodes, names) <==> exists t :: t in nodes && r in SelectLeaks(t.projs, names)
  {
    if nodes != [] {
      ListLeaksMembers(nodes[1..], names, r);
      assert nodes == [nodes[0]] + nodes[1..];
    }
  }

  lemma {:induction false} AllSelectsWithin(s: Select, t: Select)
    ensures t in AllSelects(s) <==> Within(t, s)
    decreases s
  {
    AllNestedWithin(s, SelKids(s), t);
  }

  predicate WithinSome(t: Select, ks: seq<Select>) {
    exists k :: k in ks && Within(t, k)
  }

  lemma {:induction false} WithinSomeFirst(t: Select, ks: seq<Select>)
    requires ks != []
    ensures WithinSome(t, ks) <==> Within(t, ks[0]) || WithinSome(t, ks[1..])
  {
    assert ks == [ks[0]] + ks[1..];
    assert ks[0] in ks && forall k | k in ks[1..] :: k in ks;
  }

  lemma {:induction false} AllNestedWithin(parent: Select, ks: seq<Select>, t: Select)
    requires Below(parent, ks)
    ensures t in AllNested(parent, ks) <==> WithinSome(t, ks)
    decreases parent, |ks|
  {
    if ks != [] {
      assert ks[0] in ks && forall k | k in ks[1..] :: k in ks;
      AllSelectsWithin(ks[0], t);
      AllNestedWithin(parent, ks[1..], t);
      WithinSomeFirst(t, ks);
    }
  }

  /** A reference is listed exactly when some SELECT of the tree projects it live under a denied name. */
  lemma {:induction false} LeaksExact(tree: Select, tp: TablePolicies, r: Ref)
    ensures r in ListLeaks(AllSelects(tree), AllDenied(tp))
            <==> exists t, p ::
                   Within(t, tree) && p in t.projs && p != Null && !(p.Alias? && p.arg == Null) && r in Refs(p)
                   && RefersToDenied(r, tp)
  {
    var nodes, names := AllSelects(tree), AllDenied(tp);
    ListLeaksMembers(nodes, names, r);
    if r in ListLeaks(nodes, names) {
      var t :| t in nodes && r in SelectLeaks(t.projs, names);
      AllSelectsWithin(tree, t);
      SelectLeaksMembers(t.projs, names, r);
    }
    assert r.name in names <==> RefersToDenied(r, tp);
    if t, p :| Within(t, tree) && p in t.projs && !Suppressed(p) && r in Refs(p) && r.name in names {
      AllSelectsWithin(tree, t);
      SelectLeaksMembers(t.projs, names, r);
    }
  }

  // ----- when the rewriter leaves nothing to list -----

  /** Every decision denies, and no decision that is exempt lists, the same names up to letter case. */
  predicate DenyTheSame(tp: TablePolicies) {
    forall key, c | key in tp && c in AllDenied(tp) :: ListedAnyCase(c, WithheldColumns(tp[key]))
  }

  predicate QualifierInScope(r: Ref, am: AliasMap) {
    r.table == "" || Find(am, r.table).Some?
  }

  /** The SELECT reads a table with a decision, its projections hold no SELECT, and their qualifiers are known. */
  predicate ReadyHere(s: Select, tp: TablePolicies) {
    var am := SelAliasMap(s, tp);
    am != [] && KidsL(s.projs) == [] && forall p | p in s.projs :: forall r | r in Refs(p) :: QualifierInScope(r, am)
  }

  predicate Ready(s: Select, tp: TablePolicies)
    decreases s
  {
    ReadyHere(s, tp) && forall k | k in SelKids(s) :: Ready(k, tp)
  }

  lemma {:induction false} ReadyApply(s: Select, m: Subst, tp: TablePolicies)
    requires ReadyHere(s, tp)
    ensures ReadyHere(SelApply(s, m), tp)
  {
    SourcesApply(s.sources, m, tp);
    KidsApplyL(s.projs, m);
    forall i | 0 <= i < |s.projs|
      ensures Apply(s.projs[i], m) == s.projs[i]
    {
      assert forall k | k in Kids(s.projs[i]) :: k in KidsL(s.projs);
      ApplyNothing(s.projs[i], m);
    }
    assert SelApply(s, m).projs == s.projs;
  }

  lemma {:induction false} ExpandedInScope(ps: seq<Expr>, am: AliasMap, tp: TablePolicies)
    requires forall p | p in ps :: forall r | r in Refs(p) :: QualifierInScope(r, am)
    ensures forall p | p in ExpandStars(ps, am, tp) :: forall r | r in Refs(p) :: QualifierInScope(r, am)
  {
    if ps != [] {
      assert ps[0] in ps && forall p | p in ps[1..] :: p in ps;
      ExpandedInScope(ps[1..], am, tp);
      AllKnownAreColumns(am, tp);
      forall p | p in ExpandStar(ps[0], am, tp)
        ensures forall r | r in Refs(p) :: QualifierInScope(r, am)
      {
      }
    }
  }

  lemma {:induction false} SuppressedHasNoRefs(p: Expr)
    ensures Refs(Nulled(OutName(p))) == [] && Kids(Nulled(OutName(p))) == []
  {
    assert Refs(Null) == [] && Kids(Null) == [];
  }

  lemma {:induction false} ReadyVisit(s: Select, tp: TablePolicies)
    requires ReadyHere(s, tp)
    ensures ReadyHere(Visit(s, tp), tp)
  {
    var am, t := SelAliasMap(s, tp), Visit(s, tp);
    var qs := ExpandStars(s.projs, am, tp);
    ExpandedInScope(s.projs, am, tp);
    RewriteProjsKids(s.projs, am, tp);
    forall i | 0 <= i < |qs|
      ensures forall r | r in Refs(t.projs[i]) :: QualifierInScope(r, am)
    {
      assert qs[i] in qs;
      SuppressedHasNoRefs(qs[i]);
    }
    EmptyOrInhabited(KidsL(t.projs));
  }

  lemma {:induction false} ReadyWalkKids(s: Select, tp: TablePolicies)
    requires forall k | k in SelKids(s) :: Ready(k, tp)
    ensures forall k | k in SelKids(Walk(s, tp)) :: Ready(k, tp)
    decreases Depth(s), 0
  {
    forall t | t in SelKids(Walk(s, tp))
      ensures Ready(t, tp)
    {
      var k := WalkedKid(s, tp, t);
      ReadyRewrite(k, tp);
      ReadyWalk(Rewrite(k, tp), tp);
    }
  }

  lemma {:induction false} ReadyWalk(s: Select, tp: TablePolicies)
    requires Ready(s, tp)
    ensures Ready(Walk(s, tp), tp)
    decreases Depth(s), 1
  {
    ReadyWalkKids(s, tp);
    WalkUnfolds(s, tp);
    ReadyApply(s, WalkMap(s, tp), tp);
  }

  lemma {:induction false} ReadyRewrite(s: Select, tp: TablePolicies)
    requires Ready(s, tp)
    ensures Ready(Rewrite(s, tp), tp)
    decreases Depth(s), 2
  {
    ReadyWalk(s, tp);
    ReadyVisit(Walk(s, tp), tp);
    VisitKids(Walk(s, tp), tp);
  }

  // ----- no reference under a denied name survives -----

  lemma {:induction false} DeniedNameResolves(r: Ref, am: AliasMap, tp: TablePolicies)
    requires am != [] && QualifierInScope(r, am) && DenyTheSame(tp) && r.name in AllDenied(tp)
    requires forall e | e in am :: e.key in tp
    ensures Resolve(r, am, tp).action == Deny
  {
    assert am[0] in am;
    if r.table != "" {
      FindEntry(am, r.table);
      var key := Find(am, r.table).value;
      assert Entry(r.table, key).key in tp;
      assert ActionIn(tp[key], r.name) == Deny;
      assert FirstRestricting([Entry(r.table, key)], tp, r.name).action == Deny;
    } else {
      assert ActionIn(tp[am[0].key], r.name) == Deny;
    }
  }

  lemma {:induction false} EntriesHaveKeys(ss: seq<Source>, tp: TablePolicies)
    ensures forall e | e in BuildAliasMap(ss, tp) :: e.key in tp
  {
    if ss != [] {
      EntriesHaveKeys(ss[..|ss| - 1], tp);
      var am, src := BuildAliasMap(ss[..|ss| - 1], tp), ss[|ss| - 1];
      if src.Table? && PolicyKey(tp, src.name).Some? {
        var key := PolicyKey(tp, src.name).value;
        AssignMembers(am, BindName(src), key);
        AssignMembers(Assign(am, BindName(src), key), src.name, key);
      }
    }
  }

  lemma {:induction false} LiveNamesAllowed(t: Select, tp: TablePolicies, p: Expr, r: Ref)
    requires SettledHere(t, tp) && ReadyHere(t, tp) && DenyTheSame(tp)
    requires p in t.projs && r in Refs(p)
    ensures r.name !in AllDenied(tp)
  {
    var am := SelAliasMap(t, tp);
    EntriesHaveKeys(t.sources, tp);
    assert Refs(p) == Refs(Inner(p));
    SettledReference(t, tp, p, r);
    if r.name in AllDenied(tp) { DeniedNameResolves(r, am, tp); }
  }

  lemma {:induction false} ReadyWithin(t: Select, s: Select, tp: TablePolicies)
    requires Ready(s, tp) && Within(t, s)
    ensures ReadyHere(t, tp)
    decreases s
  {
    if t != s {
      var k :| k in SelKids(s) && Within(t, k);
      ReadyWithin(t, k, tp);
    }
  }

  lemma {:induction false} NothingListed(tree: Select, tp: TablePolicies)
    requires Settled(tree, tp) && Ready(tree, tp) && DenyTheSame(tp)
    ensures ListLeaks(AllSelects(tree), AllDenied(tp)) == []
  {
    var leaks := ListLeaks(AllSelects(tree), AllDenied(tp));
    forall r
      ensures r !in leaks
    {
      LeaksExact(tree, tp, r);
      forall t, p | Within(t, tree) && p in t.projs && r in Refs(p)
        ensures r.name !in AllDenied(tp)
      {
        SettledWithin(t, tree, tp);
        ReadyWithin(t, tree, tp);
        LiveNamesAllowed(t, tp, p, r);
      }
    }
    EmptyOrInhabited(leaks);
  }

  /** The check on a rewritten and stripped query lists nothing. */
  lemma {:induction false} CheckerAgrees(s: Select, tp: TablePolicies)
    requires Ready(s, tp) && DenyTheSame(tp)
    ensures ListLeaks(AllSelects(StripInference(Rewrite(s, tp), tp)), AllDenied(tp)) == []
  {
    var r := Rewrite(s, tp);
    RewriteSettles(s, tp);
    ReadyRewrite(s, tp);
    StripReady(r, tp);
    NothingListed(StripInference(r, tp), tp);
  }

  lemma {:induction false} StripReady(r: Select, tp: TablePolicies)
    requires Settled(r, tp) && Ready(r, tp)
    ensures Settled(StripInference(r, tp), tp) && Ready(StripInference(r, tp), tp)
  {
    StripKids(r, tp);
  }
}
