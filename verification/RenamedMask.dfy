/**
 What renaming does to masking.  An outer SELECT reads a derived table without an alias map, so
 nothing is recorded for it; a masked column that it renames comes back under a name that the
 metadata does not list.
 */
module RenamedMask {
  import opened Wrappers
  import opened Text
  import opened Policies
  import opened SqlSyntax
  import opened Rewriter
  import opened VisitFacts
  import opened RepeatedVisits
  import opened References
  import opened Semantics
  import opened Hardening
  import opened NonInterference
  import opened RewriteLog
  import opened OneTable
  import opened MaskedOutput

  /** Column `c` of table `n` is masked, and nothing else is restricted. */
  function MaskingOf(n: string, c: string): TablePolicies {
    map[n := Decision(n, true, [], [c], [], [], false, false, [], [c])]
  }

  /** SELECT c AS y FROM n AS a. */
  function InnerAsk(n: string, a: string, c: string, y: string): Select {
    Ask(n, a, Alias(Col("", c), y))
  }

  /** SELECT s.y AS x FROM (inner) AS s. */
  function OuterAsk(inner: Select, y: string, x: string): Select {
    Bare(Alias(Col("s", y), x), Derived(inner, "s"))
  }

  // ----- what the gateway makes of it -----

  lemma {:induction false} MaskResolves(am: AliasMap, n: string, c: string)
    requires am != [] && forall e | e in am :: e.key == n
    ensures FirstRestricting(am, MaskingOf(n, c), c) == Verdict(Mask, c, None)
  {
    assert am[0] in am && [c][0] == c;
    assert ListedAnyCase(c, [c]) && !ListedAnyCase(c, []);
  }

  lemma {:induction false} MaskVerdict(am: AliasMap, n: string, c: string, y: string)
    requires am != [] && (forall e | e in am :: e.key == n) && y != ""
    ensures var p := Alias(Col("", c), y);
            Keeps(p, am, MaskingOf(n, c)) && ProjEvents(p, am, MaskingOf(n, c)) == [Masked(y, None)]
  {
    var p := Alias(Col("", c), y);
    MaskResolves(am, n, c);
    assert Refs(Inner(p)) == [Ref("", c)] && [Ref("", c)][1..] == [];
    assert Judge(Refs(Inner(p)), am, MaskingOf(n, c)) == Verdict(Mask, c, None);
  }

  lemma {:induction false} OneAlias(n: string, a: string, c: string)
    ensures var am := BuildAliasMap([Table(n, a)], MaskingOf(n, c)); am != [] && forall e | e in am :: e.key == n
  {
    assert [Table(n, a)][..0] == [] && BuildAliasMap([], MaskingOf(n, c)) == [];
    AssignMembers([], BindName(Table(n, a)), n);
    AssignMembers(Assign([], BindName(Table(n, a)), n), n, n);
  }

  lemma {:induction false} NoFilterHere(s: Select, n: string, c: string)
    ensures SelConditions(s, MaskingOf(n, c)) == []
  {
    ConditionsAreFilters(SelAliasMap(s, MaskingOf(n, c)), MaskingOf(n, c), {});
    EmptyOrInhabited(SelConditions(s, MaskingOf(n, c)));
  }

  lemma {:induction false} InnerVisit(n: string, a: string, c: string, y: string)
    requires y != ""
    ensures Visit(InnerAsk(n, a, c, y), MaskingOf(n, c)) == InnerAsk(n, a, c, y)
    ensures VisitEvents(InnerAsk(n, a, c, y), MaskingOf(n, c)) == [Masked(y, None)]
  {
    var s, tp, p := InnerAsk(n, a, c, y), MaskingOf(n, c), Alias(Col("", c), y);
    var am := SelAliasMap(s, tp);
    OneAlias(n, a, c);
    MaskVerdict(am, n, c, y);
    NoFilterHere(s, n, c);
    assert s.projs == [p] && s.projs[1..] == [];
    assert ExpandStars(s.projs[1..], am, tp) == [] && ExpandStars(s.projs, am, tp) == s.projs;
    assert RewriteProjs(s.projs, am, tp) == s.projs;
    assert ProjsEvents(s.projs[1..], am, tp) == [];
  }

  lemma {:induction false} OuterKids(inner: Select, y: string, x: string, m: Subst)
    ensures SelKids(OuterAsk(inner, y, x)) == [inner]
    ensures SelApply(OuterAsk(inner, y, x), m) == OuterAsk(Get(m, inner), y, x)
  {
    var s, t, p := OuterAsk(inner, y, x), OuterAsk(Get(m, inner), y, x), Alias(Col("s", y), x);
    assert Apply(Col("s", y), m) == Col("s", y) && Kids(Col("s", y)) == [];
    assert Kids(p) == [] && Apply(p, m) == p && s.projs[1..] == [] && s.sources[1..] == [];
    assert KidsL(s.projs) == [] && KidsL([]) == [] && KidsS(s.sources) == [inner] + KidsS(s.sources[1..]);
    assert ApplyL(s.projs, m) == t.projs && ApplyS(s.sources, m) == t.sources && ApplyL([], m) == [];
  }

  lemma {:induction false} OuterVisit(inner: Select, y: string, x: string, tp: TablePolicies)
    ensures Visit(OuterAsk(inner, y, x), tp) == OuterAsk(inner, y, x) && VisitEvents(OuterAsk(inner, y, x), tp) == []
  {
    var ss := [Derived(inner, "s")];
    assert ss[..0] == [] && BuildAliasMap(ss[..0], tp) == [] && BuildAliasMap(ss, tp) == [];
  }

  lemma {:induction false} LeafStays(inner: Select, tp: TablePolicies)
    requires SelKids(inner) == [] && Visit(inner, tp) == inner
    ensures Rewrite(inner, tp) == inner && Walk(inner, tp) == inner
    ensures RewriteEvents(inner, tp) == VisitEvents(inner, tp) && WalkEvents(inner, tp) == []
  {
    LeafWalk(inner, tp);
    assert WalkListEvents(Depth(inner), [], tp) == [];
  }

  /** Nothing is changed, and the inner name is all that is recorded. */
  lemma {:induction false} OuterStays(inner: Select, y: string, x: string, tp: TablePolicies)
    requires SelKids(inner) == [] && Visit(inner, tp) == inner
    ensures Rewrite(OuterAsk(inner, y, x), tp) == OuterAsk(inner, y, x)
    ensures RewriteEvents(OuterAsk(inner, y, x), tp) == VisitEvents(inner, tp)
  {
    var s := OuterAsk(inner, y, x);
    LeafStays(inner, tp);
    OuterKids(inner, y, x, WalkMap(s, tp));
    WalkUnfolds(s, tp);
    OuterVisit(inner, y, x, tp);
    OuterEvents(s, inner, tp);
  }

  lemma {:induction false} ListOfOne(d: nat, k: Select, tp: TablePolicies)
    requires forall j | j in [k] :: Depth(j) < d
    ensures WalkListEvents(d, [k], tp) == RewriteEvents(k, tp) + WalkEvents(Rewrite(k, tp), tp)
  {
    assert [k][1..] == [] && WalkListEvents(d, [], tp) == [];
  }

  lemma {:induction false} OuterEvents(s: Select, inner: Select, tp: TablePolicies)
    requires SelKids(s) == [inner] && Walk(s, tp) == s && VisitEvents(s, tp) == []
    requires Rewrite(inner, tp) == inner && WalkEvents(inner, tp) == []
    requires RewriteEvents(inner, tp) == VisitEvents(inner, tp)
    ensures RewriteEvents(s, tp) == VisitEvents(inner, tp)
  {
    ListOfOne(Depth(s), inner, tp);
    EventsOfNode(s, [inner], tp);
  }

  lemma {:induction false} EventsOfNode(s: Select, ks: seq<Select>, tp: TablePolicies)
    requires SelKids(s) == ks
    ensures (forall k | k in ks :: Depth(k) < Depth(s))
            && RewriteEvents(s, tp) == WalkListEvents(Depth(s), ks, tp) + VisitEvents(Walk(s, tp), tp)
  {
  }

  /** The query as it is served, and what is masked afterwards. */
  lemma {:induction false} ServedRenamed(n: string, a: string, c: string, y: string, x: string)
    requires y != ""
    ensures var s, tp := OuterAsk(InnerAsk(n, a, c, y), y, x), MaskingOf(n, c);
            Served(s, tp) == s && RecordAll(EmptyMeta, RewriteEvents(s, tp)).masked.Keys == {y}
  {
    var inner, tp := InnerAsk(n, a, c, y), MaskingOf(n, c);
    InnerVisit(n, a, c, y);
    AskHasNoKids(n, a, Alias(Col("", c), y));
    OuterStays(inner, y, x, tp);
    NothingStripped(OuterAsk(inner, y, x), n, c);
    OneMasked(y);
  }

  lemma {:induction false} NothingStripped(s: Select, n: string, c: string)
    ensures StripInference(s, MaskingOf(n, c)) == s
  {
    assert AllDenied(MaskingOf(n, c)) == {};
  }

  lemma {:induction false} OneMasked(y: string)
    ensures RecordAll(EmptyMeta, [Masked(y, None)]).masked.Keys == {y}
  {
    assert [Masked(y, None)][1..] == [];
    assert RecordAll(Record(EmptyMeta, Masked(y, None)), []) == Record(EmptyMeta, Masked(y, None));
  }

  // ----- what the database makes of it -----

  /** A renamed reference to the only column of the only source. */
  lemma {:induction false} OnlyColumn(E: Engine, sub: Results, b: string, q: string, y: string, x: string, row: Row)
    requires q == "" || SameName(q, b)
    ensures Eval(E, sub, [Binding(b, [y])], [[row]], Alias(Col(q, y), x)) == Cell([row], 0, 0)
  {
    var scope := [Binding(b, [y])];
    assert Hit(scope, Ref(q, y), 0, 0);
    assert Answers(scope, Ref(q, y), 0, 0);
    assert Eval(E, sub, scope, [[row]], Alias(Col(q, y), x)) == Lookup(E, scope, [row], Ref(q, y));
  }

  lemma {:induction false} OuterRuns(E: Engine, db: Database, sub: Results, inner: Select, y: string, x: string)
    requires forall rows :: E.finish("", rows) == rows
    requires inner in sub && sub[inner].cols == [y]
    ensures var below, out := sub[inner], Run(E, db, sub, OuterAsk(inner, y, x));
            && out.cols == [x] && |out.rows| == |below.rows|
            && forall i | 0 <= i < |out.rows| :: out.rows[i] == [Cell([below.rows[i]], 0, 0)]
  {
    RunBare(E, db, sub, Derived(inner, "s"), Alias(Col("s", y), x));
    forall row: Row { OnlyColumn(E, sub, "s", "s", y, x, row); }
  }

  lemma {:induction false} OuterComputes(E: Engine, db: Database, inner: Select, y: string, x: string)
    requires forall rows :: E.finish("", rows) == rows
    requires Meaning(E, db, inner).cols == [y]
    ensures var below, out := Meaning(E, db, inner), Meaning(E, db, OuterAsk(inner, y, x));
            && out.cols == [x] && |out.rows| == |below.rows|
            && forall i | 0 <= i < |out.rows| :: out.rows[i] == [Cell([below.rows[i]], 0, 0)]
  {
    var s := OuterAsk(inner, y, x);
    OuterKids(inner, y, x, map[]);
    MeaningUnfolds(E, db, s);
    OuterRuns(E, db, KidResults(E, db, s), inner, y, x);
  }

  lemma {:induction false} InnerRuns(E: Engine, db: Database, n: string, a: string, c: string, y: string)
    requires forall rows :: E.finish("", rows) == rows
    ensures Meaning(E, db, InnerAsk(n, a, c, y)) == Run(E, db, map[], InnerAsk(n, a, c, y))
  {
    AskHasNoKids(n, a, Alias(Col("", c), y));
    LeafRuns(E, db, InnerAsk(n, a, c, y));
  }

  lemma {:induction false} InnerComputes(E: Engine, db: Database, n: string, a: string, c: string, y: string)
    requires forall rows :: E.finish("", rows) == rows
    ensures var rel, out := SourceRel(db, map[], Table(n, a)), Meaning(E, db, InnerAsk(n, a, c, y));
            out.cols == [y] && |out.rows| == |rel.rows|
  {
    InnerRuns(E, db, n, a, c, y);
    RunBare(E, db, map[], Table(n, a), Alias(Col("", c), y));
  }

  lemma {:induction false} InnerCell(E: Engine, db: Database, n: string, a: string, c: string, y: string, v: Value)
    requires (forall rows :: E.finish("", rows) == rows) && db == OneCell(n, c, v)
    ensures Meaning(E, db, InnerAsk(n, a, c, y)).rows == [[v]]
  {
    var p := Alias(Col("", c), y);
    ShowsValue(E, n, a, p, c, v);
    OnlyColumn(E, KidResults(E, db, Ask(n, a, p)), BindName(Table(n, a)), "", c, y, [v]);
  }

  lemma {:induction false} SameCounts(st: TablePolicies, db: Database, db': Database, n: string, a: string)
    requires AgreeOutsideDenied(st, db, db')
    ensures |SourceRel(db, map[], Table(n, a)).rows| == |SourceRel(db', map[], Table(n, a)).rows|
  {
  }

  lemma {:induction false} CellsMatch(n: string, c: string)
    ensures var tp, db := MaskingOf(n, c), OneCell(n, c, VNum(1));
            AgreeOutsideDenied(Strict(tp, false), db, OneCell(n, c, VNum(2))) && FitsTable(tp[n], ColsOf(db, n))
  {
    assert [c][0] == c && ListedAnyCase(c, [c]) && [] + [c] + [] == [c];
    assert Withheld(Strict(MaskingOf(n, c), false), n, c);
  }

  lemma {:induction false} KeptNameMatches(E: Engine, db: Database, db': Database, inner: Select, n: string, a: string,
                                           c: string, y: string)
    requires (forall rows :: E.finish("", rows) == rows) && inner == InnerAsk(n, a, c, y)
    requires AgreeOutsideDenied(Strict(MaskingOf(n, c), false), db, db')
    ensures Matches({y}, Meaning(E, db, OuterAsk(inner, y, y)), Meaning(E, db', OuterAsk(inner, y, y)))
  {
    InnerComputes(E, db, n, a, c, y);
    InnerComputes(E, db', n, a, c, y);
    OuterComputes(E, db, inner, y, y);
    OuterComputes(E, db', inner, y, y);
    SameCounts(Strict(MaskingOf(n, c), false), db, db', n, a);
  }

  lemma {:induction false} OuterCell(E: Engine, db: Database, inner: Select, n: string, a: string, c: string, y: string,
                                     x: string, v: Value)
    requires (forall rows :: E.finish("", rows) == rows) && inner == InnerAsk(n, a, c, y) && db == OneCell(n, c, v)
    ensures Meaning(E, db, OuterAsk(inner, y, x)) == Relation([x], [[v]])
  {
    InnerComputes(E, db, n, a, c, y);
    InnerCell(E, db, n, a, c, y, v);
    OuterComputes(E, db, inner, y, x);
  }

  lemma {:induction false} CellsMismatch(out: Relation, out': Relation, x: string, y: string)
    requires out == Relation([x], [[VNum(1)]]) && out' == Relation([x], [[VNum(2)]]) && x != y
    ensures !Matches({y}, out, out')
  {
    assert out.cols[0] !in {y} && out.rows[0][0] != out'.rows[0][0];
  }

  lemma {:induction false} OtherNameShows(E: Engine, inner: Select, n: string, a: string, c: string, y: string,
                                          x: string)
    requires (forall rows :: E.finish("", rows) == rows) && inner == InnerAsk(n, a, c, y) && x != y
    ensures !Matches({y}, Meaning(E, OneCell(n, c, VNum(1)), OuterAsk(inner, y, x)),
                     Meaning(E, OneCell(n, c, VNum(2)), OuterAsk(inner, y, x)))
  {
    var db, db' := OneCell(n, c, VNum(1)), OneCell(n, c, VNum(2));
    OuterCell(E, db, inner, n, a, c, y, x, VNum(1));
    OuterCell(E, db', inner, n, a, c, y, x, VNum(2));
    CellsMismatch(Meaning(E, db, OuterAsk(inner, y, x)), Meaning(E, db', OuterAsk(inner, y, x)), x, y);
  }

  lemma {:induction false} ShowsExactly(E: Engine, s: Select, inner: Select, n: string, a: string, c: string, y: string,
                                        x: string)
    requires y != "" && (forall rows :: E.finish("", rows) == rows)
    requires inner == InnerAsk(n, a, c, y) && s == OuterAsk(inner, y, x)
    ensures ShowsOnlyNamed(E, MaskingOf(n, c), n, s, false) <==> x == y
  {
    var tp := MaskingOf(n, c);
    ServedRenamed(n, a, c, y, x);
    if x == y {
      forall db, db' | AgreeOutsideDenied(Strict(tp, false), db, db') {
        KeptNameMatches(E, db, db', inner, n, a, c, y);
      }
    } else {
      OtherNameShows(E, inner, n, a, c, y, x);
      CellsMatch(n, c);
    }
  }

  /**
   SELECT s.y AS x FROM (SELECT c AS y FROM n AS a) AS s, with c masked, shows the column only where it is
   masked afterwards exactly when the outer SELECT keeps the name.
   */
  lemma {:induction false} RenamingUnmasksExactly(E: Engine, n: string, a: string, c: string, y: string, x: string)
    requires y != "" && forall rows :: E.finish("", rows) == rows
    ensures ShowsOnlyNamed(E, MaskingOf(n, c), n, OuterAsk(InnerAsk(n, a, c, y), y, x), false) <==> x == y
  {
    ShowsExactly(E, OuterAsk(InnerAsk(n, a, c, y), y, x), InnerAsk(n, a, c, y), n, a, c, y, x);
  }
}
