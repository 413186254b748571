/**
 Masked and tokenized columns leave the database as they are and are masked or tokenized
 afterwards, under the names the metadata lists.  For a SELECT over tables this is enough: on two
 databases that differ only in denied and masked columns, and in tokenized ones where every
 expression over them has an alias, its result differs only in columns the metadata names.
 */
module MaskedOutput {
  import opened Wrappers
  import opened Text
  import opened Policies
  import opened SqlSyntax
  import opened Rewriter
  import opened ProjectionInvariant
  import opened References
  import opened Semantics
  import opened Congruence
  import opened Hardening
  import opened NonInterference
  import opened RewriteLog

  // ----- what the metadata names -----

  /** The name under which a projection that stays is masked or tokenized. */
  function OutputName(p: Expr, v: Verdict): string {
    FirstNonEmpty(AliasName(p), v.name)
  }

  lemma {:induction false} EventOfProj(ps: seq<Expr>, p: Expr, am: AliasMap, tp: TablePolicies)
    requires p in ps
    ensures forall e | e in ProjEvents(p, am, tp) :: e in ProjsEvents(ps, am, tp)
  {
    if p != ps[0] { EventOfProj(ps[1..], p, am, tp); }
  }

  lemma {:induction false} StandsWithin(m: Meta, t: Select, s: Select, tp: TablePolicies)
    requires TreeStands(m, s, tp) && Within(t, s)
    ensures AllStand(m, VisitEvents(t, tp))
    decreases s
  {
    if t != s {
      var k :| k in SelKids(s) && Within(t, k);
      StandsWithin(m, t, k, tp);
    }
  }

  /** Everything recorded for a projection that stays is in the metadata. */
  lemma {:induction false} KeptStand(m: Meta, t: Select, p: Expr, tp: TablePolicies)
    requires SettledHere(t, tp) && AllStand(m, VisitEvents(t, tp)) && p in t.projs && SelAliasMap(t, tp) != []
    ensures AllStand(m, KeptEvents(AliasName(p), Judge(Refs(Inner(p)), SelAliasMap(t, tp), tp)))
  {
    var am := SelAliasMap(t, tp);
    VisitEventsSettled(t, tp);
    KeptProjEvents(p, am, tp);
    EventOfProj(t.projs, p, am, tp);
  }

  lemma {:induction false} SettledNamed(m: Meta, t: Select, p: Expr, tp: TablePolicies)
    requires SettledHere(t, tp) && AllStand(m, VisitEvents(t, tp)) && p in t.projs && SelAliasMap(t, tp) != []
    ensures var v := Judge(Refs(Inner(p)), SelAliasMap(t, tp), tp);
            && (v.action == Mask ==> PlainColumn(Inner(p)) && (OutputName(p, v) != "" ==> OutputName(p, v) in m.masked))
            && (v.action == Tokenize && OutputName(p, v) != "" ==> OutputName(p, v) in m.tokenized)
  {
    var am := SelAliasMap(t, tp);
    var v := Judge(Refs(Inner(p)), am, tp);
    assert Keeps(p, am, tp);
    KeptStand(m, t, p, tp);
    if v.action in {Mask, Tokenize} && OutputName(p, v) != "" {
      assert KeptEvents(AliasName(p), v)[0] in KeptEvents(AliasName(p), v);
      assert Stands(m, KeptEvents(AliasName(p), v)[0]);
    }
  }

  /**
   In the tree that comes back, at every depth, a projection that refers to a masked column is a bare
   column, and the metadata lists the alias it has or the column's own name as masked.
   */
  lemma {:induction false} MaskedProjectionsNamed(m: Meta, s: Select, tp: TablePolicies, t: Select, p: Expr)
    requires Within(t, Rewrite(s, tp)) && p in t.projs && SelAliasMap(t, tp) != []
    ensures var v := Judge(Refs(Inner(p)), SelAliasMap(t, tp), tp);
            var masked := RecordAll(m, RewriteEvents(s, tp)).masked;
            v.action == Mask ==>
              (Inner(p).Col? || Inner(p).QualStar?) && (OutputName(p, v) != "" ==> OutputName(p, v) in masked)
  {
    var root := Rewrite(s, tp);
    RewriteLeavesStanding(m, s, tp);
    StandsWithin(RecordAll(m, RewriteEvents(s, tp)), t, root, tp);
    RewriteSettles(s, tp);
    SettledWithin(t, root, tp);
    SettledNamed(RecordAll(m, RewriteEvents(s, tp)), t, p, tp);
  }

  /** Whatever is computed from a tokenized column, the metadata lists its alias or the column's name as tokenized. */
  lemma {:induction false} TokenizedProjectionsNamed(m: Meta, s: Select, tp: TablePolicies, t: Select, p: Expr)
    requires Within(t, Rewrite(s, tp)) && p in t.projs && SelAliasMap(t, tp) != []
    ensures var v := Judge(Refs(Inner(p)), SelAliasMap(t, tp), tp);
            v.action == Tokenize && OutputName(p, v) != "" ==>
              OutputName(p, v) in RecordAll(m, RewriteEvents(s, tp)).tokenized
  {
    var root := Rewrite(s, tp);
    RewriteLeavesStanding(m, s, tp);
    StandsWithin(RecordAll(m, RewriteEvents(s, tp)), t, root, tp);
    RewriteSettles(s, tp);
    SettledWithin(t, root, tp);
    SettledNamed(RecordAll(m, RewriteEvents(s, tp)), t, p, tp);
  }

  // ----- masked and tokenized columns withheld as well -----

  /** The policies under which what is masked is denied, and if `tok` what is tokenized as well. */
  function Strict(tp: TablePolicies, tok: bool): TablePolicies {
    map k | k in tp ::
      tp[k].(denied := tp[k].denied + tp[k].masked + if tok then tp[k].tokenized else [], masked := [],
             tokenized := if tok then [] else tp[k].tokenized)
  }

  function Harden(a: Action, tok: bool): Action {
    if a == Mask || (tok && a == Tokenize) then Deny else a
  }

  lemma {:induction false} ListedConcat(name: string, a: seq<string>, b: seq<string>)
    ensures ListedAnyCase(name, a + b) <==> ListedAnyCase(name, a) || ListedAnyCase(name, b)
  {
    if i :| 0 <= i < |a| && Lower(a[i]) == Lower(name) { assert (a + b)[i] == a[i]; }
    if i :| 0 <= i < |b| && Lower(b[i]) == Lower(name) { assert (a + b)[|a| + i] == b[i]; }
  }

  lemma {:induction false} StrictAction(tp: TablePolicies, key: string, name: string, tok: bool)
    requires key in tp
    ensures ActionIn(Strict(tp, tok)[key], name) == Harden(ActionIn(tp[key], name), tok)
  {
    ListedConcat(name, tp[key].denied, tp[key].masked);
    ListedConcat(name, tp[key].denied + tp[key].masked, if tok then tp[key].tokenized else []);
  }

  lemma {:induction false} StrictFirst(am: AliasMap, tp: TablePolicies, name: string, tok: bool)
    ensures FirstRestricting(am, Strict(tp, tok), name).action == Harden(FirstRestricting(am, tp, name).action, tok)
  {
    if am != [] {
      if am[0].key in tp { StrictAction(tp, am[0].key, name, tok); }
      StrictFirst(am[1..], tp, name, tok);
    }
  }

  lemma {:induction false} StrictResolve(r: Ref, am: AliasMap, tp: TablePolicies, tok: bool)
    ensures Resolve(r, am, Strict(tp, tok)).action == Harden(Resolve(r, am, tp).action, tok)
  {
    StrictFirst(am, tp, r.name, tok);
    if Find(am, r.table).Some? { StrictFirst([Entry(r.table, Find(am, r.table).value)], tp, r.name, tok); }
  }

  lemma {:induction false} StrictSource(am: AliasMap, src: Source, tp: TablePolicies, tok: bool)
    ensures AddSource(am, src, Strict(tp, tok)) == AddSource(am, src, tp)
  {
    if src.Table? { assert PolicyKey(Strict(tp, tok), src.name) == PolicyKey(tp, src.name); }
  }

  lemma {:induction false} StrictAliases(ss: seq<Source>, tp: TablePolicies, tok: bool)
    ensures BuildAliasMap(ss, Strict(tp, tok)) == BuildAliasMap(ss, tp)
  {
    if ss != [] {
      StrictAliases(ss[..|ss| - 1], tp, tok);
      StrictSource(BuildAliasMap(ss[..|ss| - 1], tp), ss[|ss| - 1], tp, tok);
    }
  }

  lemma {:induction false} StrictKnown(am: AliasMap, tp: TablePolicies, tok: bool)
    ensures AllKnown(am, Strict(tp, tok)) == AllKnown(am, tp)
  {
    if am != [] { StrictKnown(am[1..], tp, tok); }
  }

  lemma {:induction false} StrictStar(p: Expr, am: AliasMap, tp: TablePolicies, tok: bool)
    ensures ExpandStar(p, am, Strict(tp, tok)) == ExpandStar(p, am, tp)
  {
    StrictKnown(am, tp, tok);
  }

  lemma {:induction false} StrictStars(ps: seq<Expr>, am: AliasMap, tp: TablePolicies, tok: bool)
    ensures ExpandStars(ps, am, Strict(tp, tok)) == ExpandStars(ps, am, tp)
  {
    if ps != [] {
      StrictStar(ps[0], am, tp, tok);
      StrictStars(ps[1..], am, tp, tok);
    }
  }

  lemma {:induction false} StrictConditions(am: AliasMap, tp: TablePolicies, seen: Seen, tok: bool)
    ensures Conditions(am, Strict(tp, tok), seen) == Conditions(am, tp, seen)
  {
    if am != [] { StrictConditions(am[1..], tp, seen + Marked(am[0].key, FiltersOf(tp, am[0].key)), tok); }
  }

  // ----- what is asked of the query -----

  /** No column is called by nothing or by a star. */
  predicate NamesProper(tp: TablePolicies) {
    && (forall key, c | key in tp && c in tp[key].masked :: c != "" && c != "*")
    && (forall key, c | key in tp && c in tp[key].tokenized :: c != "" && c != "*")
  }

  /** What is computed from a tokenized column has an alias. */
  predicate TokensAliased(ps: seq<Expr>, am: AliasMap, tp: TablePolicies) {
    forall p | p in ps && Judge(Refs(Inner(p)), am, tp).action == Tokenize :: p.Alias? || PlainColumn(p)
  }

  /** The names the metadata lists as masked, and if `tok` those it lists as tokenized. */
  function NamedBy(m: Meta, tok: bool): set<string> {
    m.masked.Keys + if tok then m.tokenized.Keys else {}
  }

  predicate AliasesNamed(ps: seq<Expr>) {
    forall p | p in ps && p.Alias? :: p.name != ""
  }

  /** The rows are as wide as the heading. */
  predicate Rectangular(rel: Relation) {
    forall i | 0 <= i < |rel.rows| :: |rel.rows[i]| == |rel.cols|
  }

  /** What ends the SELECT picks rows by their position, as LIMIT and OFFSET do and DISTINCT does not. */
  ghost predicate PicksBy(E: Engine, tail: string, at: nat -> seq<nat>) {
    forall rows :: E.finish(tail, rows) == Pick(rows, at(|rows|))
  }

  /**
   A SELECT over tables, without nested SELECTs, that reads no denied, masked or, if `tok`, tokenized
   column but in its projections, after stripping.
   */
  predicate OverTables(s: Select, tp: TablePolicies, db: Database, tok: bool) {
    && SelKids(s) == [] && AliasesNamed(s.projs) && (tok ==> TokensAliased(s.projs, SelAliasMap(s, tp), tp))
    && CleanBefore(s, Strict(tp, tok), db) && CleanAfter(StripInference(s, tp), Strict(tp, tok))
  }

  // ----- the rewritten SELECT -----

  /** What the gateway runs for a lone SELECT. */
  function Served(s: Select, tp: TablePolicies): Select {
    StripInference(Rewrite(s, tp), tp)
  }

  lemma {:induction false} ServedIsVisited(s: Select, tp: TablePolicies)
    requires SelKids(s) == []
    ensures Rewrite(s, tp) == Visit(s, tp)
  {
    SelApplyNothing(s, WalkMap(s, tp));
    RewriteUnfolds(s, tp);
  }

  lemma {:induction false} VisitedReads(s: Select, tp: TablePolicies, db: Database, tok: bool)
    requires CleanBefore(s, Strict(tp, tok), db) && FiltersReadable(Strict(tp, tok))
    ensures var r := Visit(s, tp);
            && NoDenyO(r.where, SelAliasMap(s, tp), Strict(tp, tok)) && TameO(r.where, s.sources, Strict(tp, tok), db)
            && TameProjs(r.projs, s.sources, Strict(tp, tok), db)
  {
    var am := SelAliasMap(s, tp);
    StrictAliases(s.sources, tp, tok);
    StrictConditions(am, tp, {}, tok);
    VisitClean(s, Strict(tp, tok), db);
    assert Visit(s, Strict(tp, tok)).where == Visit(s, tp).where;
    if am != [] {
      StrictStars(s.projs, am, tp, tok);
      ExpandAllTame(s, Strict(tp, tok), db, s.projs);
      ProjsTame(ExpandStars(s.projs, am, tp), am, tp, s.sources, Strict(tp, tok), db);
    }
  }

  // ----- one projection -----

  /** The heading of the projection is one name, which is masked afterwards. */
  predicate NamedIn(p: Expr, names: set<string>) {
    (p.Col? && p.name in names) || (p.Alias? && p.name in names)
  }

  /** A name that is masked or tokenized is one of a column. */
  lemma {:induction false} MaskedProperly(r: Ref, am: AliasMap, tp: TablePolicies)
    requires NamesProper(tp) && Resolve(r, am, tp).action in {Mask, Tokenize}
    ensures r.name != "" && r.name != "*"
  {
    if r.table == "" {
      FirstProperly(am, tp, r.name);
    } else {
      FirstProperly([Entry(r.table, Find(am, r.table).value)], tp, r.name);
    }
  }

  lemma {:induction false} FirstProperly(am: AliasMap, tp: TablePolicies, name: string)
    requires NamesProper(tp) && FirstRestricting(am, tp, name).action in {Mask, Tokenize}
    ensures name != "" && name != "*"
  {
    if am[0].key in tp && ActionIn(tp[am[0].key], name) != Allow {
      var d := tp[am[0].key];
      var names := if ActionIn(d, name) == Mask then d.masked else d.tokenized;
      var i :| 0 <= i < |names| && Lower(names[i]) == Lower(name);
      assert names[i] in names;
      SameLower(names[i], name);
    } else {
      FirstProperly(am[1..], tp, name);
    }
  }

  lemma {:induction false} SameLower(c: string, name: string)
    requires Lower(c) == Lower(name) && c != "" && c != "*"
    ensures name != "" && name != "*"
  {
    assert |Lower(c)| == |c| && |Lower(name)| == |name|;
    assert Lower(c)[0] == LowerChar(c[0]);
    assert |c| == 1 ==> c == [c[0]];
  }

  /** A projection that stays with the verdict mask is a column under a name the metadata lists. */
  lemma {:induction false} MaskedIsNamed(m: Meta, t: Select, p: Expr, tp: TablePolicies)
    requires NamesProper(tp) && SettledHere(t, tp) && AllStand(m, VisitEvents(t, tp)) && p in t.projs
    requires SelAliasMap(t, tp) != [] && Judge(Refs(Inner(p)), SelAliasMap(t, tp), tp).action == Mask
    requires p.Alias? ==> p.name != ""
    ensures NamedIn(p, m.masked.Keys)
  {
    var am := SelAliasMap(t, tp);
    SettledNamed(m, t, p, tp);
    var refs := Refs(Inner(p));
    JudgeOne(refs, am, tp);
    ResolvedName(refs[0], am, tp);
    MaskedProperly(refs[0], am, tp);
  }

  lemma {:induction false} TokenizedIsNamed(m: Meta, t: Select, p: Expr, tp: TablePolicies)
    requires NamesProper(tp) && SettledHere(t, tp) && AllStand(m, VisitEvents(t, tp)) && p in t.projs
    requires SelAliasMap(t, tp) != [] && Judge(Refs(Inner(p)), SelAliasMap(t, tp), tp).action == Tokenize
    requires (p.Alias? && p.name != "") || p.Col?
    ensures NamedIn(p, m.tokenized.Keys)
  {
    var am := SelAliasMap(t, tp);
    SettledNamed(m, t, p, tp);
    if p.Col? {
      JudgeOne(Refs(p), am, tp);
      ResolvedName(Refs(p)[0], am, tp);
      MaskedProperly(Refs(p)[0], am, tp);
    }
  }

  lemma {:induction false} TokensStayAliased(ps: seq<Expr>, am: AliasMap, tp: TablePolicies)
    requires TokensAliased(ps, am, tp)
    ensures TokensAliased(RewriteProjs(ExpandStars(ps, am, tp), am, tp), am, tp)
  {
    var qs := ExpandStars(ps, am, tp);
    ExpandStarsFrom(ps, am, tp);
    forall i | 0 <= i < |qs| && Judge(Refs(Inner(RewriteProj(qs[i], am, tp))), am, tp).action == Tokenize
      ensures RewriteProj(qs[i], am, tp).Alias? || PlainColumn(RewriteProj(qs[i], am, tp))
    {
      assert qs[i] in qs && Judge(Refs(Inner(Nulled(OutName(qs[i])))), am, tp) == NoVerdict;
    }
  }

  /** A projection either is named in the metadata or reads no column that is withheld. */
  lemma {:induction false} NamedOrBlind(m: Meta, s: Select, r: Select, tp: TablePolicies, db: Database, sub: Results,
                                        p: Expr, tok: bool)
    requires NamesProper(tp) && AliasesClear(s.sources) && FitsSources(s.sources, Strict(tp, tok), db)
    requires r.sources == s.sources && SettledHere(r, tp) && AllStand(m, VisitEvents(r, tp)) && p in r.projs
    requires TameProj(p, s.sources, Strict(tp, tok), db) && (p.Alias? ==> p.name != "")
    requires tok ==> TokensAliased(r.projs, SelAliasMap(r, tp), tp)
    ensures var scope := ScopeOf(db, sub, s.sources);
            NamedIn(p, NamedBy(m, tok)) || BlindProj(scope, HiddenIn(scope, s.sources, Strict(tp, tok)), p)
  {
    var am, scope := SelAliasMap(r, tp), ScopeOf(db, sub, s.sources);
    StrictAliases(s.sources, tp, tok);
    if am == [] {
      NoPolicyNothingHidden(s, Strict(tp, tok), scope);
    } else if p.Star? || p.QualStar? {
      StrictStar(p, am, tp, tok);
      StarIsBlind(s, Strict(tp, tok), db, sub, p);
    } else if Judge(Refs(Inner(p)), am, tp).action == Mask {
      MaskedIsNamed(m, r, p, tp);
    } else if tok && Judge(Refs(Inner(p)), am, tp).action == Tokenize {
      TokenizedIsNamed(m, r, p, tp);
    } else {
      UnmaskedReads(p, am, tp, tok);
      NoDenyIsBlind(s, Strict(tp, tok), db, sub, p);
    }
  }

  lemma {:induction false} UnmaskedReads(p: Expr, am: AliasMap, tp: TablePolicies, tok: bool)
    requires Keeps(p, am, tp) && Harden(Judge(Refs(Inner(p)), am, tp).action, tok) != Deny
    ensures NoDeny(p, am, Strict(tp, tok))
  {
    DirectIsRef(Inner(p));
    assert Direct(p) == Direct(Inner(p));
    forall r | r in Direct(p)
      ensures Resolve(r, am, Strict(tp, tok)).action != Deny
    {
      JudgeMember(Refs(Inner(p)), r, am, tp);
      StrictResolve(r, am, tp, tok);
    }
  }

  // ----- rows that agree but for named columns -----

  predicate RowsMatch(names: set<string>, cols: seq<string>, r: Row, r': Row) {
    |r| == |r'| == |cols| && forall j | 0 <= j < |cols| && cols[j] !in names :: r[j] == r'[j]
  }

  predicate Matches(names: set<string>, out: Relation, out': Relation) {
    && out.cols == out'.cols && |out.rows| == |out'.rows|
    && forall i | 0 <= i < |out.rows| ::
      RowsMatch(names, out.cols, out.rows[i], out'.rows[i]) || out.rows[i] == out'.rows[i]
  }

  /** Every row of the tuple is as wide as its source's heading. */
  predicate Fits(scope: Scope, t: Tuple) {
    |t| == |scope| && forall i | 0 <= i < |t| :: |t[i]| == |scope[i].cols|
  }

  lemma {:induction false} StarWidth(scope: Scope, t: Tuple, table: Option<string>)
    requires Fits(scope, t)
    ensures |StarRow(scope, t, table)| == |StarCols(scope, table)|
  {
    if scope != [] { StarWidth(scope[1..], t[1..], table); }
  }

  lemma {:induction false} ValuesMatch(E: Engine, sub: Results, scope: Scope, hid: Hidden, g: Group, g': Group, p: Expr,
                                       names: set<string>)
    requires GroupAlike(hid, g, g') && g != [] && Fits(scope, g[0]) && Kids(p) == []
    requires NamedIn(p, names) || BlindProj(scope, hid, p)
    ensures RowsMatch(names, OutNames(scope, p), OutValues(E, sub, scope, g, p), OutValues(E, sub, scope, g', p))
  {
    if BlindProj(scope, hid, p) {
      ApplyNothing(p, map[]);
      OutValuesCong(E, sub, sub, map[], scope, hid, g, g', p);
    }
    if p.Star? { StarWidth(scope, g[0], None); }
    if p.QualStar? { StarWidth(scope, g[0], Some(p.table)); }
  }

  lemma {:induction false} MatchConcat(names: set<string>, c: seq<string>, d: seq<string>, a: Row, a': Row, b: Row,
                                       b': Row)
    requires RowsMatch(names, c, a, a') && RowsMatch(names, d, b, b')
    ensures RowsMatch(names, c + d, a + b, a' + b')
  {
  }

  lemma {:induction false} OutRowMatches(E: Engine, sub: Results, scope: Scope, hid: Hidden, g: Group, g': Group,
                                         ps: seq<Expr>, names: set<string>)
    requires GroupAlike(hid, g, g') && g != [] && Fits(scope, g[0]) && KidsL(ps) == []
    requires forall p | p in ps :: NamedIn(p, names) || BlindProj(scope, hid, p)
    ensures RowsMatch(names, OutCols(scope, ps), OutRow(E, sub, scope, g, ps), OutRow(E, sub, scope, g', ps))
  {
    if ps != [] {
      assert ps[0] in ps && forall p | p in ps[1..] :: p in ps;
      ValuesMatch(E, sub, scope, hid, g, g', ps[0], names);
      OutRowMatches(E, sub, scope, hid, g, g', ps[1..], names);
      MatchConcat(names, OutNames(scope, ps[0]), OutCols(scope, ps[1..]),
                  OutValues(E, sub, scope, g, ps[0]), OutValues(E, sub, scope, g', ps[0]),
                  OutRow(E, sub, scope, g, ps[1..]), OutRow(E, sub, scope, g', ps[1..]));
    }
  }

  // ----- the tuples that groups are made of -----

  lemma {:induction false} PickMembers<T>(xs: seq<T>, at: seq<nat>)
    ensures forall x | x in Pick(xs, at) :: x in xs
  {
    if at != [] { PickMembers(xs, at[1..]); }
  }

  lemma {:induction false} KeptMembers(E: Engine, sub: Results, scope: Scope, s: Select, ts: seq<Tuple>)
    ensures forall t | t in Kept(E, sub, scope, s, ts) :: t in ts
  {
    if ts != [] { KeptMembers(E, sub, scope, s, ts[1..]); }
  }

  lemma {:induction false} GroupedMembers(E: Engine, sub: Results, scope: Scope, s: Select, ts: seq<Tuple>)
    ensures forall g, t | g in Grouped(E, sub, scope, s, ts) && t in g :: t in ts
  {
    if s.group != [] {
      var parts := E.groups(GroupKeys(E, sub, scope, s.group, ts));
      forall i | 0 <= i < |parts| { PickMembers(ts, parts[i]); }
    }
  }

  lemma {:induction false} HavingMembers(E: Engine, sub: Results, scope: Scope, having: Option<Expr>, gs: seq<Group>)
    ensures forall g | g in Having(E, sub, scope, having, gs) :: g in gs
  {
    if gs != [] { HavingMembers(E, sub, scope, having, gs[1..]); }
  }

  /** The groups that a SELECT computes its rows from. */
  ghost function Ending(E: Engine, sub: Results, scope: Scope, s: Select, ts: seq<Tuple>): seq<Group> {
    Ordered(E, sub, scope, s.order, Having(E, sub, scope, s.having, Grouped(E, sub, scope, s, ts)))
  }

  lemma {:induction false} EndingMembers(E: Engine, sub: Results, scope: Scope, s: Select, ts: seq<Tuple>)
    ensures forall g, t | g in Ending(E, sub, scope, s, ts) && t in g :: t in ts
  {
    var gs := Grouped(E, sub, scope, s, ts);
    var hs := Having(E, sub, scope, s.having, gs);
    GroupedMembers(E, sub, scope, s, ts);
    HavingMembers(E, sub, scope, s.having, gs);
    if s.order != [] { PickMembers(hs, E.order(OrderKeys(E, sub, scope, s.order, hs))); }
  }

  lemma {:induction false} ProductMembers(rows: seq<Row>, ts: seq<Tuple>)
    ensures forall t | t in Product(rows, ts) :: t != [] && t[0] in rows && t[1..] in ts
  {
    if rows != [] {
      ProductMembers(rows[1..], ts);
      forall t | t in Prepend(rows[0], ts)
        ensures t != [] && t[0] in rows && t[1..] in ts
      {
        var i :| 0 <= i < |ts| && t == [rows[0]] + ts[i];
        assert t[1..] == ts[i];
      }
    }
  }

  lemma {:induction false} CrossMembers(lists: seq<seq<Row>>, t: Tuple)
    requires t in Cross(lists)
    ensures |t| == |lists| && forall i | 0 <= i < |t| :: t[i] in lists[i]
    decreases |lists|
  {
    if lists != [] {
      ProductMembers(lists[0], Cross(lists[1..]));
      CrossMembers(lists[1..], t[1..]);
      assert forall i | 0 < i < |t| :: t[i] == t[1..][i - 1] && lists[i] == lists[1..][i - 1];
    }
  }

  predicate AllRectangular(db: Database) {
    forall n | n in db :: Rectangular(db[n])
  }

  lemma {:induction false} TuplesFit(db: Database, sub: Results, ss: seq<Source>)
    requires AllRectangular(db) && forall i | 0 <= i < |ss| :: ss[i].Table?
    ensures forall t | t in Cross(RowLists(db, sub, ss)) :: Fits(ScopeOf(db, sub, ss), t)
  {
    var lists, scope := RowLists(db, sub, ss), ScopeOf(db, sub, ss);
    forall t | t in Cross(lists)
      ensures Fits(scope, t)
    {
      CrossMembers(lists, t);
      forall i | 0 <= i < |t|
        ensures |t[i]| == |scope[i].cols|
      {
        var j :| 0 <= j < |lists[i]| && lists[i][j] == t[i];
        assert ss[i].name in db;
      }
    }
  }

  // ----- one SELECT -----

  lemma {:induction false} EndingAlike(E: Engine, sub: Results, scope: Scope, hid: Hidden, r: Select, ts: seq<Tuple>,
                                       ts': seq<Tuple>)
    requires GroupAlike(hid, ts, ts') && SelKids(r) == []
    requires BlindL(scope, hid, r.group) && BlindO(scope, hid, r.having) && BlindL(scope, hid, r.order)
    ensures GroupsAlike(hid, Ending(E, sub, scope, r, ts), Ending(E, sub, scope, r, ts'))
  {
    var gs, gs' := Grouped(E, sub, scope, r, ts), Grouped(E, sub, scope, r, ts');
    SelApplyNothing(r, map[]);
    GroupedCong(E, sub, sub, map[], scope, hid, r, ts, ts');
    HavingCong(E, sub, sub, map[], scope, hid, r.having, gs, gs');
    OrderedCong(E, sub, sub, map[], scope, hid, r.order, Having(E, sub, scope, r.having, gs),
                Having(E, sub, scope, r.having, gs'));
  }

  lemma {:induction false} RowMatches(E: Engine, sub: Results, scope: Scope, hid: Hidden, g: Group, g': Group,
                                      ps: seq<Expr>, names: set<string>)
    requires GroupAlike(hid, g, g') && (forall t | t in g :: Fits(scope, t)) && KidsL(ps) == []
    requires forall p | p in ps :: NamedIn(p, names) || BlindProj(scope, hid, p)
    ensures var r, r' := OutRow(E, sub, scope, g, ps), OutRow(E, sub, scope, g', ps);
            RowsMatch(names, OutCols(scope, ps), r, r') || r == r'
  {
    if g == [] { assert g' == []; } else { assert g[0] in g; OutRowMatches(E, sub, scope, hid, g, g', ps, names); }
  }

  lemma {:induction false} PickMatches(names: set<string>, cols: seq<string>, rows: seq<Row>, rows': seq<Row>,
                                       at: seq<nat>)
    requires |rows| == |rows'|
    requires forall i | 0 <= i < |rows| :: RowsMatch(names, cols, rows[i], rows'[i]) || rows[i] == rows'[i]
    ensures Matches(names, Relation(cols, Pick(rows, at)), Relation(cols, Pick(rows', at)))
  {
    if at != [] { PickMatches(names, cols, rows, rows', at[1..]); }
  }

  lemma {:induction false} FinishMatches(E: Engine, at: nat -> seq<nat>, sub: Results, scope: Scope, hid: Hidden,
                                         r: Select, ts: seq<Tuple>, ts': seq<Tuple>, names: set<string>)
    requires GroupAlike(hid, ts, ts') && SelKids(r) == [] && PicksBy(E, r.tail, at)
    requires BlindL(scope, hid, r.group) && BlindO(scope, hid, r.having) && BlindL(scope, hid, r.order)
    requires forall p | p in r.projs :: NamedIn(p, names) || BlindProj(scope, hid, p)
    requires forall t | t in ts :: Fits(scope, t)
    ensures Matches(names, Finish(E, sub, scope, r, ts), Finish(E, sub, scope, r, ts'))
  {
    var os, os' := Ending(E, sub, scope, r, ts), Ending(E, sub, scope, r, ts');
    EndingAlike(E, sub, scope, hid, r, ts, ts');
    EndingMembers(E, sub, scope, r, ts);
    assert KidsL(r.projs) == [] by {
      assert forall k | k in KidsL(r.projs) :: k in SelKids(r);
      EmptyOrInhabited(KidsL(r.projs));
    }
    var rows, rows' := OutRows(E, sub, scope, r.projs, os), OutRows(E, sub, scope, r.projs, os');
    forall i | 0 <= i < |os|
      ensures RowsMatch(names, OutCols(scope, r.projs), rows[i], rows'[i]) || rows[i] == rows'[i]
    {
      assert os[i] in os;
      RowMatches(E, sub, scope, hid, os[i], os'[i], r.projs, names);
    }
    PickMatches(names, OutCols(scope, r.projs), rows, rows', at(|rows|));
  }

  // ----- the theorem -----

  /**
   Served on databases that differ in denied and masked columns, and if `tok` in tokenized ones, the query
   differs only under names the metadata lists.
   */
  ghost predicate ShowsOnlyNamed(E: Engine, tp: TablePolicies, n: string, s: Select, tok: bool)
    requires n in tp
  {
    forall db, db' | AgreeOutsideDenied(Strict(tp, tok), db, db') && FitsTable(tp[n], ColsOf(db, n)) ::
      Matches(NamedBy(RecordAll(EmptyMeta, RewriteEvents(s, tp)), tok), Meaning(E, db, Served(s, tp)),
              Meaning(E, db', Served(s, tp)))
  }

  lemma {:induction false} AliasesStayNamed(ps: seq<Expr>, am: AliasMap, tp: TablePolicies)
    requires AliasesNamed(ps)
    ensures AliasesNamed(RewriteProjs(ExpandStars(ps, am, tp), am, tp))
  {
    var qs := ExpandStars(ps, am, tp);
    ExpandStarsFrom(ps, am, tp);
    forall i | 0 <= i < |qs|
      ensures RewriteProj(qs[i], am, tp).Alias? ==> RewriteProj(qs[i], am, tp).name != ""
    {
      assert qs[i] in qs;
    }
  }

  /** What the clauses of the served SELECT read, and that its projections are named or blind. */
  ghost predicate ServedBlind(r: Select, scope: Scope, hid: Hidden, names: set<string>) {
    && BlindL(scope, hid, r.ons) && BlindO(scope, hid, r.where)
    && BlindL(scope, hid, r.group) && BlindO(scope, hid, r.having) && BlindL(scope, hid, r.order)
    && forall p | p in r.projs :: NamedIn(p, names) || BlindProj(scope, hid, p)
  }

  lemma {:induction false} StrippedParts(s: Select, tp: TablePolicies)
    ensures var r, t := StripInference(Visit(s, tp), tp), StripInference(s, tp);
            && r.projs == Visit(s, tp).projs && r.where == Visit(s, tp).where
            && r.sources == s.sources && r.ons == s.ons
            && r.group == s.group && r.having == t.having && r.order == t.order && r.tail == s.tail
    ensures forall e | e in StripInference(s, tp).order :: e in s.order
    ensures StripInference(s, tp).having.Some? ==> StripInference(s, tp).having == s.having
  {
    WithoutNamesKeeps(s.order, AllDenied(tp));
  }

  lemma {:induction false} ServedClauses(s: Select, tp: TablePolicies, db: Database, sub: Results, tok: bool)
    requires OverTables(s, tp, db, tok) && FiltersReadable(Strict(tp, tok))
    ensures var r, scope := StripInference(Visit(s, tp), tp), ScopeOf(db, sub, s.sources);
            var hid := HiddenIn(scope, s.sources, Strict(tp, tok));
            && BlindL(scope, hid, r.ons) && BlindO(scope, hid, r.where)
            && BlindL(scope, hid, r.group) && BlindO(scope, hid, r.having) && BlindL(scope, hid, r.order)
  {
    var r, st := StripInference(Visit(s, tp), tp), Strict(tp, tok);
    StrictAliases(s.sources, tp, tok);
    StrippedParts(s, tp);
    VisitedReads(s, tp, db, tok);
    NoDenyLIsBlind(s, st, db, sub, s.ons);
    NoDenyLIsBlind(s, st, db, sub, s.group);
    NoDenyLIsBlind(s, st, db, sub, r.order);
    if r.where.Some? { NoDenyIsBlind(s, st, db, sub, r.where.value); }
    if r.having.Some? { NoDenyIsBlind(s, st, db, sub, r.having.value); }
  }

  lemma {:induction false} ServedProjs(m: Meta, s: Select, tp: TablePolicies, db: Database, sub: Results, tok: bool)
    requires OverTables(s, tp, db, tok) && FiltersReadable(Strict(tp, tok)) && NamesProper(tp)
    requires SettledHere(Visit(s, tp), tp) && AllStand(m, VisitEvents(Visit(s, tp), tp))
    ensures var r, scope := Visit(s, tp), ScopeOf(db, sub, s.sources);
            forall p | p in r.projs ::
              NamedIn(p, NamedBy(m, tok)) || BlindProj(scope, HiddenIn(scope, s.sources, Strict(tp, tok)), p)
  {
    var r := Visit(s, tp);
    VisitedReads(s, tp, db, tok);
    if SelAliasMap(s, tp) != [] {
      AliasesStayNamed(s.projs, SelAliasMap(s, tp), tp);
      if tok { TokensStayAliased(s.projs, SelAliasMap(s, tp), tp); }
    }
    forall p | p in r.projs { NamedOrBlind(m, s, r, tp, db, sub, p, tok); }
  }

  /**
   For a SELECT over tables, served on two databases that differ only in denied and masked columns, and
   if `tok` in tokenized ones: the headings and the number of rows are the same, and the rows agree in
   every column that the metadata does not name as masked or, if `tok`, as tokenized.
   */
  lemma {:induction false} MaskedShowOnlyNamed(E: Engine, at: nat -> seq<nat>, tp: TablePolicies, db: Database,
                                               db': Database, s: Select, tok: bool)
    requires OverTables(s, tp, db, tok) && FiltersReadable(Strict(tp, tok)) && NamesProper(tp)
    requires AgreeOutsideDenied(Strict(tp, tok), db, db') && AllRectangular(db) && PicksBy(E, s.tail, at)
    ensures Matches(NamedBy(RecordAll(EmptyMeta, RewriteEvents(s, tp)), tok),
                    Meaning(E, db, Served(s, tp)), Meaning(E, db', Served(s, tp)))
  {
    var m, r := RecordAll(EmptyMeta, RewriteEvents(s, tp)), StripInference(Visit(s, tp), tp);
    ServedIsVisited(s, tp);
    RewriteLeavesStanding(EmptyMeta, s, tp);
    VisitSettlesHere(s, tp);
    StrippedParts(s, tp);
    ServedIsLeaf(s, tp);
    ServedClauses(s, tp, db, map[], tok);
    ServedProjs(m, s, tp, db, map[], tok);
    LeafRuns(E, db, r);
    LeafRuns(E, db', r);
    RunMatches(E, at, Strict(tp, tok), db, db', r, NamedBy(m, tok));
  }

  lemma {:induction false} ServedIsLeaf(s: Select, tp: TablePolicies)
    requires SelKids(s) == []
    ensures SelKids(StripInference(Visit(s, tp), tp)) == []
  {
    VisitKids(s, tp);
    StripKids(Visit(s, tp), tp);
    EmptyOrInhabited(SelKids(StripInference(Visit(s, tp), tp)));
  }

  lemma {:induction false} LeafRuns(E: Engine, db: Database, r: Select)
    requires SelKids(r) == []
    ensures Meaning(E, db, r) == Run(E, db, map[], r)
  {
    MeaningUnfolds(E, db, r);
    assert KidResults(E, db, r) == map[];
  }

  lemma {:induction false} RunMatches(E: Engine, at: nat -> seq<nat>, st: TablePolicies, db: Database, db': Database,
                                      r: Select, names: set<string>)
    requires AgreeOutsideDenied(st, db, db') && AllRectangular(db) && SelKids(r) == [] && PicksBy(E, r.tail, at)
    requires var scope := ScopeOf(db, map[], r.sources); ServedBlind(r, scope, HiddenIn(scope, r.sources, st), names)
    ensures Matches(names, Run(E, db, map[], r), Run(E, db', map[], r))
  {
    var sub: Results := map[];
    var scope := ScopeOf(db, sub, r.sources);
    var hid := HiddenIn(scope, r.sources, st);
    var ts, ts' := Cross(RowLists(db, sub, r.sources)), Cross(RowLists(db', sub, r.sources));
    TuplesOfBoth(st, db, db', sub, r.sources);
    SelApplyNothing(r, map[]);
    forall i | 0 <= i < |ts| { PassesCong(E, sub, sub, map[], scope, hid, r, ts[i], ts'[i]); }
    KeptCong(E, sub, sub, scope, hid, r, r, ts, ts');
    NoDerived(r);
    TuplesFit(db, sub, r.sources);
    KeptMembers(E, sub, scope, r, ts);
    FinishMatches(E, at, sub, scope, hid, r, Kept(E, sub, scope, r, ts), Kept(E, sub, scope, r, ts'), names);
  }

  lemma {:induction false} NoDerived(r: Select)
    requires SelKids(r) == []
    ensures forall i | 0 <= i < |r.sources| :: r.sources[i].Table?
  {
    assert forall i | 0 <= i < |r.sources| && r.sources[i].Derived? :: r.sources[i].query in SelKids(r);
  }
}
