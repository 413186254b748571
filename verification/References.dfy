/**
 Source names and references.  The alias map is keyed by names as they are spelled, while a
 database reads them in any letter case: which decision a qualifier stands for and when it
 stands for none.  The rewriter knows columns only, while a name can stand for a whole row:
 which references are tame, and that rewriting writes only tame ones.
 */
module References {
  import opened Wrappers
  import opened Text
  import opened Policies
  import opened SqlSyntax
  import opened Rewriter
  import opened VisitFacts
  import opened Semantics
  import opened Congruence

  // ----- the alias map in terms of the sources -----

  /** Source `i` is a table governed by the decision stored under `key`. */
  predicate Governed(ss: seq<Source>, i: nat, key: string, tp: TablePolicies) {
    i < |ss| && ss[i].Table? && PolicyKey(tp, ss[i].name) == Some(key)
  }

  /** Every entry comes from a governed source, under its alias or its table name. */
  lemma {:induction false} EntryHasSource(ss: seq<Source>, tp: TablePolicies, e: Entry) returns (k: nat)
    requires e in BuildAliasMap(ss, tp)
    ensures Governed(ss, k, e.key, tp) && (e.alias == BindName(ss[k]) || e.alias == ss[k].name)
  {
    var n := |ss| - 1;
    var am, src := BuildAliasMap(ss[..n], tp), ss[n];
    if e in am {
      k := EntryHasSource(ss[..n], tp, e);
    } else {
      k := n;
      var key := PolicyKey(tp, src.name).value;
      AssignMembers(am, BindName(src), key);
      AssignMembers(Assign(am, BindName(src), key), src.name, key);
    }
  }

  /** Every governed source is found under its alias and under its table name. */
  lemma {:induction false} SourceIsFound(ss: seq<Source>, tp: TablePolicies, i: nat, name: string)
    requires i < |ss| && Binds(ss[i], tp, name)
    ensures Find(BuildAliasMap(ss, tp), name).Some?
  {
    var n := |ss| - 1;
    var am, src := BuildAliasMap(ss[..n], tp), ss[n];
    if i < n { SourceIsFound(ss[..n], tp, i, name); }
    if src.Table? && PolicyKey(tp, src.name).Some? {
      var k := PolicyKey(tp, src.name).value;
      FindAssigned(am, BindName(src), k, name);
      FindAssigned(Assign(am, BindName(src), k), src.name, k, name);
    }
  }

  // ----- names up to letter case -----

  predicate SameName(a: string, b: string) {
    Lower(a) == Lower(b)
  }

  /** Sources are told apart by name, and a table name used as another's alias means the same table. */
  predicate AliasesClear(ss: seq<Source>) {
    && (forall i | 0 <= i < |ss| && ss[i].Table? :: ss[i].name != "")
    && (forall i, k | 0 <= i < |ss| && 0 <= k < |ss| && i != k ::
          && !SameName(BindName(ss[i]), BindName(ss[k]))
          && (ss[k].Table? && SameName(ss[k].name, BindName(ss[i])) ==> ss[i].Table? && ss[i].name == ss[k].name))
  }

  /** The qualifier spells the name of the table, or the alias it is given, letter by letter. */
  predicate SpelledAs(q: string, src: Source) {
    q == BindName(src) || (src.Table? && q == src.name)
  }

  /**
   Of the names that mean a governed source to a database, those spelled as the source is stand for
   its decision and the others for none.
   */
  lemma {:induction false} QualifierFinds(ss: seq<Source>, tp: TablePolicies, i: nat, key: string, q: string)
    requires AliasesClear(ss) && Governed(ss, i, key, tp) && SameName(q, BindName(ss[i]))
    ensures Find(BuildAliasMap(ss, tp), q) == if SpelledAs(q, ss[i]) then Some(key) else None
  {
    var am := BuildAliasMap(ss, tp);
    if SpelledAs(q, ss[i]) { SourceIsFound(ss, tp, i, q); }
    if Find(am, q).Some? {
      FindEntry(am, q);
      var k := EntryHasSource(ss, tp, Entry(q, Find(am, q).value));
    }
  }

  // ----- decisions and databases -----

  function ColsOf(db: Database, name: string): seq<string> {
    if name in db then db[name].cols else []
  }

  /** The decision names only columns of the table, in its row filters too, and knows exactly those. */
  predicate FitsTable(d: Decision, cols: seq<string>) {
    && (forall c | c in d.denied + d.masked + d.tokenized :: ListedAnyCase(c, cols))
    && (forall c | c in cols :: c in d.known)
    && (forall c | c in d.known :: ListedAnyCase(c, cols))
    && (forall f | f in d.filters && f.column != "" :: ListedAnyCase(f.column, cols))
  }

  predicate FitsSources(ss: seq<Source>, tp: TablePolicies, db: Database) {
    forall i | 0 <= i < |ss| && ss[i].Table? && PolicyKey(tp, ss[i].name).Some? ::
      FitsTable(tp[PolicyKey(tp, ss[i].name).value], ColsOf(db, ss[i].name))
  }

  predicate Withheld(tp: TablePolicies, name: string, col: string) {
    PolicyKey(tp, name).Some? && ListedAnyCase(col, WithheldColumns(tp[PolicyKey(tp, name).value]))
  }

  // ----- tame references -----

  /** A qualifier that means a governed source to a database is spelled as the source is. */
  predicate Spelled(q: string, ss: seq<Source>, tp: TablePolicies) {
    forall i | 0 <= i < |ss| && ss[i].Table? && PolicyKey(tp, ss[i].name).Some? && SameName(q, BindName(ss[i])) ::
      SpelledAs(q, ss[i])
  }

  /** Source `i` is a table with a withheld column. */
  predicate Secretive(ss: seq<Source>, i: nat, tp: TablePolicies, db: Database) {
    i < |ss| && ss[i].Table? && exists c | c in ColsOf(db, ss[i].name) :: Withheld(tp, ss[i].name, c)
  }

  /** The row, or the rows, so named hold no withheld column. */
  predicate RowTame(table: Option<string>, ss: seq<Source>, tp: TablePolicies, db: Database) {
    forall i: nat | i < |ss| && Secretive(ss, i, tp, db) :: !Covers(table, BindName(ss[i]))
  }

  /** A table among the sources has a column that answers the reference. */
  predicate OfTable(r: Ref, ss: seq<Source>, db: Database) {
    exists k | 0 <= k < |ss| ::
      ss[k].Table? && (r.table == "" || SameName(r.table, BindName(ss[k])))
      && ListedAnyCase(r.name, ColsOf(db, ss[k].name))
  }

  /** Spelled as its source, and a column, or else a row without secrets. */
  predicate TameRef(r: Ref, ss: seq<Source>, tp: TablePolicies, db: Database) {
    Spelled(r.table, ss, tp) && (OfTable(r, ss, db) || RowTame(Some(RowSource(r)), ss, tp, db))
  }

  predicate TameE(e: Expr, ss: seq<Source>, tp: TablePolicies, db: Database) {
    && (forall r | r in Direct(e) :: TameRef(r, ss, tp, db))
    && (forall table | table in Stars(e) :: RowTame(table, ss, tp, db))
  }

  /** Of a star that is a whole projection, which will be expanded, only the spelling matters. */
  predicate TameProj(p: Expr, ss: seq<Source>, tp: TablePolicies, db: Database) {
    match p
    case Star => true
    case QualStar(t) => Spelled(t, ss, tp)
    case _ => TameE(p, ss, tp, db)
  }

  predicate TameL(es: seq<Expr>, ss: seq<Source>, tp: TablePolicies, db: Database) {
    forall e | e in es :: TameE(e, ss, tp, db)
  }

  predicate TameO(o: Option<Expr>, ss: seq<Source>, tp: TablePolicies, db: Database) {
    o.Some? ==> TameE(o.value, ss, tp, db)
  }

  predicate TameProjs(ps: seq<Expr>, ss: seq<Source>, tp: TablePolicies, db: Database) {
    forall p | p in ps :: TameProj(p, ss, tp, db)
  }

  /** Every reference of the SELECT is tame, whatever the clause. */
  predicate Tame(s: Select, tp: TablePolicies, db: Database) {
    && TameProjs(s.projs, s.sources, tp, db)
    && TameL(s.ons, s.sources, tp, db) && TameO(s.where, s.sources, tp, db) && TameL(s.group, s.sources, tp, db)
    && TameO(s.having, s.sources, tp, db) && TameL(s.order, s.sources, tp, db)
  }

  // ----- replacing nested SELECTs -----

  lemma {:induction false} DirectApply(e: Expr, m: Subst)
    ensures Direct(Apply(e, m)) == Direct(e) && Stars(Apply(e, m)) == Stars(e)
  {
    match e
    case Op(_, l, r) => DirectApply(l, m); DirectApply(r, m);
    case And(l, r) => DirectApply(l, m); DirectApply(r, m);
    case InList(a, _) => DirectApply(a, m);
    case Agg(_, a) => DirectApply(a, m);
    case Sub(_, a, _) => DirectApply(a, m);
    case Alias(a, _) => DirectApply(a, m);
    case _ =>
  }

  predicate SameBindings(ss: seq<Source>, ts: seq<Source>) {
    && |ss| == |ts|
    && forall i | 0 <= i < |ss| ::
      ts[i].Table? == ss[i].Table? && BindName(ts[i]) == BindName(ss[i]) && (ss[i].Table? ==> ts[i] == ss[i])
  }

  lemma {:induction false} BindingsApply(ss: seq<Source>, m: Subst)
    ensures SameBindings(ss, ApplyS(ss, m))
  {
  }

  lemma {:induction false} RowTameBindings(table: Option<string>, ss: seq<Source>, ts: seq<Source>, tp: TablePolicies,
                                           db: Database)
    requires SameBindings(ss, ts) && RowTame(table, ss, tp, db)
    ensures RowTame(table, ts, tp, db)
  {
    forall i: nat | i < |ts| && Secretive(ts, i, tp, db)
      ensures !Covers(table, BindName(ts[i]))
    {
      assert Secretive(ss, i, tp, db);
    }
  }

  lemma {:induction false} TameBindings(r: Ref, ss: seq<Source>, ts: seq<Source>, tp: TablePolicies, db: Database)
    requires SameBindings(ss, ts) && TameRef(r, ss, tp, db)
    ensures TameRef(r, ts, tp, db)
  {
    if !OfTable(r, ss, db) { RowTameBindings(Some(RowSource(r)), ss, ts, tp, db); }
  }

  lemma {:induction false} TameApply(e: Expr, m: Subst, ss: seq<Source>, ts: seq<Source>, tp: TablePolicies,
                                     db: Database)
    requires SameBindings(ss, ts) && TameE(e, ss, tp, db)
    ensures TameE(Apply(e, m), ts, tp, db)
  {
    DirectApply(e, m);
    forall r | r in Direct(e) { TameBindings(r, ss, ts, tp, db); }
    forall table | table in Stars(e) { RowTameBindings(table, ss, ts, tp, db); }
  }

  lemma {:induction false} TameApplyL(es: seq<Expr>, m: Subst, ss: seq<Source>, ts: seq<Source>, tp: TablePolicies,
                                      db: Database)
    requires SameBindings(ss, ts) && TameL(es, ss, tp, db)
    ensures TameL(ApplyL(es, m), ts, tp, db)
  {
    forall i | 0 <= i < |es|
      ensures TameE(ApplyL(es, m)[i], ts, tp, db)
    {
      assert es[i] in es;
      TameApply(es[i], m, ss, ts, tp, db);
    }
  }

  lemma {:induction false} TameApplyProjs(ps: seq<Expr>, m: Subst, ss: seq<Source>, ts: seq<Source>, tp: TablePolicies,
                                          db: Database)
    requires SameBindings(ss, ts) && TameProjs(ps, ss, tp, db)
    ensures TameProjs(ApplyL(ps, m), ts, tp, db)
  {
    forall i | 0 <= i < |ps|
      ensures TameProj(ApplyL(ps, m)[i], ts, tp, db)
    {
      assert ps[i] in ps && ApplyL(ps, m)[i] == Apply(ps[i], m);
      if !ps[i].Star? && !ps[i].QualStar? { TameApply(ps[i], m, ss, ts, tp, db); }
    }
  }

  lemma {:induction false} TameSelApply(s: Select, m: Subst, tp: TablePolicies, db: Database)
    requires Tame(s, tp, db)
    ensures Tame(SelApply(s, m), tp, db)
  {
    var ss, ts := s.sources, ApplyS(s.sources, m);
    BindingsApply(ss, m);
    TameApplyProjs(s.projs, m, ss, ts, tp, db);
    TameApplyL(s.ons, m, ss, ts, tp, db);
    TameApplyL(s.group, m, ss, ts, tp, db);
    TameApplyL(s.order, m, ss, ts, tp, db);
    if s.where.Some? { TameApply(s.where.value, m, ss, ts, tp, db); }
    if s.having.Some? { TameApply(s.having.value, m, ss, ts, tp, db); }
  }

  // ----- a visit -----

  lemma {:induction false} FilterDirect(alias: string, f: RowFilter)
    ensures Direct(FilterExpr(alias, f)) == [Ref(alias, f.column)] && Stars(FilterExpr(alias, f)) == []
  {
    assert Direct(Lit(f.value)) == [] && Stars(Lit(f.value)) == [];
    assert Direct(Col(alias, f.column)) == [Ref(alias, f.column)] && Stars(Col(alias, f.column)) == [];
  }

  lemma {:induction false} UnqualifiedSpelled(ss: seq<Source>, tp: TablePolicies)
    requires AliasesClear(ss)
    ensures Spelled("", ss, tp)
  {
    assert forall s: string :: |Lower(s)| == |s|;
  }

  lemma {:induction false} ColumnOf(r: Ref, ss: seq<Source>, db: Database, k: nat)
    requires k < |ss| && ss[k].Table? && (r.table == "" || SameName(r.table, BindName(ss[k])))
    requires ListedAnyCase(r.name, ColsOf(db, ss[k].name))
    ensures OfTable(r, ss, db)
  {
  }

  /** A column that a decision knows or filters on, under a name of a source it governs. */
  lemma {:induction false} GovernedTame(r: Ref, ss: seq<Source>, tp: TablePolicies, db: Database, k: nat, key: string)
    requires AliasesClear(ss) && FitsSources(ss, tp, db) && Governed(ss, k, key, tp) && SpelledAs(r.table, ss[k])
    requires ListedAnyCase(r.name, ColsOf(db, ss[k].name)) && r.table != ""
    ensures TameRef(r, ss, tp, db)
  {
    if SameName(r.table, BindName(ss[k])) {
      ColumnOf(r, ss, db, k);
    } else if i :| 0 <= i < |ss| && SameName(r.table, BindName(ss[i])) {
      assert ss[i].Table? && ss[i].name == ss[k].name;
      ColumnOf(r, ss, db, i);
    } else {
      assert RowTame(Some(RowSource(r)), ss, tp, db);
    }
  }

  /** An injected condition uses a column of a governed source, under a name as it is spelled. */
  lemma {:induction false} FilterTame(s: Select, tp: TablePolicies, db: Database, c: Expr)
    requires AliasesClear(s.sources) && FitsSources(s.sources, tp, db) && c in SelConditions(s, tp)
    ensures TameE(c, s.sources, tp, db)
  {
    ConditionsAreFilters(SelAliasMap(s, tp), tp, {});
    var e, f :| e in SelAliasMap(s, tp) && f in FiltersOf(tp, e.key) && f.column != "" && c == FilterExpr(e.alias, f);
    var k := EntryHasSource(s.sources, tp, e);
    FilterDirect(e.alias, f);
    NamesFilled(s.sources, k);
    GovernedTame(Ref(e.alias, f.column), s.sources, tp, db, k, e.key);
  }

  lemma {:induction false} NamesFilled(ss: seq<Source>, k: nat)
    requires AliasesClear(ss) && k < |ss| && ss[k].Table?
    ensures ss[k].name != "" && BindName(ss[k]) != ""
  {
  }

  lemma {:induction false} ConjoinTame(cs: seq<Expr>, ss: seq<Source>, tp: TablePolicies, db: Database)
    requires cs != [] && forall c | c in cs :: TameE(c, ss, tp, db)
    ensures TameE(Conjoin(cs), ss, tp, db)
  {
    var n := |cs| - 1;
    assert cs[n] in cs;
    if n > 0 {
      assert forall c | c in cs[..n] :: c in cs;
      ConjoinTame(cs[..n], ss, tp, db);
    }
  }

  lemma {:induction false} ColumnTame(t: string, c: string, ss: seq<Source>, tp: TablePolicies, db: Database)
    requires TameRef(Ref(t, c), ss, tp, db)
    ensures TameProj(Col(t, c), ss, tp, db)
  {
    assert Direct(Col(t, c)) == [Ref(t, c)] && Stars(Col(t, c)) == [];
  }

  /** A bare star expands to columns of governed tables. */
  lemma {:induction false} ExpandBareTame(s: Select, tp: TablePolicies, db: Database, q: Expr)
    requires AliasesClear(s.sources) && FitsSources(s.sources, tp, db) && q in AllKnown(SelAliasMap(s, tp), tp)
    ensures TameProj(q, s.sources, tp, db)
  {
    var am := SelAliasMap(s, tp);
    StarIsAllKnown(am, tp, q);
    var e, c :| e in am && c in KnownOf(tp, e.key) && q == Col("", c);
    var k := EntryHasSource(s.sources, tp, e);
    UnqualifiedSpelled(s.sources, tp);
    ColumnOf(Ref("", c), s.sources, db, k);
    ColumnTame("", c, s.sources, tp, db);
  }

  /** A qualified star expands to columns of the source its qualifier means. */
  lemma {:induction false} ExpandQualTame(s: Select, tp: TablePolicies, db: Database, t: string, key: string, c: string)
    requires AliasesClear(s.sources) && FitsSources(s.sources, tp, db) && Spelled(t, s.sources, tp)
    requires Find(SelAliasMap(s, tp), t) == Some(key) && c in KnownOf(tp, key)
    ensures TameProj(Col(t, c), s.sources, tp, db)
  {
    var ss := s.sources;
    FindEntry(SelAliasMap(s, tp), t);
    var k := EntryHasSource(ss, tp, Entry(t, key));
    NamesFilled(ss, k);
    GovernedTame(Ref(t, c), ss, tp, db, k, key);
    ColumnTame(t, c, ss, tp, db);
  }

  lemma {:induction false} ExpandTame(s: Select, tp: TablePolicies, db: Database, p: Expr)
    requires AliasesClear(s.sources) && FitsSources(s.sources, tp, db) && TameProj(p, s.sources, tp, db)
    ensures TameProjs(ExpandStar(p, SelAliasMap(s, tp), tp), s.sources, tp, db)
  {
    var am := SelAliasMap(s, tp);
    forall q | q in ExpandStar(p, am, tp)
      ensures TameProj(q, s.sources, tp, db)
    {
      if q != p {
        if p.Star? {
          ExpandBareTame(s, tp, db, q);
        } else {
          ExpandQualTame(s, tp, db, p.table, Find(am, p.table).value, q.name);
        }
      }
    }
  }

  lemma {:induction false} ExpandAllTame(s: Select, tp: TablePolicies, db: Database, ps: seq<Expr>)
    requires AliasesClear(s.sources) && FitsSources(s.sources, tp, db) && TameProjs(ps, s.sources, tp, db)
    ensures TameProjs(ExpandStars(ps, SelAliasMap(s, tp), tp), s.sources, tp, db)
  {
    if ps != [] {
      assert ps[0] in ps && forall p | p in ps[1..] :: p in ps;
      ExpandTame(s, tp, db, ps[0]);
      ExpandAllTame(s, tp, db, ps[1..]);
    }
  }

  /** Suppressing projections, under whatever policies, leaves the others tame. */
  lemma {:induction false} ProjsTame(ps: seq<Expr>, am: AliasMap, rules: TablePolicies, ss: seq<Source>,
                                     tp: TablePolicies, db: Database)
    requires TameProjs(ps, ss, tp, db)
    ensures TameProjs(RewriteProjs(ps, am, rules), ss, tp, db)
  {
    forall i | 0 <= i < |ps|
      ensures TameProj(RewriteProjs(ps, am, rules)[i], ss, tp, db)
    {
      assert ps[i] in ps;
      assert Direct(Null) == [] && Stars(Null) == [];
      assert Direct(Nulled(OutName(ps[i]))) == [] && Stars(Nulled(OutName(ps[i]))) == [];
    }
  }

  /** A visit writes no reference but tame ones. */
  lemma {:induction false} VisitTame(s: Select, tp: TablePolicies, db: Database)
    requires AliasesClear(s.sources) && FitsSources(s.sources, tp, db) && Tame(s, tp, db)
    ensures Tame(Visit(s, tp), tp, db)
  {
    var am, cs, ss := SelAliasMap(s, tp), SelConditions(s, tp), s.sources;
    if am != [] {
      ExpandAllTame(s, tp, db, s.projs);
      ProjsTame(ExpandStars(s.projs, am, tp), am, tp, ss, tp, db);
      if cs != [] {
        forall c | c in cs { FilterTame(s, tp, db, c); }
        ConjoinTame(cs, ss, tp, db);
      }
    }
  }
}
