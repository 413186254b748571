/**
 A denied column cannot be learnt from a rewritten query: on two databases that
 differ only in denied columns the rewritten query computes the same result.
 */
module NonInterference {
  import opened Wrappers
  import opened Text
  import opened Policies
  import opened SqlSyntax
  import opened Rewriter
  import opened VisitFacts
  import opened References
  import opened ProjectionInvariant
  import opened Semantics
  import opened Congruence
  import opened Hardening

  // ----- a reference to a hidden column resolves to deny -----

  function HiddenIn(scope: Scope, ss: seq<Source>, tp: TablePolicies): Hidden {
    set i: nat, j: nat | i < |ss| && i < |scope| && j < |scope[i].cols| && ss[i].Table?
      && Withheld(tp, ss[i].name, scope[i].cols[j]) :: (i, j)
  }

  lemma {:induction false} SameCase(name: string, other: string, names: seq<string>)
    requires ListedAnyCase(name, names) && Lower(name) == Lower(other)
    ensures ListedAnyCase(other, names)
  {
  }

  lemma {:induction false} FirstIsDeny(am: AliasMap, tp: TablePolicies, name: string, e: Entry)
    requires e in am && e.key in tp && ActionIn(tp[e.key], name) == Deny
    requires forall x | x in am && x.key in tp ::
             ActionIn(tp[x.key], name) == Allow || ActionIn(tp[x.key], name) == Deny
    ensures FirstRestricting(am, tp, name).action == Deny
  {
    if am[0] != e {
      assert am[0] in am;
      FirstIsDeny(am[1..], tp, name, e);
    }
  }

  /** If a decision restricts a name, the name is a column of every table it governs. */
  lemma {:induction false} RestrictedIsColumn(d: Decision, cols: seq<string>, name: string) returns (j: nat)
    requires FitsTable(d, cols) && ActionIn(d, name) != Allow
    ensures j < |cols| && Lower(cols[j]) == Lower(name)
  {
    var listed := if ListedAnyCase(name, d.denied) then d.denied else if ListedAnyCase(name, d.masked) then d.masked
      else d.tokenized;
    var i :| 0 <= i < |listed| && Lower(listed[i]) == Lower(name);
    assert listed[i] in d.denied + d.masked + d.tokenized;
    assert ListedAnyCase(listed[i], cols);
    j :| 0 <= j < |cols| && Lower(cols[j]) == Lower(listed[i]);
  }

  /** An unqualified reference that a hidden column answers resolves to deny. */
  lemma {:induction false} HiddenUnqualified(s: Select, tp: TablePolicies, db: Database, sub: Results, r: Ref,
                                             i: nat, j: nat)
    requires AliasesClear(s.sources) && FitsSources(s.sources, tp, db) && r.table == ""
    requires var scope := ScopeOf(db, sub, s.sources);
             Answers(scope, r, i, j) && (i, j) in HiddenIn(scope, s.sources, tp)
    ensures Resolve(r, SelAliasMap(s, tp), tp).action == Deny
  {
    var ss, am, scope := s.sources, SelAliasMap(s, tp), ScopeOf(db, sub, s.sources);
    var key := PolicyKey(tp, ss[i].name).value;
    QualifierFinds(ss, tp, i, key, BindName(ss[i]));
    SameCase(scope[i].cols[j], r.name, tp[key].denied);
    assert ActionIn(tp[key], r.name) == Deny;
    var e := Entry(BindName(ss[i]), key);
    FindEntry(am, BindName(ss[i]));
    forall x | x in am && x.key in tp
      ensures ActionIn(tp[x.key], r.name) == Allow || ActionIn(tp[x.key], r.name) == Deny
    {
      OnlyOwnDecisionRestricts(s, tp, db, sub, r, i, j, x);
    }
    FirstIsDeny(am, tp, r.name, e);
  }

  /**
   A reference that a hidden column answers resolves to deny exactly when its qualifier, if it
   has one, spells the alias or the name of the table letter by letter; otherwise to nothing.
   */
  lemma {:induction false} HiddenResolvesExactly(s: Select, tp: TablePolicies, db: Database, sub: Results, r: Ref,
                                                 i: nat, j: nat)
    requires AliasesClear(s.sources) && FitsSources(s.sources, tp, db)
    requires var scope := ScopeOf(db, sub, s.sources);
             Answers(scope, r, i, j) && (i, j) in HiddenIn(scope, s.sources, tp)
    ensures var v := Resolve(r, SelAliasMap(s, tp), tp);
            (v.action == Deny || v == NoVerdict)
            && (v.action == Deny <==>
                  r.table == "" || r.table == BindName(s.sources[i]) || r.table == s.sources[i].name)
  {
    var ss, scope := s.sources, ScopeOf(db, sub, s.sources);
    var key := PolicyKey(tp, ss[i].name).value;
    if r.table == "" {
      HiddenUnqualified(s, tp, db, sub, r, i, j);
    } else {
      QualifierFinds(ss, tp, i, key, r.table);
      SameCase(scope[i].cols[j], r.name, tp[key].denied);
      assert ActionIn(tp[key], r.name) == Deny;
      assert FirstRestricting([Entry(r.table, key)], tp, r.name).action == Deny;
    }
  }

  lemma {:induction false} OnlyOwnDecisionRestricts(s: Select, tp: TablePolicies, db: Database, sub: Results, r: Ref,
                                                    i: nat, j: nat, x: Entry)
    requires FitsSources(s.sources, tp, db) && r.table == "" && i < |s.sources|
    requires Answers(ScopeOf(db, sub, s.sources), r, i, j)
    requires x in SelAliasMap(s, tp) && x.key in tp
    ensures ActionIn(tp[x.key], r.name) == Allow
            || (s.sources[i].Table? && PolicyKey(tp, s.sources[i].name) == Some(x.key))
  {
    if ActionIn(tp[x.key], r.name) != Allow {
      var k := EntryHasSource(s.sources, tp, x);
      var j' := RestrictedIsColumn(tp[x.key], ColsOf(db, s.sources[k].name), r.name);
      assert Hit(ScopeOf(db, sub, s.sources), r, k, j');
    }
  }

  // ----- clean trees -----

  /** No reference the expression makes in its own scope resolves to deny. */
  predicate NoDeny(e: Expr, am: AliasMap, tp: TablePolicies) {
    forall r | r in Direct(e) :: Resolve(r, am, tp).action != Deny
  }

  predicate NoDenyL(es: seq<Expr>, am: AliasMap, tp: TablePolicies) {
    forall e | e in es :: NoDeny(e, am, tp)
  }

  predicate NoDenyO(o: Option<Expr>, am: AliasMap, tp: TablePolicies) {
    o.Some? ==> NoDeny(o.value, am, tp)
  }

  /**
   Names are clear, decisions fit their tables, references are spelled as the sources they mean
   and stand for no row with a withheld column, and ON, WHERE and GROUP BY read no denied column.
   */
  predicate CleanBefore(s: Select, tp: TablePolicies, db: Database) {
    var am := SelAliasMap(s, tp);
    && AliasesClear(s.sources) && FitsSources(s.sources, tp, db) && Tame(s, tp, db)
    && NoDenyL(s.ons, am, tp) && NoDenyO(s.where, am, tp) && NoDenyL(s.group, am, tp)
  }

  /** HAVING and ORDER BY read no denied column. */
  predicate CleanAfter(s: Select, tp: TablePolicies) {
    NoDenyO(s.having, SelAliasMap(s, tp), tp) && NoDenyL(s.order, SelAliasMap(s, tp), tp)
  }

  predicate Clean(s: Select, tp: TablePolicies, db: Database)
    decreases s
  {
    CleanBefore(s, tp, db) && CleanAfter(s, tp) && forall k | k in SelKids(s) :: Clean(k, tp, db)
  }

  /** Row filters read no column their own decision withholds. */
  predicate FiltersReadable(tp: TablePolicies) {
    forall key, f | key in tp && f in tp[key].filters :: !ListedAnyCase(f.column, WithheldColumns(tp[key]))
  }

  // ----- rewriting keeps a tree clean -----

  lemma {:induction false} NoDenyApplyL(es: seq<Expr>, m: Subst, am: AliasMap, tp: TablePolicies)
    ensures NoDenyL(ApplyL(es, m), am, tp) == NoDenyL(es, am, tp)
  {
    forall i | 0 <= i < |es|
      ensures NoDeny(ApplyL(es, m)[i], am, tp) == NoDeny(es[i], am, tp)
    {
      DirectApply(es[i], m);
    }
    assert forall i | 0 <= i < |es| :: es[i] in es && ApplyL(es, m)[i] in ApplyL(es, m);
  }

  lemma {:induction false} NoDenyApplyO(o: Option<Expr>, m: Subst, am: AliasMap, tp: TablePolicies)
    ensures NoDenyO(ApplyO(o, m), am, tp) == NoDenyO(o, am, tp)
  {
    if o.Some? { DirectApply(o.value, m); }
  }

  lemma {:induction false} SourcesClearApply(ss: seq<Source>, m: Subst, tp: TablePolicies, db: Database)
    requires AliasesClear(ss) && FitsSources(ss, tp, db)
    ensures AliasesClear(ApplyS(ss, m)) && FitsSources(ApplyS(ss, m), tp, db)
  {
    BindingsApply(ss, m);
  }

  lemma {:induction false} CleanBeforeApply(s: Select, m: Subst, tp: TablePolicies, db: Database)
    requires CleanBefore(s, tp, db)
    ensures CleanBefore(SelApply(s, m), tp, db)
  {
    var am := SelAliasMap(s, tp);
    SourcesApply(s.sources, m, tp);
    SourcesClearApply(s.sources, m, tp, db);
    TameSelApply(s, m, tp, db);
    NoDenyApplyL(s.ons, m, am, tp);
    NoDenyApplyO(s.where, m, am, tp);
    NoDenyApplyL(s.group, m, am, tp);
  }

  lemma {:induction false} CleanAfterApply(s: Select, m: Subst, tp: TablePolicies)
    requires CleanAfter(s, tp)
    ensures CleanAfter(SelApply(s, m), tp)
  {
    SourcesApply(s.sources, m, tp);
    NoDenyApplyO(s.having, m, SelAliasMap(s, tp), tp);
    NoDenyApplyL(s.order, m, SelAliasMap(s, tp), tp);
  }

  predicate AliasesDistinct(am: AliasMap) {
    forall i, k | 0 <= i < |am| && 0 <= k < |am| && i != k :: am[i].alias != am[k].alias
  }

  lemma {:induction false} AssignDistinct(am: AliasMap, alias: string, key: string)
    requires AliasesDistinct(am)
    ensures AliasesDistinct(Assign(am, alias, key))
  {
    if am != [] && am[0].alias != alias {
      AssignMembers(am[1..], alias, key);
      AssignDistinct(am[1..], alias, key);
      var rest := Assign(am[1..], alias, key);
      forall k | 0 <= k < |rest|
        ensures rest[k].alias != am[0].alias
      {
        assert rest[k] in rest;
        if rest[k] in am[1..] { var j :| 0 <= j < |am| - 1 && am[1..][j] == rest[k]; }
      }
    }
  }

  lemma {:induction false} AliasMapDistinct(ss: seq<Source>, tp: TablePolicies)
    ensures AliasesDistinct(BuildAliasMap(ss, tp))
  {
    if ss != [] {
      var am, src := BuildAliasMap(ss[..|ss| - 1], tp), ss[|ss| - 1];
      AliasMapDistinct(ss[..|ss| - 1], tp);
      if src.Table? && PolicyKey(tp, src.name).Some? {
        AssignDistinct(am, BindName(src), PolicyKey(tp, src.name).value);
        AssignDistinct(Assign(am, BindName(src), PolicyKey(tp, src.name).value), src.name,
          PolicyKey(tp, src.name).value);
      }
    }
  }

  lemma {:induction false} FindDistinct(am: AliasMap, e: Entry)
    requires AliasesDistinct(am) && e in am
    ensures Find(am, e.alias) == Some(e.key)
  {
    if am[0] != e {
      var j :| 0 <= j < |am| && am[j] == e;
      FindDistinct(am[1..], e);
    }
  }

  /** An injected condition reads no denied column. */
  lemma {:induction false} FilterNoDeny(s: Select, tp: TablePolicies, c: Expr)
    requires FiltersReadable(tp) && AliasesClear(s.sources) && c in SelConditions(s, tp)
    ensures NoDeny(c, SelAliasMap(s, tp), tp)
  {
    var am := SelAliasMap(s, tp);
    ConditionsAreFilters(am, tp, {});
    var e, f :| e in am && f in FiltersOf(tp, e.key) && f.column != "" && c == FilterExpr(e.alias, f);
    AliasMapDistinct(s.sources, tp);
    FindDistinct(am, e);
    var k := EntryHasSource(s.sources, tp, e);
    FilterOfEntry(am, e, f, tp);
  }

  lemma {:induction false} FilterOfEntry(am: AliasMap, e: Entry, f: RowFilter, tp: TablePolicies)
    requires FiltersReadable(tp) && e.key in tp && f in FiltersOf(tp, e.key) && f.column != ""
    requires e.alias != "" && Find(am, e.alias) == Some(e.key)
    ensures NoDeny(FilterExpr(e.alias, f), am, tp)
  {
    FilterDirect(e.alias, f);
    assert ActionIn(tp[e.key], f.column) != Deny;
    SingleEntry(e, tp, f.column);
  }

  lemma {:induction false} SingleEntry(e: Entry, tp: TablePolicies, name: string)
    requires e.key in tp && ActionIn(tp[e.key], name) != Deny
    ensures FirstRestricting([e], tp, name).action != Deny
  {
    assert [e][1..] == [];
  }

  lemma {:induction false} ConjoinNoDeny(cs: seq<Expr>, am: AliasMap, tp: TablePolicies)
    requires cs != [] && forall c | c in cs :: NoDeny(c, am, tp)
    ensures NoDeny(Conjoin(cs), am, tp)
  {
    var n := |cs| - 1;
    assert cs[n] in cs;
    if n > 0 {
      assert forall c | c in cs[..n] :: c in cs;
      ConjoinNoDeny(cs[..n], am, tp);
    }
  }

  lemma {:induction false} VisitClean(s: Select, tp: TablePolicies, db: Database)
    requires FiltersReadable(tp) && CleanBefore(s, tp, db)
    ensures CleanBefore(Visit(s, tp), tp, db)
    ensures CleanAfter(s, tp) ==> CleanAfter(Visit(s, tp), tp)
  {
    var am, cs := SelAliasMap(s, tp), SelConditions(s, tp);
    VisitTame(s, tp, db);
    if am != [] && cs != [] {
      forall c | c in cs { FilterNoDeny(s, tp, c); }
      ConjoinNoDeny(cs, am, tp);
    }
  }

  lemma {:induction false} WalkCleanKids(s: Select, tp: TablePolicies, db: Database)
    requires FiltersReadable(tp) && forall k | k in SelKids(s) :: Clean(k, tp, db)
    ensures forall k | k in SelKids(Walk(s, tp)) :: Clean(k, tp, db)
    decreases Depth(s), 0
  {
    forall t | t in SelKids(Walk(s, tp))
      ensures Clean(t, tp, db)
    {
      var k := WalkedKid(s, tp, t);
      RewriteClean(k, tp, db);
      WalkClean(Rewrite(k, tp), tp, db);
    }
  }

  lemma {:induction false} WalkClean(s: Select, tp: TablePolicies, db: Database)
    requires FiltersReadable(tp) && Clean(s, tp, db)
    ensures Clean(Walk(s, tp), tp, db)
    decreases Depth(s), 1
  {
    WalkCleanKids(s, tp, db);
    WalkUnfolds(s, tp);
    CleanBeforeApply(s, WalkMap(s, tp), tp, db);
    CleanAfterApply(s, WalkMap(s, tp), tp);
  }

  lemma {:induction false} RewriteClean(s: Select, tp: TablePolicies, db: Database)
    requires FiltersReadable(tp) && Clean(s, tp, db)
    ensures Clean(Rewrite(s, tp), tp, db)
    decreases Depth(s), 2
  {
    WalkClean(s, tp, db);
    VisitClean(Walk(s, tp), tp, db);
    VisitKids(Walk(s, tp), tp);
  }

  // ----- two databases that differ in denied columns -----

  /** The rows agree at every column the decision on the table does not withhold. */
  predicate RowsAgree(tp: TablePolicies, name: string, cols: seq<string>, r: Row, r': Row) {
    |r| == |r'| && forall j | 0 <= j < |r| :: r[j] == r'[j] || (j < |cols| && Withheld(tp, name, cols[j]))
  }

  predicate AgreeOutsideDenied(tp: TablePolicies, db: Database, db': Database) {
    && db.Keys == db'.Keys
    && forall n | n in db ::
         && db[n].cols == db'[n].cols && |db[n].rows| == |db'[n].rows|
         && forall k | 0 <= k < |db[n].rows| :: RowsAgree(tp, n, db[n].cols, db[n].rows[k], db'[n].rows[k])
  }

  /** The lists hold, in the same order, rows that agree outside the hidden positions; `n` sources come before. */
  predicate ListsAlike(hid: Hidden, n: nat, lists: seq<seq<Row>>, lists': seq<seq<Row>>) {
    && |lists| == |lists'|
    && forall i | 0 <= i < |lists| ::
      |lists[i]| == |lists'[i]| && forall k | 0 <= k < |lists[i]| :: RowAlike(hid, n + i, lists[i][k], lists'[i][k])
  }

  predicate TuplesAlike(hid: Hidden, n: nat, ts: seq<Tuple>, ts': seq<Tuple>) {
    && |ts| == |ts'|
    && forall k | 0 <= k < |ts| ::
      |ts[k]| == |ts'[k]| && forall i | 0 <= i < |ts[k]| :: RowAlike(hid, n + i, ts[k][i], ts'[k][i])
  }

  lemma {:induction false} PrependAlike(hid: Hidden, n: nat, row: Row, row': Row, ts: seq<Tuple>, ts': seq<Tuple>)
    requires RowAlike(hid, n, row, row') && TuplesAlike(hid, n + 1, ts, ts')
    ensures TuplesAlike(hid, n, Prepend(row, ts), Prepend(row', ts'))
  {
    forall k, i | 0 <= k < |ts| && 0 <= i < |ts[k]| + 1
      ensures RowAlike(hid, n + i, ([row] + ts[k])[i], ([row'] + ts'[k])[i])
    {
      if i > 0 { assert RowAlike(hid, n + 1 + (i - 1), ts[k][i - 1], ts'[k][i - 1]); }
    }
  }

  lemma {:induction false} ProductAlike(hid: Hidden, n: nat, rows: seq<Row>, rows': seq<Row>, ts: seq<Tuple>,
                                        ts': seq<Tuple>)
    requires |rows| == |rows'| && forall k | 0 <= k < |rows| :: RowAlike(hid, n, rows[k], rows'[k])
    requires TuplesAlike(hid, n + 1, ts, ts')
    ensures TuplesAlike(hid, n, Product(rows, ts), Product(rows', ts'))
  {
    if rows != [] {
      PrependAlike(hid, n, rows[0], rows'[0], ts, ts');
      ProductAlike(hid, n, rows[1..], rows'[1..], ts, ts');
    }
  }

  lemma {:induction false} CrossAlike(hid: Hidden, n: nat, lists: seq<seq<Row>>, lists': seq<seq<Row>>)
    requires ListsAlike(hid, n, lists, lists')
    ensures TuplesAlike(hid, n, Cross(lists), Cross(lists'))
    decreases |lists|
  {
    if lists != [] {
      forall i | 0 <= i < |lists| - 1
        ensures |lists[1..][i]| == |lists'[1..][i]| && forall k | 0 <= k < |lists[1..][i]| ::
                RowAlike(hid, n + 1 + i, lists[1..][i][k], lists'[1..][i][k])
      {
        var j := i + 1;
        assert lists[1..][i] == lists[j] && lists'[1..][i] == lists'[j];
        assert forall k | 0 <= k < |lists[j]| :: RowAlike(hid, n + j, lists[j][k], lists'[j][k]);
      }
      CrossAlike(hid, n + 1, lists[1..], lists'[1..]);
      assert forall k | 0 <= k < |lists[0]| :: RowAlike(hid, n + 0, lists[0][k], lists'[0][k]);
      ProductAlike(hid, n, lists[0], lists'[0], Cross(lists[1..]), Cross(lists'[1..]));
    }
  }

  lemma {:induction false} SourcesAlike(tp: TablePolicies, db: Database, db': Database, sub: Results, ss: seq<Source>)
    requires AgreeOutsideDenied(tp, db, db')
    ensures var scope := ScopeOf(db, sub, ss);
            ScopeOf(db', sub, ss) == scope
            && ListsAlike(HiddenIn(scope, ss, tp), 0, RowLists(db, sub, ss), RowLists(db', sub, ss))
  {
    var scope, lists, lists' := ScopeOf(db, sub, ss), RowLists(db, sub, ss), RowLists(db', sub, ss);
    var hid := HiddenIn(scope, ss, tp);
    forall i | 0 <= i < |ss|
      ensures |lists[i]| == |lists'[i]| && forall k | 0 <= k < |lists[i]| :: RowAlike(hid, i, lists[i][k], lists'[i][k])
    {
      if ss[i].Table? && ss[i].name in db {
        var n := ss[i].name;
        forall k | 0 <= k < |lists[i]|
          ensures RowAlike(hid, i, lists[i][k], lists'[i][k])
        {
          assert RowsAgree(tp, n, db[n].cols, db[n].rows[k], db'[n].rows[k]);
          assert scope[i].cols == db[n].cols;
        }
      }
    }
  }

  /** The products of the sources agree outside the hidden positions. */
  lemma {:induction false} TuplesOfBoth(tp: TablePolicies, db: Database, db': Database, sub: Results, ss: seq<Source>)
    requires AgreeOutsideDenied(tp, db, db')
    ensures var scope := ScopeOf(db, sub, ss);
            ScopeOf(db', sub, ss) == scope
            && GroupAlike(HiddenIn(scope, ss, tp), Cross(RowLists(db, sub, ss)), Cross(RowLists(db', sub, ss)))
  {
    var hid := HiddenIn(ScopeOf(db, sub, ss), ss, tp);
    var ts, ts' := Cross(RowLists(db, sub, ss)), Cross(RowLists(db', sub, ss));
    SourcesAlike(tp, db, db', sub, ss);
    CrossAlike(hid, 0, RowLists(db, sub, ss), RowLists(db', sub, ss));
    forall k | 0 <= k < |ts|
      ensures TupleAlike(hid, ts[k], ts'[k])
    {
      assert forall i | 0 <= i < |ts[k]| :: RowAlike(hid, 0 + i, ts[k][i], ts'[k][i]);
    }
  }

  // ----- clean, settled trees read no hidden position -----

  lemma {:induction false} DirectIsRef(e: Expr)
    ensures forall r | r in Direct(e) :: r in Refs(e)
  {
    match e
    case Op(_, l, r) => DirectIsRef(l); DirectIsRef(r);
    case And(l, r) => DirectIsRef(l); DirectIsRef(r);
    case InList(a, _) => DirectIsRef(a);
    case Agg(_, a) => DirectIsRef(a);
    case Sub(_, a, _) => DirectIsRef(a);
    case Alias(a, _) => DirectIsRef(a);
    case _ =>
  }

  lemma {:induction false} RowIsBlind(s: Select, tp: TablePolicies, db: Database, sub: Results, table: Option<string>)
    requires RowTame(table, s.sources, tp, db)
    ensures var scope := ScopeOf(db, sub, s.sources); BlindStar(scope, HiddenIn(scope, s.sources, tp), table)
  {
    var scope := ScopeOf(db, sub, s.sources);
    forall p | p in HiddenIn(scope, s.sources, tp)
      ensures !Covers(table, scope[p.0].name)
    {
      assert scope[p.0].cols[p.1] in ColsOf(db, s.sources[p.0].name);
      assert Secretive(s.sources, p.0, tp, db);
    }
  }

  lemma {:induction false} OfTableIsAnswered(ss: seq<Source>, db: Database, sub: Results, r: Ref)
    requires OfTable(r, ss, db)
    ensures !Unanswered(ScopeOf(db, sub, ss), r)
  {
    var k :| 0 <= k < |ss| && ss[k].Table? && (r.table == "" || SameName(r.table, BindName(ss[k])))
      && ListedAnyCase(r.name, ColsOf(db, ss[k].name));
    var j :| 0 <= j < |ColsOf(db, ss[k].name)| && Lower(ColsOf(db, ss[k].name)[j]) == Lower(r.name);
    assert Hit(ScopeOf(db, sub, ss), r, k, j);
  }

  lemma {:induction false} RefIsBlind(s: Select, tp: TablePolicies, db: Database, sub: Results, r: Ref)
    requires AliasesClear(s.sources) && FitsSources(s.sources, tp, db)
    requires Resolve(r, SelAliasMap(s, tp), tp).action != Deny && TameRef(r, s.sources, tp, db)
    ensures var scope := ScopeOf(db, sub, s.sources); BlindRef(scope, HiddenIn(scope, s.sources, tp), r)
  {
    var scope := ScopeOf(db, sub, s.sources);
    forall i: nat, j: nat | Answers(scope, r, i, j)
      ensures (i, j) !in HiddenIn(scope, s.sources, tp)
    {
      if (i, j) in HiddenIn(scope, s.sources, tp) { HiddenResolvesExactly(s, tp, db, sub, r, i, j); }
    }
    if OfTable(r, s.sources, db) {
      OfTableIsAnswered(s.sources, db, sub, r);
    } else {
      RowIsBlind(s, tp, db, sub, Some(RowSource(r)));
    }
  }

  lemma {:induction false} NoDenyIsBlind(s: Select, tp: TablePolicies, db: Database, sub: Results, e: Expr)
    requires AliasesClear(s.sources) && FitsSources(s.sources, tp, db)
    requires NoDeny(e, SelAliasMap(s, tp), tp) && TameE(e, s.sources, tp, db)
    ensures var scope := ScopeOf(db, sub, s.sources); Blind(scope, HiddenIn(scope, s.sources, tp), e)
  {
    forall r | r in Direct(e) { RefIsBlind(s, tp, db, sub, r); }
    forall table | table in Stars(e) { RowIsBlind(s, tp, db, sub, table); }
  }

  lemma {:induction false} NoDenyLIsBlind(s: Select, tp: TablePolicies, db: Database, sub: Results, es: seq<Expr>)
    requires AliasesClear(s.sources) && FitsSources(s.sources, tp, db)
    requires NoDenyL(es, SelAliasMap(s, tp), tp) && TameL(es, s.sources, tp, db)
    ensures var scope := ScopeOf(db, sub, s.sources); BlindL(scope, HiddenIn(scope, s.sources, tp), es)
  {
    var scope := ScopeOf(db, sub, s.sources);
    forall i | 0 <= i < |es|
      ensures Blind(scope, HiddenIn(scope, s.sources, tp), es[i])
    {
      assert es[i] in es;
      NoDenyIsBlind(s, tp, db, sub, es[i]);
    }
  }

  lemma {:induction false} NoPolicyNothingHidden(s: Select, tp: TablePolicies, scope: Scope)
    requires SelAliasMap(s, tp) == []
    ensures HiddenIn(scope, s.sources, tp) == {}
  {
    forall p | p in HiddenIn(scope, s.sources, tp)
      ensures false
    {
      SourceIsFound(s.sources, tp, p.0, s.sources[p.0].name);
    }
  }

  /** A star that was not expanded covers no hidden column. */
  lemma {:induction false} StarIsBlind(s: Select, tp: TablePolicies, db: Database, sub: Results, p: Expr)
    requires AliasesClear(s.sources) && FitsSources(s.sources, tp, db)
    requires StarSettled(p, SelAliasMap(s, tp), tp) && (p.Star? || p.QualStar?) && TameProj(p, s.sources, tp, db)
    ensures var scope := ScopeOf(db, sub, s.sources); BlindProj(scope, HiddenIn(scope, s.sources, tp), p)
  {
    var ss, am, scope := s.sources, SelAliasMap(s, tp), ScopeOf(db, sub, s.sources);
    forall q | q in HiddenIn(scope, ss, tp)
      ensures p.QualStar? && !SameName(scope[q.0].name, p.table)
    {
      var key := PolicyKey(tp, ss[q.0].name).value;
      QualifierFinds(ss, tp, q.0, key, BindName(ss[q.0]));
      if p.QualStar? && SameName(scope[q.0].name, p.table) { QualifierFinds(ss, tp, q.0, key, p.table); }
      FindEntry(am, BindName(ss[q.0]));
      assert scope[q.0].cols[q.1] in tp[key].known;
      assert KnownOf(tp, key) != [];
      AllKnownHas(am, tp, Entry(BindName(ss[q.0]), key));
      AllKnownAreColumns(am, tp);
      ColumnsAreNoStar(p, KnownOf(tp, key));
      assert p !in AllKnown(am, tp);
    }
  }

  lemma {:induction false} ColumnsAreNoStar(p: Expr, names: seq<string>)
    requires names != []
    ensures p.QualStar? ==> Columns(p.table, names) != [p]
  {
    if p.QualStar? { assert Columns(p.table, names)[0] == Col(p.table, names[0]); }
  }

  lemma {:induction false} AllKnownHas(am: AliasMap, tp: TablePolicies, e: Entry)
    requires e in am && KnownOf(tp, e.key) != []
    ensures AllKnown(am, tp) != []
  {
    if am[0] != e { AllKnownHas(am[1..], tp, e); }
  }

  lemma {:induction false} ProjIsBlind(s: Select, tp: TablePolicies, db: Database, sub: Results, p: Expr)
    requires AliasesClear(s.sources) && FitsSources(s.sources, tp, db) && Tame(s, tp, db)
    requires SettledHere(s, tp) && p in s.projs
    ensures var scope := ScopeOf(db, sub, s.sources); BlindProj(scope, HiddenIn(scope, s.sources, tp), p)
  {
    var am, scope := SelAliasMap(s, tp), ScopeOf(db, sub, s.sources);
    if am == [] {
      NoPolicyNothingHidden(s, tp, scope);
    } else if p.Star? || p.QualStar? {
      StarIsBlind(s, tp, db, sub, p);
    } else {
      assert Keeps(p, am, tp);
      DirectIsRef(Inner(p));
      assert Direct(p) == Direct(Inner(p));
      forall r | r in Direct(p)
        ensures Resolve(r, am, tp).action != Deny
      {
        KeepsReference(p, r, am, tp);
      }
      NoDenyIsBlind(s, tp, db, sub, p);
    }
  }

  // ----- the theorem -----

  /** One SELECT: settled, clean, and its children compute the same on both databases. */
  lemma {:induction false} RunAgrees(E: Engine, tp: TablePolicies, db: Database, db': Database, sub: Results, s: Select)
    requires AgreeOutsideDenied(tp, db, db')
    requires SettledHere(s, tp) && CleanBefore(s, tp, db) && CleanAfter(s, tp)
    ensures Run(E, db, sub, s) == Run(E, db', sub, s)
  {
    var scope := ScopeOf(db, sub, s.sources);
    var hid := HiddenIn(scope, s.sources, tp);
    var ts, ts' := Cross(RowLists(db, sub, s.sources)), Cross(RowLists(db', sub, s.sources));
    TuplesOfBoth(tp, db, db', sub, s.sources);
    ClausesBlind(s, tp, db, sub);
    SelApplyNothing(s, map[]);
    forall i | 0 <= i < |ts| { PassesCong(E, sub, sub, map[], scope, hid, s, ts[i], ts'[i]); }
    KeptCong(E, sub, sub, scope, hid, s, s, ts, ts');
    FinishCong(E, sub, sub, map[], scope, hid, s, Kept(E, sub, scope, s, ts), Kept(E, sub, scope, s, ts'));
  }

  lemma {:induction false} ClausesBlind(s: Select, tp: TablePolicies, db: Database, sub: Results)
    requires SettledHere(s, tp) && CleanBefore(s, tp, db) && CleanAfter(s, tp)
    ensures var scope := ScopeOf(db, sub, s.sources);
            var hid := HiddenIn(scope, s.sources, tp);
            BlindAfterWhere(scope, hid, s) && BlindL(scope, hid, s.ons) && BlindO(scope, hid, s.where)
  {
    NoDenyLIsBlind(s, tp, db, sub, s.ons);
    NoDenyLIsBlind(s, tp, db, sub, s.group);
    NoDenyLIsBlind(s, tp, db, sub, s.order);
    forall i | 0 <= i < |s.projs| { ProjIsBlind(s, tp, db, sub, s.projs[i]); }
    if s.where.Some? { NoDenyIsBlind(s, tp, db, sub, s.where.value); }
    if s.having.Some? { NoDenyIsBlind(s, tp, db, sub, s.having.value); }
  }

  lemma {:induction false} MeaningAgrees(E: Engine, tp: TablePolicies, db: Database, db': Database, s: Select)
    requires AgreeOutsideDenied(tp, db, db') && Settled(s, tp) && Clean(s, tp, db)
    ensures Meaning(E, db, s) == Meaning(E, db', s)
    decreases s
  {
    forall k | k in SelKids(s) { MeaningAgrees(E, tp, db, db', k); }
    ResultsAgree(E, db, db', s);
    RunAgrees(E, tp, db, db', KidResults(E, db, s), s);
    MeaningUnfolds(E, db, s);
    MeaningUnfolds(E, db', s);
  }

  lemma {:induction false} ResultsAgree(E: Engine, db: Database, db': Database, s: Select)
    requires forall k | k in SelKids(s) :: Meaning(E, db, k) == Meaning(E, db', k)
    ensures KidResults(E, db, s) == KidResults(E, db', s)
  {
  }

  lemma {:induction false} MeaningUnfolds(E: Engine, db: Database, s: Select)
    ensures Meaning(E, db, s) == Run(E, db, KidResults(E, db, s), s)
  {
  }

  // ----- stripping ORDER BY and HAVING at the root -----

  /** A reference that resolves to deny is spelled as a decision lists it. */
  predicate SpelledAsListed(e: Expr, am: AliasMap, tp: TablePolicies) {
    forall r | r in Direct(e) :: Resolve(r, am, tp).action == Deny ==> r.name in AllDenied(tp)
  }

  /** What is asked of a lone SELECT: its ORDER BY and HAVING may name denied columns, spelled as listed. */
  predicate RootClean(s: Select, tp: TablePolicies, db: Database) {
    && CleanBefore(s, tp, db)
    && (forall e | e in s.order :: SpelledAsListed(e, SelAliasMap(s, tp), tp))
    && (s.having.Some? ==> SpelledAsListed(s.having.value, SelAliasMap(s, tp), tp))
    && (forall k | k in SelKids(s) :: Clean(k, tp, db))
  }

  /** Stripping leaves ORDER BY and HAVING clean exactly when each offending expression spells a name as listed. */
  lemma {:induction false} StripIsExact(s: Select, tp: TablePolicies)
    ensures var am := SelAliasMap(s, tp);
            CleanAfter(StripInference(s, tp), tp) <==>
              && (forall e | e in s.order :: NoDeny(e, am, tp) || Names(e, AllDenied(tp)))
              && (s.having.Some? ==> NoDeny(s.having.value, am, tp) || Names(s.having.value, AllDenied(tp)))
  {
    WithoutNamesKeeps(s.order, AllDenied(tp));
  }

  lemma {:induction false} SpelledIsNamed(e: Expr, am: AliasMap, tp: TablePolicies)
    requires SpelledAsListed(e, am, tp)
    ensures NoDeny(e, am, tp) || Names(e, AllDenied(tp))
  {
    DirectIsRef(e);
  }

  /** The comparison is case-sensitive: ORDER BY SSN survives although ssn is denied. */
  lemma {:induction false} StripMissesOtherCase()
    ensures var d := Decision("t", true, ["ssn"], [], [], [], false, false, [], ["ssn"]);
            var tp: TablePolicies := map["t" := d];
            var s := Select([Star], [Table("t", "")], [], None, [], None, [Col("", "SSN")], "");
            StripInference(s, tp).order == s.order && !NoDenyL(s.order, SelAliasMap(s, tp), tp)
  {
    var d := Decision("t", true, ["ssn"], [], [], [], false, false, [], ["ssn"]);
    var tp: TablePolicies := map["t" := d];
    var s := Select([Star], [Table("t", "")], [], None, [], None, [Col("", "SSN")], "");
    assert s.sources[..0] == [] && BuildAliasMap([], tp) == [];
    assert SelAliasMap(s, tp) == [Entry("t", "t")];
    assert Refs(Col("", "SSN")) == [Ref("", "SSN")] == Direct(Col("", "SSN"));
    assert d.denied[0] == "ssn" && Lower("SSN") == Lower("ssn") == "ssn";
    assert FirstRestricting([Entry("t", "t")], tp, "SSN").action == Deny;
    assert forall c | c in AllDenied(tp) :: c == "ssn";
    assert !Names(s.order[0], AllDenied(tp));
    assert s.order[1..] == [];
    assert Ref("", "SSN") in Direct(s.order[0]);
    assert s.order[0] in s.order && !NoDeny(s.order[0], SelAliasMap(s, tp), tp);
  }

  /** Every ORDER BY expression, and HAVING, is clean or will be stripped. */
  predicate Strippable(s: Select, tp: TablePolicies) {
    var am := SelAliasMap(s, tp);
    && (forall e | e in s.order :: NoDeny(e, am, tp) || Names(e, AllDenied(tp)))
    && (s.having.Some? ==> NoDeny(s.having.value, am, tp) || Names(s.having.value, AllDenied(tp)))
  }

  lemma {:induction false} StrippableApply(s: Select, m: Subst, tp: TablePolicies, db: Database)
    requires RootClean(s, tp, db)
    ensures Strippable(SelApply(s, m), tp)
  {
    var t, am := SelApply(s, m), SelAliasMap(s, tp);
    SourcesApply(s.sources, m, tp);
    forall i | 0 <= i < |s.order|
      ensures NoDeny(t.order[i], am, tp) || Names(t.order[i], AllDenied(tp))
    {
      assert s.order[i] in s.order;
      DirectApply(s.order[i], m);
      SpelledIsNamed(t.order[i], am, tp);
    }
    if s.having.Some? {
      DirectApply(s.having.value, m);
      SpelledIsNamed(t.having.value, am, tp);
    }
  }

  lemma {:induction false} VisitRoot(s: Select, tp: TablePolicies, db: Database)
    requires FiltersReadable(tp) && CleanBefore(s, tp, db) && Strippable(s, tp) && forall k | k in SelKids(s) ::
             Clean(k, tp, db)
    ensures var r := Visit(s, tp);
            CleanBefore(r, tp, db) && Strippable(r, tp) && forall k | k in SelKids(r) :: Clean(k, tp, db)
  {
    VisitClean(s, tp, db);
    VisitKids(s, tp);
  }

  lemma {:induction false} StripRoot(r: Select, tp: TablePolicies, db: Database)
    requires CleanBefore(r, tp, db) && Strippable(r, tp) && Settled(r, tp) && forall k | k in SelKids(r) ::
             Clean(k, tp, db)
    ensures Clean(StripInference(r, tp), tp, db) && Settled(StripInference(r, tp), tp)
  {
    StripKids(r, tp);
    StripIsExact(r, tp);
    WithoutNamesKeeps(r.order, AllDenied(tp));
  }

  lemma {:induction false} WalkRoot(s: Select, tp: TablePolicies, db: Database)
    requires FiltersReadable(tp) && RootClean(s, tp, db)
    ensures var w := Walk(s, tp);
            CleanBefore(w, tp, db) && Strippable(w, tp) && forall k | k in SelKids(w) :: Clean(k, tp, db)
  {
    WalkUnfolds(s, tp);
    CleanBeforeApply(s, WalkMap(s, tp), tp, db);
    StrippableApply(s, WalkMap(s, tp), tp, db);
    WalkCleanKids(s, tp, db);
  }

  /** A lone SELECT, rewritten and stripped, is settled and clean. */
  lemma {:induction false} StrippedRewriteClean(s: Select, tp: TablePolicies, db: Database)
    requires FiltersReadable(tp) && RootClean(s, tp, db)
    ensures Clean(StripInference(Rewrite(s, tp), tp), tp, db) && Settled(StripInference(Rewrite(s, tp), tp), tp)
  {
    WalkRoot(s, tp, db);
    VisitRoot(Walk(s, tp), tp, db);
    RewriteSettles(s, tp);
    StripRoot(Rewrite(s, tp), tp, db);
  }

  // ----- the theorem -----

  ghost function TreeMeaning(E: Engine, db: Database, t: QueryTree): Relation {
    match t
    case Leaf(q) => Meaning(E, db, q)
    case SetOp(op, l, r) => E.combine(op, TreeMeaning(E, db, l), TreeMeaning(E, db, r))
  }

  /** Under a set operation nothing is stripped, so every branch must be clean throughout. */
  predicate QueryClean(t: QueryTree, tp: TablePolicies, db: Database) {
    match t
    case Leaf(q) => RootClean(q, tp, db)
    case SetOp(_, _, _) => forall q | q in Branches(t) :: Clean(q, tp, db)
  }

  lemma {:induction false} UnionAgrees(E: Engine, tp: TablePolicies, db: Database, db': Database, t: QueryTree)
    requires AgreeOutsideDenied(tp, db, db') && FiltersReadable(tp) && forall q | q in Branches(t) :: Clean(q, tp, db)
    ensures TreeMeaning(E, db, RewriteUnion(t, q => Rewrite(q, tp)))
            == TreeMeaning(E, db', RewriteUnion(t, q => Rewrite(q, tp)))
  {
    match t
    case Leaf(q) =>
      RewriteClean(q, tp, db);
      RewriteSettles(q, tp);
      MeaningAgrees(E, tp, db, db', Rewrite(q, tp));
    case SetOp(_, l, r) =>
      UnionAgrees(E, tp, db, db', l);
      UnionAgrees(E, tp, db, db', r);
  }

  /**
   The rewritten query computes the same relation, rows and row order included, on any two
   databases that agree outside denied columns.
   */
  lemma {:induction false} DeniedColumnsDoNotShow(E: Engine, tp: TablePolicies, db: Database, db': Database,
                                                  t: QueryTree)
    requires AgreeOutsideDenied(tp, db, db') && FiltersReadable(tp) && QueryClean(t, tp, db)
    ensures TreeMeaning(E, db, RewriteQuery(t, tp)) == TreeMeaning(E, db', RewriteQuery(t, tp))
  {
    match t
    case Leaf(q) =>
      StrippedRewriteClean(q, tp, db);
      MeaningAgrees(E, tp, db, db', StripInference(Rewrite(q, tp), tp));
    case SetOp(_, _, _) =>
      UnionAgrees(E, tp, db, db', t);
  }
}
