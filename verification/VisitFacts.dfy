/** What the parts of a visit amount to: the alias map, star expansion, and the verdict on an expression. */
module VisitFacts {
  import opened Wrappers
  import opened Policies
  import opened SqlSyntax
  import opened Rewriter

  // ----- the alias map -----

  /** The source binds the name, by its alias or by its table name, to a decision. */
  predicate Binds(src: Source, tp: TablePolicies, name: string) {
    src.Table? && PolicyKey(tp, src.name).Some? && (name == BindName(src) || name == src.name)
  }

  /** The decision of the last source that binds the name. */
  function LastBinding(ss: seq<Source>, tp: TablePolicies, name: string): Option<string> {
    if ss == [] then None
    else if Binds(ss[|ss| - 1], tp, name) then PolicyKey(tp, ss[|ss| - 1].name)
    else LastBinding(ss[..|ss| - 1], tp, name)
  }

  lemma {:induction false} FindAssigned(am: AliasMap, alias: string, key: string, name: string)
    ensures Find(Assign(am, alias, key), name) == if name == alias then Some(key) else Find(am, name)
  {
    if am != [] && am[0].alias != alias { FindAssigned(am[1..], alias, key, name); }
  }

  lemma {:induction false} AssignMembers(am: AliasMap, alias: string, key: string)
    ensures forall e | e in Assign(am, alias, key) :: e in am || e == Entry(alias, key)
  {
    if am != [] && am[0].alias != alias { AssignMembers(am[1..], alias, key); }
  }

  lemma {:induction false} FindEntry(am: AliasMap, alias: string)
    ensures Find(am, alias).Some? ==> Entry(alias, Find(am, alias).value) in am
  {
    if am != [] && am[0].alias != alias { FindEntry(am[1..], alias); }
  }

  /** A name stands for the decision of the last source that goes by it, as alias or as table name. */
  lemma {:induction false} LastSourceWins(ss: seq<Source>, tp: TablePolicies, name: string)
    ensures Find(BuildAliasMap(ss, tp), name) == LastBinding(ss, tp, name)
  {
    if ss != [] {
      var before, src := ss[..|ss| - 1], ss[|ss| - 1];
      LastSourceWins(before, tp, name);
      if src.Table? && PolicyKey(tp, src.name).Some? {
        var am, key := BuildAliasMap(before, tp), PolicyKey(tp, src.name).value;
        FindAssigned(am, BindName(src), key, name);
        FindAssigned(Assign(am, BindName(src), key), src.name, key, name);
      }
    }
  }

  // ----- star expansion -----

  lemma {:induction false} ColumnsExact(table: string, names: seq<string>, p: Expr)
    ensures p in Columns(table, names) <==> exists c :: c in names && p == Col(table, c)
  {
    if c :| c in names && p == Col(table, c) {
      var i :| 0 <= i < |names| && names[i] == c;
      assert Columns(table, names)[i] == p;
    }
  }

  /** A bare star stands for the known columns of every alias's decision, and nothing else. */
  lemma {:induction false} StarIsAllKnown(am: AliasMap, tp: TablePolicies, p: Expr)
    ensures p in AllKnown(am, tp) <==> exists e, c :: e in am && c in KnownOf(tp, e.key) && p == Col("", c)
  {
    if am != [] {
      ColumnsExact("", KnownOf(tp, am[0].key), p);
      StarIsAllKnown(am[1..], tp, p);
      assert am == [am[0]] + am[1..];
    }
  }

  /** How many columns the first `k` entries of the map know. */
  function KnownBefore(am: AliasMap, tp: TablePolicies, k: nat): nat
    requires k <= |am|
  {
    if k == 0 then 0 else KnownBefore(am, tp, k - 1) + |KnownOf(tp, am[k - 1].key)|
  }

  lemma {:induction false} KnownAfterFirst(am: AliasMap, tp: TablePolicies, k: nat)
    requires k < |am|
    ensures KnownBefore(am, tp, k + 1) == |KnownOf(tp, am[0].key)| + KnownBefore(am[1..], tp, k)
  {
    if k > 0 { KnownAfterFirst(am, tp, k - 1); }
  }

  lemma {:induction false} StarLength(am: AliasMap, tp: TablePolicies)
    ensures |AllKnown(am, tp)| == KnownBefore(am, tp, |am|)
  {
    if am != [] {
      StarLength(am[1..], tp);
      KnownAfterFirst(am, tp, |am| - 1);
    }
  }

  /** Known column `i` of entry `k` has its place in the expanded star. */
  predicate InPlace(am: AliasMap, tp: TablePolicies, k: nat, i: nat)
    requires k < |am| && i < |KnownOf(tp, am[k].key)|
  {
    var at := KnownBefore(am, tp, k) + i;
    at < |AllKnown(am, tp)| && AllKnown(am, tp)[at] == Col("", KnownOf(tp, am[k].key)[i])
  }

  lemma {:induction false} StarAt(am: AliasMap, tp: TablePolicies, k: nat, i: nat)
    requires k < |am| && i < |KnownOf(tp, am[k].key)|
    ensures InPlace(am, tp, k, i)
  {
    if k > 0 {
      StarAt(am[1..], tp, k - 1, i);
      KnownAfterFirst(am, tp, k - 1);
    }
  }

  /** A bare star lists the known columns of each entry's decision in order, entry after entry, and nothing else. */
  lemma {:induction false} StarInOrder(am: AliasMap, tp: TablePolicies)
    ensures |AllKnown(am, tp)| == KnownBefore(am, tp, |am|)
    ensures forall k, i | 0 <= k < |am| && 0 <= i < |KnownOf(tp, am[k].key)| :: InPlace(am, tp, k, i)
  {
    StarLength(am, tp);
    forall k, i | 0 <= k < |am| && 0 <= i < |KnownOf(tp, am[k].key)| { StarAt(am, tp, k, i); }
  }

  /** A star is expanded where something is known for it, to unqualified columns or to columns under its qualifier. */
  lemma {:induction false} StarExpandsExactly(p: Expr, am: AliasMap, tp: TablePolicies)
    ensures p.Star? ==> ExpandStar(p, am, tp) == if KnownBefore(am, tp, |am|) == 0 then [p] else AllKnown(am, tp)
    ensures p.QualStar? && (Find(am, p.table) == None || KnownOf(tp, Find(am, p.table).value) == []) ==>
              ExpandStar(p, am, tp) == [p]
    ensures p.QualStar? && Find(am, p.table).Some? && KnownOf(tp, Find(am, p.table).value) != [] ==>
              var known := KnownOf(tp, Find(am, p.table).value);
              |ExpandStar(p, am, tp)| == |known|
              && forall i | 0 <= i < |known| :: ExpandStar(p, am, tp)[i] == Col(p.table, known[i])
    ensures !p.Star? && !p.QualStar? ==> ExpandStar(p, am, tp) == [p]
  {
    StarInOrder(am, tp);
  }

  lemma {:induction false} ColumnStays(p: Expr, am: AliasMap, tp: TablePolicies)
    requires p.Col?
    ensures ExpandStar(p, am, tp) == [p]
  {
  }

  lemma {:induction false} ExpandColumns(cols: seq<Expr>, am: AliasMap, tp: TablePolicies)
    requires forall p | p in cols :: p.Col?
    ensures ExpandStars(cols, am, tp) == cols
  {
    if cols != [] {
      assert cols[0] in cols && forall p | p in cols[1..] :: p in cols;
      ColumnStays(cols[0], am, tp);
      ExpandColumns(cols[1..], am, tp);
    }
  }

  lemma {:induction false} ExpandStarsConcat(a: seq<Expr>, b: seq<Expr>, am: AliasMap, tp: TablePolicies)
    ensures ExpandStars(a + b, am, tp) == ExpandStars(a, am, tp) + ExpandStars(b, am, tp)
  {
    if a == [] {
      assert a + b == b;
    } else {
      assert (a + b)[1..] == a[1..] + b;
      ExpandStarsConcat(a[1..], b, am, tp);
      assert ExpandStar(a[0], am, tp) + (ExpandStars(a[1..], am, tp) + ExpandStars(b, am, tp))
             == ExpandStar(a[0], am, tp) + ExpandStars(a[1..], am, tp) + ExpandStars(b, am, tp);
    }
  }

  lemma {:induction false} ExpandOnceMore(p: Expr, am: AliasMap, tp: TablePolicies)
    ensures ExpandStars(ExpandStar(p, am, tp), am, tp) == ExpandStar(p, am, tp)
  {
    AllKnownAreColumns(am, tp);
    if forall q | q in ExpandStar(p, am, tp) :: q.Col? {
      ExpandColumns(ExpandStar(p, am, tp), am, tp);
    } else {
      assert ExpandStar(p, am, tp) == [p] && [p][1..] == [];
      assert ExpandStars([p], am, tp) == [p] + ExpandStars([], am, tp);
    }
  }

  /** Expanding again changes nothing. */
  lemma {:induction false} ExpandTwice(ps: seq<Expr>, am: AliasMap, tp: TablePolicies)
    ensures ExpandStars(ExpandStars(ps, am, tp), am, tp) == ExpandStars(ps, am, tp)
  {
    if ps != [] {
      ExpandStarsConcat(ExpandStar(ps[0], am, tp), ExpandStars(ps[1..], am, tp), am, tp);
      ExpandOnceMore(ps[0], am, tp);
      ExpandTwice(ps[1..], am, tp);
    }
  }

  // ----- the verdict on an expression -----

  function RankAt(refs: seq<Ref>, i: nat, am: AliasMap, tp: TablePolicies): nat
    requires i < |refs|
  {
    Rank(Resolve(refs[i], am, tp).action)
  }

  /** The verdict is that of the first reference no other outranks; without a restricted reference there is none. */
  lemma {:induction false} FirstOfHighestRank(refs: seq<Ref>, am: AliasMap, tp: TablePolicies)
    ensures forall i | 0 <= i < |refs| :: RankAt(refs, i, am, tp) <= Rank(Judge(refs, am, tp).action)
    ensures Judge(refs, am, tp) == NoVerdict
            || exists i :: 0 <= i < |refs| && Resolve(refs[i], am, tp) == Judge(refs, am, tp)
                           && forall j | 0 <= j < i :: RankAt(refs, j, am, tp) < Rank(Judge(refs, am, tp).action)
  {
    if refs != [] {
      var rest := refs[1..];
      FirstOfHighestRank(rest, am, tp);
      assert forall i | 0 < i < |refs| ::
        refs[i] == rest[i - 1] && RankAt(refs, i, am, tp) == RankAt(rest, i - 1, am, tp);
      if Judge(refs, am, tp) == Judge(rest, am, tp) != Resolve(refs[0], am, tp) && Judge(rest, am, tp) != NoVerdict {
        var k :| 0 <= k < |rest| && Resolve(rest[k], am, tp) == Judge(rest, am, tp)
                 && forall j | 0 <= j < k :: RankAt(rest, j, am, tp) < Rank(Judge(rest, am, tp).action);
        assert Resolve(refs[k + 1], am, tp) == Judge(refs, am, tp);
        assert forall j | 0 < j < k + 1 :: RankAt(refs, j, am, tp) == RankAt(rest, j - 1, am, tp);
      } else if Judge(refs, am, tp) != NoVerdict {
        assert Resolve(refs[0], am, tp) == Judge(refs, am, tp);
      }
    }
  }
}
