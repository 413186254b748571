/**
 Which alias of a decision is filtered.  The rewriter adds each filter of a decision once
 for a SELECT, under the first alias that stands for the decision, so in a self-join the
 rows of the second copy stay unfiltered.
 */
module SelfJoins {
  import opened Policies
  import opened SqlSyntax
  import opened Rewriter
  import opened References

  /** No earlier alias stands for the same decision. */
  predicate FirstFor(am: AliasMap, j: nat) {
    j < |am| && forall i | 0 <= i < j :: am[i].key != am[j].key
  }

  /** `c` is filter `f` of the decision behind alias `j`, which is the first alias of that decision. */
  predicate Injected(am: AliasMap, tp: TablePolicies, seen: Seen, j: nat, f: RowFilter, c: Expr) {
    && FirstFor(am, j) && (am[j].key, f) !in seen
    && f in FiltersOf(tp, am[j].key) && f.column != "" && c == FilterExpr(am[j].alias, f)
  }

  lemma {:induction false} OwnMembers(alias: string, key: string, fs: seq<RowFilter>, seen: Seen, c: Expr)
    ensures c in OwnConditions(alias, key, fs, seen) <==>
              exists f :: f in fs && f.column != "" && (key, f) !in seen && c == FilterExpr(alias, f)
  {
    if fs != [] {
      OwnMembers(alias, key, fs[1..], seen, c);
      OwnMembers(alias, key, fs[1..], seen + {(key, fs[0])}, c);
      assert fs == [fs[0]] + fs[1..];
    }
  }

  lemma {:induction false} AllSeen(alias: string, key: string, fs: seq<RowFilter>, seen: Seen)
    requires forall f | f in fs && f.column != "" :: (key, f) in seen
    ensures OwnConditions(alias, key, fs, seen) == []
  {
    if fs != [] {
      assert fs[0] in fs;
      AllSeen(alias, key, fs[1..], seen);
    }
  }

  lemma {:induction false} InjectedFirst(am: AliasMap, tp: TablePolicies, seen: Seen, c: Expr)
    requires am != []
    ensures c in OwnConditions(am[0].alias, am[0].key, FiltersOf(tp, am[0].key), seen)
            <==> exists f :: Injected(am, tp, seen, 0, f, c)
  {
    var own := OwnConditions(am[0].alias, am[0].key, FiltersOf(tp, am[0].key), seen);
    OwnMembers(am[0].alias, am[0].key, FiltersOf(tp, am[0].key), seen, c);
    if c in own {
      var f :| f in FiltersOf(tp, am[0].key) && f.column != "" && (am[0].key, f) !in seen
        && c == FilterExpr(am[0].alias, f);
      assert Injected(am, tp, seen, 0, f, c);
    }
  }

  lemma {:induction false} InjectedLater(am: AliasMap, tp: TablePolicies, seen: Seen, j: nat, f: RowFilter, c: Expr)
    requires am != []
    ensures Injected(am[1..], tp, seen + Marked(am[0].key, FiltersOf(tp, am[0].key)), j, f, c)
            <==> Injected(am, tp, seen, j + 1, f, c)
  {
    if j < |am| - 1 { assert am[1..][j] == am[j + 1]; }
    if FirstFor(am[1..], j) && am[0].key != am[j + 1].key {
      forall i | 0 <= i < j + 1 ensures am[i].key != am[j + 1].key {
        if i > 0 { assert am[1..][i - 1] == am[i]; }
      }
    }
    if FirstFor(am, j + 1) {
      forall i | 0 <= i < j ensures am[1..][i].key != am[1..][j].key { assert am[i + 1].key != am[j + 1].key; }
    }
  }

  /** A SELECT's injected conditions are exactly the filters of each decision under its first alias. */
  lemma {:induction false} OnlyFirstAliasFiltered(am: AliasMap, tp: TablePolicies, seen: Seen, c: Expr)
    ensures c in Conditions(am, tp, seen) <==> exists j: nat, f :: Injected(am, tp, seen, j, f, c)
  {
    if am != [] {
      var later := seen + Marked(am[0].key, FiltersOf(tp, am[0].key));
      InjectedFirst(am, tp, seen, c);
      OnlyFirstAliasFiltered(am[1..], tp, later, c);
      forall j: nat, f
        ensures Injected(am[1..], tp, later, j, f, c) <==> Injected(am, tp, seen, j + 1, f, c)
      {
        InjectedLater(am, tp, seen, j, f, c);
      }
      if j: nat, f :| Injected(am, tp, seen, j, f, c) {
        if j > 0 { assert Injected(am[1..], tp, later, j - 1, f, c); }
      }
    }
  }

  /** FROM n a, n b: no condition restricts the second copy. */
  lemma {:induction false} SecondCopyUnfiltered(s: Select, tp: TablePolicies, n: string, a: string, b: string,
                                                f: RowFilter)
    requires s.sources == [Table(n, a), Table(n, b)] && PolicyKey(tp, n).Some?
    requires a != "" && b != "" && a != b && a != n && b != n
    ensures FilterExpr(b, f) !in SelConditions(s, tp)
  {
    var am, key := SelAliasMap(s, tp), PolicyKey(tp, n).value;
    SelfJoinAliases(s.sources, tp, n, a, b);
    OnlyFirstAliasFiltered(am, tp, {}, FilterExpr(b, f));
    if j: nat, g :| Injected(am, tp, {}, j, g, FilterExpr(b, f)) {
      assert am[0].key == am[j].key == key;
      assert j == 0;
      FilterDirect(a, g);
      FilterDirect(b, f);
    }
  }

  lemma {:induction false} SelfJoinAliases(ss: seq<Source>, tp: TablePolicies, n: string, a: string, b: string)
    requires ss == [Table(n, a), Table(n, b)] && PolicyKey(tp, n).Some?
    requires a != "" && b != "" && a != b && a != n && b != n
    ensures var key := PolicyKey(tp, n).value; BuildAliasMap(ss, tp) == [Entry(a, key), Entry(n, key), Entry(b, key)]
  {
    var key := PolicyKey(tp, n).value;
    assert ss[..1] == [Table(n, a)] && ss[..1][..0] == [];
    assert BuildAliasMap([], tp) == [];
    var one := [Entry(a, key)];
    assert one[1..] == [];
    assert BuildAliasMap(ss[..1], tp) == Assign(Assign([], a, key), n, key) == [Entry(a, key), Entry(n, key)];
    AssignPair(a, n, b, key);
  }

  lemma {:induction false} AssignPair(a: string, n: string, b: string, key: string)
    requires a != b && a != n && b != n
    ensures Assign(Assign([Entry(a, key), Entry(n, key)], b, key), n, key)
            == [Entry(a, key), Entry(n, key), Entry(b, key)]
  {
    var am := [Entry(a, key), Entry(n, key)];
    assert am[1..] == [Entry(n, key)] && am[1..][1..] == [];
    assert Assign(am[1..], b, key) == [Entry(n, key), Entry(b, key)];
    var three := [Entry(a, key), Entry(n, key), Entry(b, key)];
    assert Assign(am, b, key) == three;
    assert three[1..] == [Entry(n, key), Entry(b, key)];
    assert Assign(three[1..], n, key) == three[1..];
  }
}
