/**
 What the verdict on a reference is, told from the lists of the decisions letter by letter, and
 what becomes of a projection: kept, or suppressed under a name.
 */
module Verdicts {
  import opened Wrappers
  import opened Text
  import opened TextLaws
  import opened Policies
  import opened SqlSyntax
  import opened Rewriter
  import opened VisitFacts
  import opened ProjectionInvariant
  import opened Semantics
  import opened References
  import opened NonInterference

  // ----- one decision -----

  /** The decision is not exempt, and one of the names has the letters of the column's. */
  predicate Restricts(d: Decision, names: seq<string>, col: string) {
    !d.exempt && exists k :: 0 <= k < |names| && SameLetters(names[k], col)
  }

  lemma {:induction false} ListedExact(name: string, names: seq<string>)
    ensures ListedAnyCase(name, names) <==> exists k :: 0 <= k < |names| && SameLetters(names[k], name)
  {
    forall k | 0 <= k < |names| { CaseFoldsExactly(names[k], name); }
  }

  /** Deny comes before mask and mask before tokenize, and an exempt decision does nothing. */
  lemma {:induction false} ActionExact(d: Decision, col: string)
    ensures ActionIn(d, col) == Deny <==> Restricts(d, d.denied, col)
    ensures ActionIn(d, col) == Mask <==> !Restricts(d, d.denied, col) && Restricts(d, d.masked, col)
    ensures ActionIn(d, col) == Tokenize <==>
              !Restricts(d, d.denied, col) && !Restricts(d, d.masked, col) && Restricts(d, d.tokenized, col)
  {
    ListedExact(col, d.denied);
    ListedExact(col, d.masked);
    ListedExact(col, d.tokenized);
  }

  lemma {:induction false} ActionFolds(d: Decision, a: string, b: string)
    requires Lower(a) == Lower(b)
    ensures ActionIn(d, a) == ActionIn(d, b)
  {
  }

  /** The type of a column is that of the first entry with its letters. */
  lemma {:induction false} PiiExact(pii: seq<(string, Option<string>)>, col: string)
    ensures (forall k | 0 <= k < |pii| :: !SameLetters(pii[k].0, col)) ==> PiiOf(pii, col) == None
    ensures forall k | 0 <= k < |pii| && SameLetters(pii[k].0, col)
                       && (forall j | 0 <= j < k :: !SameLetters(pii[j].0, col)) :: PiiOf(pii, col) == pii[k].1
  {
    if pii != [] {
      CaseFoldsExactly(pii[0].0, col);
      PiiExact(pii[1..], col);
      forall k | 0 < k < |pii| && SameLetters(pii[k].0, col) && (forall j | 0 <= j < k :: !SameLetters(pii[j].0, col))
        ensures PiiOf(pii, col) == pii[k].1
      {
        assert pii[1..][k - 1] == pii[k] && !SameLetters(pii[0].0, col);
        assert forall j | 0 <= j < k - 1 :: pii[1..][j] == pii[j + 1];
      }
      if forall k | 0 <= k < |pii| :: !SameLetters(pii[k].0, col) {
        assert !SameLetters(pii[0].0, col);
        assert forall k | 0 <= k < |pii| - 1 :: pii[1..][k] == pii[k + 1];
      }
    }
  }

  // ----- the decisions of a SELECT -----

  /** The decision of entry `k` restricts the column. */
  predicate RestrictsAt(am: AliasMap, tp: TablePolicies, k: nat, col: string) {
    k < |am| && am[k].key in tp && ActionIn(tp[am[k].key], col) != Allow
  }

  /** For an unqualified name the first entry whose decision restricts it decides. */
  lemma {:induction false} FirstDecides(am: AliasMap, tp: TablePolicies, col: string)
    ensures FirstRestricting(am, tp, col) == NoVerdict <==> forall k: nat :: !RestrictsAt(am, tp, k, col)
    ensures forall k: nat | RestrictsAt(am, tp, k, col) && (forall j: nat | j < k :: !RestrictsAt(am, tp, j, col)) ::
              FirstRestricting(am, tp, col)
              == Verdict(ActionIn(tp[am[k].key], col), col, PiiOf(tp[am[k].key].pii, col))
  {
    if am != [] {
      FirstDecides(am[1..], tp, col);
      forall k: nat
        ensures RestrictsAt(am[1..], tp, k, col) <==> RestrictsAt(am, tp, k + 1, col)
      {
        if k + 1 < |am| { assert am[1..][k] == am[k + 1]; }
      }
      if RestrictsAt(am, tp, 0, col) {
        assert FirstRestricting(am, tp, col)
               == Verdict(ActionIn(tp[am[0].key], col), col, PiiOf(tp[am[0].key].pii, col));
      } else {
        forall k: nat | RestrictsAt(am, tp, k, col) && (forall j: nat | j < k :: !RestrictsAt(am, tp, j, col))
          ensures FirstRestricting(am, tp, col)
                  == Verdict(ActionIn(tp[am[k].key], col), col, PiiOf(tp[am[k].key].pii, col))
        {
          assert k > 0 && RestrictsAt(am[1..], tp, k - 1, col);
          forall j: nat | j < k - 1
            ensures !RestrictsAt(am[1..], tp, j, col)
          {
            assert !RestrictsAt(am, tp, j + 1, col);
          }
        }
        if forall k: nat :: !RestrictsAt(am, tp, k, col) {
          forall k: nat ensures !RestrictsAt(am[1..], tp, k, col) { assert !RestrictsAt(am, tp, k + 1, col); }
        }
        if FirstRestricting(am, tp, col) == NoVerdict {
          forall k: nat ensures !RestrictsAt(am, tp, k, col) {
            if k > 0 { assert !RestrictsAt(am[1..], tp, k - 1, col); }
          }
        }
      }
    }
  }

  lemma {:induction false} OneEntry(e: Entry, tp: TablePolicies, col: string)
    requires e.key in tp
    ensures FirstRestricting([e], tp, col).action == ActionIn(tp[e.key], col)
  {
    assert [e][1..] == [];
  }

  lemma {:induction false} OwnActionFirst(am: AliasMap, tp: TablePolicies, e: Entry, col: string)
    requires e in am && e.key in tp
    requires forall x | x in am && x.key in tp && ActionIn(tp[x.key], col) != Allow :: x.key == e.key
    ensures FirstRestricting(am, tp, col).action == ActionIn(tp[e.key], col)
  {
    if am[0].key in tp && ActionIn(tp[am[0].key], col) != Allow {
      assert am[0] in am;
    } else if am[0] != e {
      OwnActionFirst(am[1..], tp, e, col);
    } else {
      NoneRestricts(am[1..], tp, col);
    }
  }

  lemma {:induction false} NoneRestricts(am: AliasMap, tp: TablePolicies, col: string)
    requires forall x | x in am && x.key in tp :: ActionIn(tp[x.key], col) == Allow
    ensures FirstRestricting(am, tp, col).action == Allow
  {
    if am != [] {
      assert am[0] in am;
      NoneRestricts(am[1..], tp, col);
    }
  }

  lemma {:induction false} OwnAction(s: Select, tp: TablePolicies, db: Database, sub: Results, r: Ref, i: nat, j: nat,
                                     key: string)
    requires AliasesClear(s.sources) && FitsSources(s.sources, tp, db) && Governed(s.sources, i, key, tp)
    requires Answers(ScopeOf(db, sub, s.sources), r, i, j) && (r.table == "" || SpelledAs(r.table, s.sources[i]))
    ensures Resolve(r, SelAliasMap(s, tp), tp).action == ActionIn(tp[key], r.name)
  {
    var am := SelAliasMap(s, tp);
    if r.table == "" {
      QualifierFinds(s.sources, tp, i, key, BindName(s.sources[i]));
      FindEntry(am, BindName(s.sources[i]));
      forall x | x in am && x.key in tp && ActionIn(tp[x.key], r.name) != Allow
        ensures x.key == key
      {
        OnlyOwnDecisionRestricts(s, tp, db, sub, r, i, j, x);
      }
      OwnActionFirst(am, tp, Entry(BindName(s.sources[i]), key), r.name);
    } else {
      QualifierFinds(s.sources, tp, i, key, r.table);
      OneEntry(Entry(r.table, key), tp, r.name);
    }
  }

  /**
   The verdict on a reference to a column of a governed table is deny, mask or tokenize exactly as the lists of
   the table's decision say for that column.
   */
  lemma {:induction false} ColumnVerdictExact(s: Select, tp: TablePolicies, db: Database, sub: Results, r: Ref, i: nat,
                                              j: nat, key: string)
    requires AliasesClear(s.sources) && FitsSources(s.sources, tp, db) && Governed(s.sources, i, key, tp)
    requires Answers(ScopeOf(db, sub, s.sources), r, i, j) && (r.table == "" || SpelledAs(r.table, s.sources[i]))
    ensures var d, col, a := tp[key], ColsOf(db, s.sources[i].name)[j], Resolve(r, SelAliasMap(s, tp), tp).action;
            && (a == Deny <==> Restricts(d, d.denied, col))
            && (a == Mask <==> !Restricts(d, d.denied, col) && Restricts(d, d.masked, col))
            && (a == Tokenize <==>
                  !Restricts(d, d.denied, col) && !Restricts(d, d.masked, col) && Restricts(d, d.tokenized, col))
  {
    OwnAction(s, tp, db, sub, r, i, j, key);
    ActionFolds(tp[key], r.name, ColsOf(db, s.sources[i].name)[j]);
    ActionExact(tp[key], ColsOf(db, s.sources[i].name)[j]);
  }

  /** The decision for a table is stored under its name, or else under its name in one letter case, lower case first. */
  lemma {:induction false} PolicyKeyExact(tp: TablePolicies, name: string, k: string)
    ensures PolicyKey(tp, name) == Some(k) <==>
              && k in tp && SameLetters(name, k)
              && (k == name || (name !in tp && NoUpper(k))
                  || (name !in tp && NoLower(k) && forall l | l in tp && SameLetters(name, l) :: !NoUpper(l)))
  {
    FoldedExact(name, k);
    forall l { FoldedExact(name, l); }
    FoldedExact(name, Lower(name));
    CaseFoldsExactly(name, name);
  }

  // ----- a projection -----

  lemma {:induction false} JudgedAs(refs: seq<Ref>, am: AliasMap, tp: TablePolicies)
    ensures Judge(refs, am, tp).action == Deny <==> exists r :: r in refs && Resolve(r, am, tp).action == Deny
    ensures Judge(refs, am, tp).action == Mask <==>
              (exists r :: r in refs && Resolve(r, am, tp).action == Mask)
              && forall r | r in refs :: Resolve(r, am, tp).action != Deny
    ensures Judge(refs, am, tp).action == Allow <==> forall r | r in refs :: Resolve(r, am, tp).action == Allow
  {
    if refs != [] {
      JudgedAs(refs[1..], am, tp);
      assert forall r :: r in refs <==> r == refs[0] || r in refs[1..];
    }
  }

  /**
   A projection stays exactly when no reference in it resolves to deny, and to mask only if it is a bare column;
   tokenized columns stay whatever is computed from them.
   */
  lemma {:induction false} StaysExactly(p: Expr, am: AliasMap, tp: TablePolicies)
    ensures Keeps(p, am, tp) <==>
              forall r | r in Refs(Inner(p)) ::
                && Resolve(r, am, tp).action != Deny
                && (Resolve(r, am, tp).action == Mask ==> Inner(p).Col? || Inner(p).QualStar?)
    ensures Keeps(p, am, tp) ==> RewriteProj(p, am, tp) == p
  {
    JudgedAs(Refs(Inner(p)), am, tp);
  }

  /** Otherwise it becomes NULL, under its alias, or under the name of its only reference, or without a name. */
  lemma {:induction false} SuppressedAs(p: Expr, am: AliasMap, tp: TablePolicies)
    requires !Keeps(p, am, tp)
    ensures var refs, q := Refs(Inner(p)), RewriteProj(p, am, tp);
            if p.Alias? && p.name != "" then q == Alias(Null, p.name)
            else if |refs| == 1 && refs[0].name != "" then q == Alias(Null, refs[0].name)
            else q == Null
  {
  }

  // ----- row filters -----

  type Origin = (string, RowFilter)

  lemma {:induction false} OwnOnce(alias: string, key: string, fs: seq<RowFilter>, seen: Seen)
    returns (from: seq<Origin>)
    ensures |from| == |OwnConditions(alias, key, fs, seen)|
    ensures forall i | 0 <= i < |from| ::
              && from[i] !in seen && from[i].0 == key && from[i].1 in fs && from[i].1.column != ""
              && OwnConditions(alias, key, fs, seen)[i] == FilterExpr(alias, from[i].1)
    ensures forall i, j | 0 <= i < j < |from| :: from[i] != from[j]
  {
    if fs == [] {
      from := [];
    } else if fs[0].column == "" || (key, fs[0]) in seen {
      from := OwnOnce(alias, key, fs[1..], seen);
    } else {
      var rest := OwnOnce(alias, key, fs[1..], seen + {(key, fs[0])});
      from := [(key, fs[0])] + rest;
    }
  }

  /** The condition is the filter, under an alias of the filter's decision. */
  predicate AddedFor(am: AliasMap, o: Origin, c: Expr) {
    exists e :: e in am && e.key == o.0 && c == FilterExpr(e.alias, o.1)
  }

  predicate Accounts(am: AliasMap, from: seq<Origin>, cs: seq<Expr>) {
    |from| == |cs| && forall i | 0 <= i < |from| :: AddedFor(am, from[i], cs[i])
  }

  predicate AllDifferent(from: seq<Origin>) {
    forall i, j | 0 <= i < j < |from| :: from[i] != from[j]
  }

  lemma {:induction false} AccountsJoin(am: AliasMap, from: seq<Origin>, cs: seq<Expr>, from': seq<Origin>,
                                        cs': seq<Expr>)
    requires am != [] && Accounts(am, from, cs) && Accounts(am[1..], from', cs')
    ensures Accounts(am, from + from', cs + cs')
  {
    forall i | 0 <= i < |from'|
      ensures AddedFor(am, from'[i], cs'[i])
    {
      assert AddedFor(am[1..], from'[i], cs'[i]);
    }
  }

  lemma {:induction false} DifferentJoin(from: seq<Origin>, from': seq<Origin>, seen: Seen)
    requires AllDifferent(from) && AllDifferent(from')
    requires (forall o | o in from :: o in seen) && (forall o | o in from' :: o !in seen)
    ensures AllDifferent(from + from')
  {
    forall i, j | 0 <= i < |from| && 0 <= j < |from'|
      ensures from[i] != from'[j]
    {
      assert from[i] in from && from'[j] in from';
    }
  }

  lemma {:induction false} OwnAccounts(am: AliasMap, fs: seq<RowFilter>, seen: Seen) returns (from: seq<Origin>)
    requires am != []
    ensures Accounts(am, from, OwnConditions(am[0].alias, am[0].key, fs, seen)) && AllDifferent(from)
    ensures forall o | o in from :: o !in seen && o in Marked(am[0].key, fs)
  {
    from := OwnOnce(am[0].alias, am[0].key, fs, seen);
    forall i | 0 <= i < |from|
      ensures AddedFor(am, from[i], OwnConditions(am[0].alias, am[0].key, fs, seen)[i])
    {
      assert am[0] in am;
    }
  }

  /** No filter of a decision is added twice, under whatever aliases the decision is there. */
  lemma {:induction false} FiltersOnce(am: AliasMap, tp: TablePolicies, seen: Seen) returns (from: seq<Origin>)
    ensures Accounts(am, from, Conditions(am, tp, seen)) && AllDifferent(from)
    ensures forall o | o in from :: o !in seen
  {
    if am == [] {
      from := [];
    } else {
      var fs := FiltersOf(tp, am[0].key);
      var marked := Marked(am[0].key, fs);
      var own := OwnAccounts(am, fs, seen);
      var rest := FiltersOnce(am[1..], tp, seen + marked);
      AccountsJoin(am, own, OwnConditions(am[0].alias, am[0].key, fs, seen), rest,
                   Conditions(am[1..], tp, seen + marked));
      DifferentJoin(own, rest, marked);
      from := own + rest;
    }
  }
}
