/** Stripping of ORDER BY and HAVING at the root, and rewriting of set operations branch by branch. */
module Hardening {
  import opened Wrappers
  import opened Policies
  import opened SqlSyntax
  import opened Rewriter

  // ----- ORDER BY and HAVING -----

  /** The denied columns of all decisions together, as spelled, exempt decisions included. */
  function AllDenied(tp: TablePolicies): set<string> {
    set key, c | key in tp && c in tp[key].denied :: c
  }

  predicate Names(e: Expr, names: set<string>) {
    exists r | r in Refs(e) :: r.name in names
  }

  function WithoutNames(es: seq<Expr>, names: set<string>): seq<Expr> {
    if es == [] then []
    else (if Names(es[0], names) then [] else [es[0]]) + WithoutNames(es[1..], names)
  }

  function StripInference(s: Select, tp: TablePolicies): Select {
    var d := AllDenied(tp);
    if d == {} then s
    else s.(order := WithoutNames(s.order, d),
            having := if s.having.Some? && Names(s.having.value, d) then None else s.having)
  }

  lemma {:induction false} WithoutNamesKeeps(es: seq<Expr>, names: set<string>)
    ensures forall e :: e in WithoutNames(es, names) <==> e in es && !Names(e, names)
  {
    if es != [] {
      WithoutNamesKeeps(es[1..], names);
      assert es == [es[0]] + es[1..];
    }
  }

  /** The reference is to a name that some decision denies. */
  predicate RefersToDenied(r: Ref, tp: TablePolicies) {
    exists key :: key in tp && r.name in tp[key].denied
  }

  lemma {:induction false} NamesDenied(e: Expr, tp: TablePolicies)
    ensures Names(e, AllDenied(tp)) <==> exists r :: r in Refs(e) && RefersToDenied(r, tp)
  {
  }

  /**
   Stripping takes from ORDER BY, and from HAVING as a whole, what refers to a denied name, and leaves the rest
   in its order.
   */
  lemma {:induction false} StrippedExactly(s: Select, tp: TablePolicies, a: seq<Expr>, e: Expr, b: seq<Expr>)
    requires s.order == a + [e] + b
    ensures var refers, t := exists r :: r in Refs(e) && RefersToDenied(r, tp), StripInference(s, tp);
            t.order == WithoutNames(a, AllDenied(tp)) + (if refers then [] else [e]) + WithoutNames(b, AllDenied(tp))
    ensures var t := StripInference(s, tp);
            && t == s.(order := t.order, having := t.having)
            && (t.having == None || t.having == s.having)
            && (s.having.Some? && t.having == None <==>
                  s.having.Some? && exists r :: r in Refs(s.having.value) && RefersToDenied(r, tp))
  {
    var d := AllDenied(tp);
    NamesDenied(e, tp);
    if s.having.Some? { NamesDenied(s.having.value, tp); }
    WithoutNamesSplits(a + [e], b, d);
    WithoutNamesSplits(a, [e], d);
    assert WithoutNames([e], d) == if Names(e, d) then [] else [e];
    if d == {} {
      NothingWithout(a, d);
      NothingWithout(b, d);
      assert !Names(e, d);
    }
  }

  lemma {:induction false} WithoutNamesSplits(a: seq<Expr>, b: seq<Expr>, names: set<string>)
    ensures WithoutNames(a + b, names) == WithoutNames(a, names) + WithoutNames(b, names)
  {
    if a == [] {
      assert a + b == b;
    } else {
      assert (a + b)[1..] == a[1..] + b;
      WithoutNamesSplits(a[1..], b, names);
    }
  }

  lemma {:induction false} NothingWithout(es: seq<Expr>, names: set<string>)
    requires names == {}
    ensures WithoutNames(es, names) == es
  {
    if es != [] {
      NothingWithout(es[1..], names);
      assert !Names(es[0], names) && es == [es[0]] + es[1..];
    }
  }

  lemma {:induction false} StripKids(s: Select, tp: TablePolicies)
    ensures forall k | k in SelKids(StripInference(s, tp)) :: k in SelKids(s)
  {
    WithoutNamesKeeps(s.order, AllDenied(tp));
    var t := StripInference(s, tp);
    forall k | k in KidsL(t.order)
      ensures k in KidsL(s.order)
    {
      var i :| 0 <= i < |t.order| && k in Kids(t.order[i]);
      assert t.order[i] in t.order;
      var j :| 0 <= j < |s.order| && s.order[j] == t.order[i];
    }
  }

  // ----- set operations -----

  datatype QueryTree = Leaf(query: Select) | SetOp(op: string, left: QueryTree, right: QueryTree)

  function Branches(t: QueryTree): seq<Select> {
    match t
    case Leaf(q) => [q]
    case SetOp(_, l, r) => Branches(l) + Branches(r)
  }

  /** `rewriteFn` is what the caller passes to rewrite one branch. */
  function RewriteUnion(t: QueryTree, rewriteFn: Select -> Select): QueryTree {
    match t
    case Leaf(q) => Leaf(rewriteFn(q))
    case SetOp(op, l, r) => SetOp(op, RewriteUnion(l, rewriteFn), RewriteUnion(r, rewriteFn))
  }

  /** What the gateway runs: a lone SELECT is rewritten and stripped, a set operation branch by branch. */
  function RewriteQuery(t: QueryTree, tp: TablePolicies): QueryTree {
    match t
    case Leaf(q) => Leaf(StripInference(Rewrite(q, tp), tp))
    case SetOp(_, _, _) => RewriteUnion(t, q => Rewrite(q, tp))
  }

  /** A lone SELECT is rewritten and stripped; the branches of a set operation are rewritten and keep their places. */
  lemma {:induction false} QueryBranches(t: QueryTree, tp: TablePolicies)
    ensures SameShape(t, RewriteQuery(t, tp))
    ensures Branches(RewriteQuery(t, tp))
            == if t.Leaf? then [StripInference(Rewrite(t.query, tp), tp)] else Each(Branches(t), q => Rewrite(q, tp))
  {
    if t.SetOp? { UnionRewritesEveryBranch(t, q => Rewrite(q, tp)); }
  }

  function Each(qs: seq<Select>, f: Select -> Select): seq<Select> {
    seq(|qs|, i requires 0 <= i < |qs| => f(qs[i]))
  }

  /** The same operators in the same places. */
  predicate SameShape(t: QueryTree, u: QueryTree) {
    if t.SetOp? then u.SetOp? && u.op == t.op && SameShape(t.left, u.left) && SameShape(t.right, u.right) else u.Leaf?
  }

  /** Every branch is rewritten, in place, and none is added or lost. */
  lemma {:induction false} UnionRewritesEveryBranch(t: QueryTree, f: Select -> Select)
    ensures Branches(RewriteUnion(t, f)) == Each(Branches(t), f) && SameShape(t, RewriteUnion(t, f))
  {
    match t
    case Leaf(_) =>
    case SetOp(_, l, r) =>
      UnionRewritesEveryBranch(l, f);
      UnionRewritesEveryBranch(r, f);
      assert Each(Branches(l) + Branches(r), f) == Each(Branches(l), f) + Each(Branches(r), f);
  }
}
