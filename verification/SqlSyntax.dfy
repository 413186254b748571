/**
 The SELECT trees that the gateway rewrites.

 An expression holds nested SELECTs only in `Sub`; a SELECT holds them in its
 expressions and in its derived tables.  `Kids` lists the SELECTs directly
 below a node and `Apply` replaces them, so that every walk over a tree can be
 written as a recursion on SELECTs alone.
 */
module SqlSyntax {
  import opened Wrappers

  datatype Expr =
    | Null
    | Lit(text: string)
    | Star
    | QualStar(table: string)
    | Col(table: string, name: string)              // table "" means unqualified
    | Op(op: string, left: Expr, right: Expr)
    | And(left: Expr, right: Expr)
    | InList(arg: Expr, items: seq<string>)
    | Agg(fn: string, arg: Expr)
    | Sub(kind: string, arg: Expr, query: Select)   // scalar, IN and EXISTS subqueries
    | Alias(arg: Expr, name: string)

  datatype Source =
    | Table(name: string, alias: string)            // alias "" means none
    | Derived(query: Select, alias: string)

  /** `ons` holds the conditions of the inner joins; `tail` stands for DISTINCT, LIMIT and OFFSET. */
  datatype Select = Select(
    projs: seq<Expr>,
    sources: seq<Source>,
    ons: seq<Expr>,
    where: Option<Expr>,
    group: seq<Expr>,
    having: Option<Expr>,
    order: seq<Expr>,
    tail: string)

  // ----- the SELECTs directly below a node -----

  // SELECTs that lie inside a piece of syntax, so that a recursion over it may go on into them.

  ghost predicate InExpr(e: Expr, ks: seq<Select>) {
    forall k | k in ks :: e decreases to k
  }

  ghost predicate InExprs(es: seq<Expr>, ks: seq<Select>) {
    forall k | k in ks :: es decreases to k
  }

  ghost predicate InOption(o: Option<Expr>, ks: seq<Select>) {
    forall k | k in ks :: o decreases to k
  }

  ghost predicate InSources(ss: seq<Source>, ks: seq<Select>) {
    forall k | k in ks :: ss decreases to k
  }

  ghost predicate Below(s: Select, ks: seq<Select>) {
    forall k | k in ks :: s decreases to k
  }

  function Kids(e: Expr): (r: seq<Select>)
    ensures InExpr(e, r)
  {
    match e
    case Op(_, l, r) => Kids(l) + Kids(r)
    case And(l, r) => Kids(l) + Kids(r)
    case InList(a, _) => Kids(a)
    case Agg(_, a) => Kids(a)
    case Sub(_, a, q) => Kids(a) + [q]
    case Alias(a, _) => Kids(a)
    case _ => []
  }

  function KidsL(es: seq<Expr>): (r: seq<Select>)
    ensures InExprs(es, r)
    ensures forall k :: k in r <==> exists i :: 0 <= i < |es| && k in Kids(es[i])
  {
    if es == [] then [] else
      assert es == [es[0]] + es[1..];
      Kids(es[0]) + KidsL(es[1..])
  }

  function KidsO(o: Option<Expr>): (r: seq<Select>)
    ensures InOption(o, r)
  {
    match o case None => [] case Some(e) => Kids(e)
  }

  function KidsS(ss: seq<Source>): (r: seq<Select>)
    ensures InSources(ss, r)
    ensures forall k :: k in r <==> exists i :: 0 <= i < |ss| && ss[i].Derived? && k == ss[i].query
  {
    if ss == [] then [] else
      assert ss == [ss[0]] + ss[1..];
      (if ss[0].Derived? then [ss[0].query] else []) + KidsS(ss[1..])
  }

  function SelKids(s: Select): (r: seq<Select>)
    ensures Below(s, r)
    ensures forall k :: k in r <==>
      k in KidsL(s.projs) || k in KidsS(s.sources) || k in KidsL(s.ons) || k in KidsO(s.where)
      || k in KidsL(s.group) || k in KidsO(s.having) || k in KidsL(s.order)
  {
    KidsL(s.projs) + KidsS(s.sources) + KidsL(s.ons) + KidsO(s.where)
    + KidsL(s.group) + KidsO(s.having) + KidsL(s.order)
  }

  // ----- nesting depth -----

  ghost function MaxOf(s: set<nat>): (m: nat)
    requires s != {}
    ensures m in s && forall x | x in s :: x <= m
  {
    var x :| x in s;
    if s == {x} then x else
      var y := MaxOf(s - {x});
      assert s == (s - {x}) + {x};
      if x > y then x else y
  }

  /** How many SELECTs lie on the longest downward path below `s`. */
  ghost function Depth(s: Select): (d: nat)
    decreases s
    ensures forall k | k in SelKids(s) :: Depth(k) < d
  {
    var ks := SelKids(s);
    var below := set i | 0 <= i < |ks| :: assert ks[i] in ks; Depth(ks[i]);
    assert forall k | k in ks :: Depth(k) in below;
    if below == {} then 0 else 1 + MaxOf(below)
  }

  /** A tree whose children are no deeper than those of `s` is no deeper itself. */
  lemma {:induction false} DepthBound(s: Select, t: Select)
    requires forall k | k in SelKids(t) :: Depth(k) < Depth(s)
    ensures Depth(t) <= Depth(s)
  {
  }

  // ----- replacing the SELECTs directly below a node -----

  type Subst = map<Select, Select>

  function Get(m: Subst, k: Select): Select {
    if k in m then m[k] else k
  }

  function GetAll(m: Subst, ks: seq<Select>): seq<Select> {
    seq(|ks|, i requires 0 <= i < |ks| => Get(m, ks[i]))
  }

  function Apply(e: Expr, m: Subst): Expr {
    match e
    case Op(op, l, r) => Op(op, Apply(l, m), Apply(r, m))
    case And(l, r) => And(Apply(l, m), Apply(r, m))
    case InList(a, items) => InList(Apply(a, m), items)
    case Agg(fn, a) => Agg(fn, Apply(a, m))
    case Sub(kind, a, q) => Sub(kind, Apply(a, m), Get(m, q))
    case Alias(a, n) => Alias(Apply(a, m), n)
    case _ => e
  }

  function ApplyL(es: seq<Expr>, m: Subst): seq<Expr> {
    seq(|es|, i requires 0 <= i < |es| => Apply(es[i], m))
  }

  function ApplyO(o: Option<Expr>, m: Subst): Option<Expr> {
    match o case None => None case Some(e) => Some(Apply(e, m))
  }

  function ApplyS(ss: seq<Source>, m: Subst): seq<Source> {
    seq(|ss|, i requires 0 <= i < |ss| =>
      if ss[i].Derived? then Derived(Get(m, ss[i].query), ss[i].alias) else ss[i])
  }

  function SelApply(s: Select, m: Subst): Select {
    Select(ApplyL(s.projs, m), ApplyS(s.sources, m), ApplyL(s.ons, m), ApplyO(s.where, m),
           ApplyL(s.group, m), ApplyO(s.having, m), ApplyL(s.order, m), s.tail)
  }

  // ----- laws of replacement -----

  lemma {:induction false} GetAllConcat(m: Subst, a: seq<Select>, b: seq<Select>)
    ensures GetAll(m, a + b) == GetAll(m, a) + GetAll(m, b)
  {
  }

  lemma {:induction false} KidsApply(e: Expr, m: Subst)
    ensures Kids(Apply(e, m)) == GetAll(m, Kids(e))
  {
    match e
    case Op(_, l, r) => KidsApply(l, m); KidsApply(r, m); GetAllConcat(m, Kids(l), Kids(r));
    case And(l, r) => KidsApply(l, m); KidsApply(r, m); GetAllConcat(m, Kids(l), Kids(r));
    case InList(a, _) => KidsApply(a, m);
    case Agg(_, a) => KidsApply(a, m);
    case Alias(a, _) => KidsApply(a, m);
    case Sub(_, a, q) => KidsApply(a, m); GetAllConcat(m, Kids(a), [q]);
    case _ =>
  }

  lemma {:induction false} KidsApplyL(es: seq<Expr>, m: Subst)
    ensures KidsL(ApplyL(es, m)) == GetAll(m, KidsL(es))
  {
    if es != [] {
      assert ApplyL(es, m)[1..] == ApplyL(es[1..], m);
      KidsApply(es[0], m);
      KidsApplyL(es[1..], m);
      GetAllConcat(m, Kids(es[0]), KidsL(es[1..]));
    }
  }

  lemma {:induction false} KidsApplyO(o: Option<Expr>, m: Subst)
    ensures KidsO(ApplyO(o, m)) == GetAll(m, KidsO(o))
  {
    if o.Some? { KidsApply(o.value, m); }
  }

  lemma {:induction false} KidsApplyS(ss: seq<Source>, m: Subst)
    ensures KidsS(ApplyS(ss, m)) == GetAll(m, KidsS(ss))
  {
    if ss != [] {
      assert ApplyS(ss, m)[1..] == ApplyS(ss[1..], m);
      KidsApplyS(ss[1..], m);
      GetAllConcat(m, if ss[0].Derived? then [ss[0].query] else [], KidsS(ss[1..]));
    }
  }

  /** Replacing the children replaces exactly the children, in place. */
  lemma {:induction false} SelKidsApply(s: Select, m: Subst)
    ensures SelKids(SelApply(s, m)) == GetAll(m, SelKids(s))
  {
    KidsApplyL(s.projs, m);
    KidsApplyS(s.sources, m);
    KidsApplyL(s.ons, m);
    KidsApplyO(s.where, m);
    KidsApplyL(s.group, m);
    KidsApplyO(s.having, m);
    KidsApplyL(s.order, m);
    var k1, k2, k3 := KidsL(s.projs), KidsS(s.sources), KidsL(s.ons);
    var k4, k5, k6, k7 := KidsO(s.where), KidsL(s.group), KidsO(s.having), KidsL(s.order);
    GetAllConcat(m, k1, k2);
    GetAllConcat(m, k1 + k2, k3);
    GetAllConcat(m, k1 + k2 + k3, k4);
    GetAllConcat(m, k1 + k2 + k3 + k4, k5);
    GetAllConcat(m, k1 + k2 + k3 + k4 + k5, k6);
    GetAllConcat(m, k1 + k2 + k3 + k4 + k5 + k6, k7);
  }

  lemma {:induction false} ApplySubTwice(kind: string, a: Expr, q: Select, m1: Subst, m2: Subst, m: Subst)
    requires Apply(Apply(a, m1), m2) == Apply(a, m) && Get(m2, Get(m1, q)) == Get(m, q)
    ensures Apply(Apply(Sub(kind, a, q), m1), m2) == Apply(Sub(kind, a, q), m)
  {
  }

  lemma {:induction false} ApplyTwice(e: Expr, m1: Subst, m2: Subst, m: Subst)
    requires forall k | k in Kids(e) :: Get(m2, Get(m1, k)) == Get(m, k)
    ensures Apply(Apply(e, m1), m2) == Apply(e, m)
  {
    match e
    case Op(_, l, r) => ApplyTwice(l, m1, m2, m); ApplyTwice(r, m1, m2, m);
    case And(l, r) => ApplyTwice(l, m1, m2, m); ApplyTwice(r, m1, m2, m);
    case InList(a, _) => ApplyTwice(a, m1, m2, m);
    case Agg(_, a) => ApplyTwice(a, m1, m2, m);
    case Alias(a, _) => ApplyTwice(a, m1, m2, m);
    case Sub(kind, a, q) =>
      assert q in Kids(e);
      ApplyTwice(a, m1, m2, m);
      ApplySubTwice(kind, a, q, m1, m2, m);
    case _ =>
  }

  lemma {:induction false} ApplyTwiceL(es: seq<Expr>, m1: Subst, m2: Subst, m: Subst)
    requires forall k | k in KidsL(es) :: Get(m2, Get(m1, k)) == Get(m, k)
    ensures ApplyL(ApplyL(es, m1), m2) == ApplyL(es, m)
  {
    forall i | 0 <= i < |es| { ApplyTwice(es[i], m1, m2, m); }
  }

  lemma {:induction false} ApplyTwiceO(o: Option<Expr>, m1: Subst, m2: Subst, m: Subst)
    requires forall k | k in KidsO(o) :: Get(m2, Get(m1, k)) == Get(m, k)
    ensures ApplyO(ApplyO(o, m1), m2) == ApplyO(o, m)
  {
    if o.Some? { ApplyTwice(o.value, m1, m2, m); }
  }

  lemma {:induction false} ApplyTwiceS(ss: seq<Source>, m1: Subst, m2: Subst, m: Subst)
    requires forall k | k in KidsS(ss) :: Get(m2, Get(m1, k)) == Get(m, k)
    ensures ApplyS(ApplyS(ss, m1), m2) == ApplyS(ss, m)
  {
    assert forall i | 0 <= i < |ss| && ss[i].Derived? :: ss[i].query in KidsS(ss);
  }

  /** Replacing twice is replacing once by the composition. */
  lemma {:induction false} SelApplyTwice(s: Select, m1: Subst, m2: Subst, m: Subst)
    requires forall k | k in SelKids(s) :: Get(m2, Get(m1, k)) == Get(m, k)
    ensures SelApply(SelApply(s, m1), m2) == SelApply(s, m)
  {
    ApplyTwiceL(s.projs, m1, m2, m);
    ApplyTwiceS(s.sources, m1, m2, m);
    ApplyTwiceL(s.ons, m1, m2, m);
    ApplyTwiceO(s.where, m1, m2, m);
    ApplyTwiceL(s.group, m1, m2, m);
    ApplyTwiceO(s.having, m1, m2, m);
    ApplyTwiceL(s.order, m1, m2, m);
  }

  lemma {:induction false} ApplyNothing(e: Expr, m: Subst)
    requires forall k | k in Kids(e) :: Get(m, k) == k
    ensures Apply(e, m) == e
  {
    match e
    case Op(_, l, r) => ApplyNothing(l, m); ApplyNothing(r, m);
    case And(l, r) => ApplyNothing(l, m); ApplyNothing(r, m);
    case InList(a, _) => ApplyNothing(a, m);
    case Agg(_, a) => ApplyNothing(a, m);
    case Alias(a, _) => ApplyNothing(a, m);
    case Sub(_, a, q) => assert q in Kids(e); ApplyNothing(a, m);
    case _ =>
  }

  /** Only the children matter to a replacement. */
  lemma {:induction false} ApplySame(e: Expr, m1: Subst, m2: Subst)
    requires forall k | k in Kids(e) :: Get(m1, k) == Get(m2, k)
    ensures Apply(e, m1) == Apply(e, m2)
  {
    match e
    case Op(_, l, r) => ApplySame(l, m1, m2); ApplySame(r, m1, m2);
    case And(l, r) => ApplySame(l, m1, m2); ApplySame(r, m1, m2);
    case InList(a, _) => ApplySame(a, m1, m2);
    case Agg(_, a) => ApplySame(a, m1, m2);
    case Alias(a, _) => ApplySame(a, m1, m2);
    case Sub(_, a, q) => assert q in Kids(e); ApplySame(a, m1, m2);
    case _ =>
  }

  lemma {:induction false} SelApplySame(s: Select, m1: Subst, m2: Subst)
    requires forall k | k in SelKids(s) :: Get(m1, k) == Get(m2, k)
    ensures SelApply(s, m1) == SelApply(s, m2)
  {
    forall i | 0 <= i < |s.projs| { ApplySame(s.projs[i], m1, m2); }
    forall i | 0 <= i < |s.ons| { ApplySame(s.ons[i], m1, m2); }
    forall i | 0 <= i < |s.group| { ApplySame(s.group[i], m1, m2); }
    forall i | 0 <= i < |s.order| { ApplySame(s.order[i], m1, m2); }
    if s.where.Some? { ApplySame(s.where.value, m1, m2); }
    if s.having.Some? { ApplySame(s.having.value, m1, m2); }
    assert forall i | 0 <= i < |s.sources| && s.sources[i].Derived? :: s.sources[i].query in KidsS(s.sources);
    assert ApplyS(s.sources, m1) == ApplyS(s.sources, m2);
    assert ApplyL(s.projs, m1) == ApplyL(s.projs, m2);
    assert ApplyL(s.ons, m1) == ApplyL(s.ons, m2);
    assert ApplyL(s.group, m1) == ApplyL(s.group, m2);
    assert ApplyL(s.order, m1) == ApplyL(s.order, m2);
  }

  lemma {:induction false} SelApplyNothing(s: Select, m: Subst)
    requires forall k | k in SelKids(s) :: Get(m, k) == k
    ensures SelApply(s, m) == s
  {
    SelApplySame(s, m, map[]);
    forall e: Expr { ApplyNothing(e, map[]); }
    assert ApplyS(s.sources, map[]) == s.sources;
    assert ApplyL(s.projs, map[]) == s.projs;
    assert ApplyL(s.ons, map[]) == s.ons;
    assert ApplyL(s.group, map[]) == s.group;
    assert ApplyL(s.order, map[]) == s.order;
  }

  /** Replacing children by no deeper ones makes the tree no deeper. */
  lemma {:induction false} DepthApply(s: Select, m: Subst)
    requires forall k | k in SelKids(s) :: Depth(Get(m, k)) <= Depth(k)
    ensures Depth(SelApply(s, m)) <= Depth(s)
  {
    SelKidsApply(s, m);
    var t := SelApply(s, m);
    forall k | k in SelKids(t)
      ensures Depth(k) < Depth(s)
    {
      var i :| 0 <= i < |SelKids(t)| && SelKids(t)[i] == k;
      assert SelKids(s)[i] in SelKids(s);
    }
    DepthBound(s, t);
  }
}
