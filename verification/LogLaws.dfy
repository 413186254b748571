/**
 What is recorded for a projection, from its verdict and its names, and what the metadata
 holds of the recorded events.
 */
module LogLaws {
  import opened Wrappers
  import opened Policies
  import opened SqlSyntax
  import opened Rewriter
  import opened RewriteLog
  import opened DeniedNames

  // ----- one projection -----

  /** The name a projection is known by: its alias, else the name of its only reference, else that of the verdict. */
  predicate KnownAs(p: Expr, v: Verdict, n: string) {
    if p.Alias? && p.name != "" then n == p.name
    else if |Refs(Inner(p))| == 1 && Refs(Inner(p))[0].name != "" then n == Refs(Inner(p))[0].name
    else n == v.name
  }

  /** A masked bare column is recorded under its name with the type of the column it is masked for. */
  lemma {:induction false} MaskRecorded(p: Expr, am: AliasMap, tp: TablePolicies, n: string, pii: Option<string>)
    ensures Masked(n, pii) in ProjEvents(p, am, tp) <==>
              var v := Judge(Refs(Inner(p)), am, tp);
              v.action == Mask && (Inner(p).Col? || Inner(p).QualStar?) && KnownAs(p, v, n) && n != "" && pii == v.pii
  {
  }

  /** Whatever is computed from a tokenized column is recorded under its name, with the column's. */
  lemma {:induction false} TokenRecorded(p: Expr, am: AliasMap, tp: TablePolicies, n: string, original: string)
    ensures Tokenized(n, original) in ProjEvents(p, am, tp) <==>
              var v := Judge(Refs(Inner(p)), am, tp);
              && v.action == Tokenize && KnownAs(p, v, n) && n != ""
              && original == if v.name != "" then v.name else n
  {
  }

  /** A suppressed projection is recorded as denied if it keeps a name. */
  lemma {:induction false} DenialRecorded(p: Expr, am: AliasMap, tp: TablePolicies, n: string)
    ensures Denied(n) in ProjEvents(p, am, tp) <==>
              !Keeps(p, am, tp) && n != "" && RewriteProj(p, am, tp) == Alias(Null, n)
  {
    ProjDenies(p, am, tp, n);
  }

  /** A warning is for a denied column among several references, or for a masked one that is not a bare column. */
  lemma {:induction false} WarningRecorded(p: Expr, am: AliasMap, tp: TablePolicies, c: string)
    ensures var v, refs := Judge(Refs(Inner(p)), am, tp), Refs(Inner(p));
            && (Warned(FunctionLeakage(c)) in ProjEvents(p, am, tp) <==>
                  v.action == Deny && |refs| > 1 && c == v.name && c != "")
            && (Warned(MaskedLeakage(c)) in ProjEvents(p, am, tp) <==>
                  v.action == Mask && !Inner(p).Col? && !Inner(p).QualStar? && c == v.name)
  {
  }

  // ----- the metadata -----

  predicate Masks(e: Event, n: string) {
    e.Masked? && e.name == n
  }

  predicate Tokenizes(e: Event, n: string) {
    e.Tokenized? && e.name == n
  }

  lemma {:induction false} MaskedIffRecorded(m: Meta, es: seq<Event>, n: string)
    ensures n in RecordAll(m, es).masked <==> n in m.masked || exists e :: e in es && Masks(e, n)
    ensures n in m.masked ==> RecordAll(m, es).masked[n] == m.masked[n]
    decreases |es|
  {
    if es != [] {
      MaskedIffRecorded(Record(m, es[0]), es[1..], n);
      assert es[0] in es && forall e :: e in es <==> e == es[0] || e in es[1..];
      assert Masks(es[0], n) <==> es[0].Masked? && es[0].name == n;
    }
  }

  lemma {:induction false} TokenizedIffRecorded(m: Meta, es: seq<Event>, n: string)
    ensures n in RecordAll(m, es).tokenized <==> n in m.tokenized || exists e :: e in es && Tokenizes(e, n)
    ensures n in m.tokenized ==> RecordAll(m, es).tokenized[n] == m.tokenized[n]
    decreases |es|
  {
    if es != [] {
      TokenizedIffRecorded(Record(m, es[0]), es[1..], n);
      assert es[0] in es && forall e :: e in es <==> e == es[0] || e in es[1..];
      assert Tokenizes(es[0], n) <==> es[0].Tokenized? && es[0].name == n;
    }
  }

  lemma {:induction false} RecordBetween(m: Meta, a: seq<Event>, e: Event, b: seq<Event>)
    ensures RecordAll(m, a + [e] + b) == RecordAll(Record(RecordAll(m, a), e), b)
  {
    RecordConcat(m, a + [e], b);
    RecordConcat(m, a, [e]);
    assert [e][1..] == [] && RecordAll(Record(RecordAll(m, a), e), []) == Record(RecordAll(m, a), e);
  }

  /** A masked name keeps the type, and a tokenized name the column, that was recorded for it first. */
  lemma {:induction false} FirstStays(a: seq<Event>, e: Event, b: seq<Event>)
    ensures var m := RecordAll(EmptyMeta, a + [e] + b);
            && (e.Masked? && (forall x | x in a :: !Masks(x, e.name)) ==>
                  e.name in m.masked && m.masked[e.name] == e.pii)
            && (e.Tokenized? && (forall x | x in a :: !Tokenizes(x, e.name)) ==>
                  e.name in m.tokenized && m.tokenized[e.name] == e.original)
  {
    RecordBetween(EmptyMeta, a, e, b);
    var m := RecordAll(EmptyMeta, a);
    if e.Masked? {
      MaskedIffRecorded(EmptyMeta, a, e.name);
      MaskedIffRecorded(Record(m, e), b, e.name);
    } else if e.Tokenized? {
      TokenizedIffRecorded(EmptyMeta, a, e.name);
      TokenizedIffRecorded(Record(m, e), b, e.name);
    }
  }

  predicate ListedOnce(names: seq<string>) {
    forall i, j | 0 <= i < j < |names| :: names[i] != names[j]
  }

  function WarningsIn(es: seq<Event>): seq<Warning> {
    if es == [] then [] else (if es[0].Warned? then [es[0].warning] else []) + WarningsIn(es[1..])
  }

  lemma {:induction false} RestFrom(m: Meta, es: seq<Event>)
    requires ListedOnce(m.denied)
    ensures var r := RecordAll(m, es);
            && ListedOnce(r.denied) && r.warnings == m.warnings + WarningsIn(es)
            && (r.filtered <==> m.filtered || Filtered in es)
    decreases |es|
  {
    if es != [] {
      RestFrom(Record(m, es[0]), es[1..]);
      assert es == [es[0]] + es[1..];
    }
  }

  /**
   The metadata names exactly what is recorded as denied, each name once, as masked and as tokenized; it holds
   every warning in order, and says that rows are filtered exactly when that is recorded.
   */
  lemma {:induction false} MetaExact(es: seq<Event>, n: string)
    ensures var m := RecordAll(EmptyMeta, es);
            && (n in m.denied <==> Denied(n) in es) && ListedOnce(m.denied)
            && (n in m.masked <==> exists e :: e in es && Masks(e, n))
            && (n in m.tokenized <==> exists e :: e in es && Tokenizes(e, n))
            && m.warnings == WarningsIn(es) && (m.filtered <==> Filtered in es)
  {
    RecordedNames(EmptyMeta, es, n);
    MaskedIffRecorded(EmptyMeta, es, n);
    TokenizedIffRecorded(EmptyMeta, es, n);
    RestFrom(EmptyMeta, es);
  }

  // ----- one visit -----

  predicate Records(q: Expr, am: AliasMap, tp: TablePolicies, e: Event) {
    e in ProjEvents(q, am, tp)
  }

  lemma {:induction false} NoProjectionFilters(q: Expr, am: AliasMap, tp: TablePolicies)
    ensures !Records(q, am, tp, Filtered)
  {
  }

  lemma {:induction false} ProjsRecord(qs: seq<Expr>, am: AliasMap, tp: TablePolicies, e: Event)
    ensures e in ProjsEvents(qs, am, tp) <==> exists i :: 0 <= i < |qs| && Records(qs[i], am, tp, e)
  {
    if qs != [] {
      ProjsRecord(qs[1..], am, tp, e);
      if i :| 0 <= i < |qs| && Records(qs[i], am, tp, e) {
        if i > 0 { assert qs[1..][i - 1] == qs[i]; }
      }
      if j :| 0 <= j < |qs| - 1 && Records(qs[1..][j], am, tp, e) { assert qs[j + 1] == qs[1..][j]; }
    }
  }

  /** A visit records for every projection, once stars are expanded, and that it filters rows exactly when it does. */
  lemma {:induction false} VisitRecords(s: Select, tp: TablePolicies, e: Event)
    ensures var am := SelAliasMap(s, tp);
            var qs := ExpandStars(s.projs, am, tp);
            && (e != Filtered ==> (e in VisitEvents(s, tp) <==>
                  am != [] && exists i :: 0 <= i < |qs| && Records(qs[i], am, tp, e)))
            && (Filtered in VisitEvents(s, tp) <==> am != [] && SelConditions(s, tp) != [])
  {
    var am := SelAliasMap(s, tp);
    var qs := ExpandStars(s.projs, am, tp);
    ProjsRecord(qs, am, tp, e);
    ProjsRecord(qs, am, tp, Filtered);
    forall i | 0 <= i < |qs| { NoProjectionFilters(qs[i], am, tp); }
  }
}
