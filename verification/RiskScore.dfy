/**
 The risk score of a rewritten query, in hundredths before rounding and tenths after: it
 never falls as what it counts grows, and executing the query adds at most twenty points.
 */
module RiskScore {
  import opened Policies
  import opened Rewriter
  import opened RewriteLog

  datatype Level = Low | Medium | High | Critical

  /** What a score is made of. */
  datatype Counts = Counts(
    denied: nat, masked: nat, tokenized: nat, warnings: nat,
    tables: nat, filtered: bool, exempt: bool, auto: bool, rows: nat)

  function CountsOf(meta: Meta, tp: TablePolicies, rows: nat): Counts {
    Counts(|meta.denied|, |meta.masked|, |meta.tokenized|, |meta.warnings|, |tp|, meta.filtered,
           exists k :: k in tp && tp[k].exempt, exists k :: k in tp && tp[k].autoPolicy, rows)
  }

  function Points(c: bool, p: nat): nat {
    if c then p else 0
  }

  function RowHundredths(rows: nat): nat {
    if rows <= 2000 then rows else 2000
  }

  /** The sum of the factors, in hundredths of a point. */
  function Hundredths(c: Counts): nat {
    100 * (c.denied * 15 + c.masked * 10 + c.tokenized * 8 + (if c.tables > 1 then (c.tables - 1) * 5 else 0)
           + Points(!c.filtered && c.tables > 0, 10) + Points(c.exempt, 5) + c.warnings * 3 + Points(c.auto, 5))
    + RowHundredths(c.rows)
  }

  /** Rounding to the nearest tenth; `up` says which ties go up. */
  function Tenths(h: nat, up: nat -> bool): nat {
    if h % 10 < 5 || (h % 10 == 5 && !up(h)) then h / 10 else h / 10 + 1
  }

  function LevelOf(tenths: nat): Level {
    if tenths >= 800 then Critical else if tenths >= 500 then High else if tenths >= 200 then Medium else Low
  }

  function Score(c: Counts, up: nat -> bool): nat {
    Tenths(Hundredths(c), up)
  }

  // ----- the loop over the factors -----

  datatype Factor =
    | DeniedColumns | MaskedColumns | TokenizedColumns | JoinDepth | NoRowFilter
    | RowCount | AdminExempt | LeakageWarnings | AutoPolicy

  /** Points by factor, in hundredths. */
  type Factors = seq<(Factor, nat)>

  function Sum(fs: Factors): nat {
    if fs == [] then 0 else Sum(fs[..|fs| - 1]) + fs[|fs| - 1].1
  }

  lemma {:induction false} SumLast(fs: Factors, name: Factor, n: nat)
    ensures Sum(fs + [(name, n)]) == Sum(fs) + n
  {
    assert (fs + [(name, n)])[..|fs|] == fs;
  }

  /** A factor that counts nothing is not listed. */
  method AddFactor(fs: Factors, name: Factor, n: nat) returns (r: Factors)
    ensures Sum(r) == Sum(fs) + n
  {
    r := fs;
    if n != 0 {
      r := fs + [(name, n)];
      SumLast(fs, name, n);
    }
  }

  method CollectFactors(c: Counts) returns (factors: Factors)
    ensures Sum(factors) == Hundredths(c)
  {
    factors := AddFactor([], DeniedColumns, 100 * (c.denied * 15));
    factors := AddFactor(factors, MaskedColumns, 100 * (c.masked * 10));
    factors := AddFactor(factors, TokenizedColumns, 100 * (c.tokenized * 8));
    factors := CollectTableFactors(factors, c);
    factors := AddFactor(factors, LeakageWarnings, 100 * (c.warnings * 3));
    if c.auto { factors := AddFactor(factors, AutoPolicy, 500); }
  }

  method CollectTableFactors(fs: Factors, c: Counts) returns (factors: Factors)
    ensures Sum(factors) == Sum(fs) + 100 * (if c.tables > 1 then (c.tables - 1) * 5 else 0)
                            + 100 * Points(!c.filtered && c.tables > 0, 10)
                            + RowHundredths(c.rows) + 100 * Points(c.exempt, 5)
  {
    factors := AddFactor(fs, JoinDepth, 100 * (if c.tables > 1 then (c.tables - 1) * 5 else 0));
    if !c.filtered && c.tables > 0 { factors := AddFactor(factors, NoRowFilter, 1000); }
    factors := AddFactor(factors, RowCount, if c.rows <= 2000 then c.rows else 2000);
    if c.exempt { factors := AddFactor(factors, AdminExempt, 500); }
  }

  method SumFactors(factors: Factors) returns (total: nat)
    ensures total == Sum(factors)
  {
    total := 0;
    for i := 0 to |factors|
      invariant total == Sum(factors[..i])
    {
      assert factors[..i + 1][..i] == factors[..i];
      total := total + factors[i].1;
    }
    assert factors[..|factors|] == factors;
  }

  method ScoreQuery(meta: Meta, tp: TablePolicies, rows: nat, up: nat -> bool)
    returns (score: nat, level: Level, factors: Factors)
    ensures score == Score(CountsOf(meta, tp, rows), up) && level == LevelOf(score)
    ensures Sum(factors) == Hundredths(CountsOf(meta, tp, rows))
  {
    factors := CollectFactors(CountsOf(meta, tp, rows));
    var total := SumFactors(factors);
    score := Tenths(total, up);
    level := LevelOf(score);
  }

  // ----- monotonicity -----

  /** `b` counts at least what `a` counts, and filters no more. */
  predicate Grows(a: Counts, b: Counts) {
    && a.denied <= b.denied && a.masked <= b.masked && a.tokenized <= b.tokenized && a.warnings <= b.warnings
    && a.tables <= b.tables && (b.filtered ==> a.filtered) && (a.exempt ==> b.exempt) && (a.auto ==> b.auto)
      && a.rows <= b.rows
  }

  function RankOf(l: Level): nat {
    match l case Low => 0 case Medium => 1 case High => 2 case Critical => 3
  }

  lemma {:induction false} TenthsGrow(h: nat, k: nat, up: nat -> bool)
    requires h <= k
    ensures Tenths(h, up) <= Tenths(k, up)
  {
    if h / 10 == k / 10 { assert h % 10 == h - 10 * (h / 10) && k % 10 == k - 10 * (k / 10); }
  }

  /** Neither score nor level falls as the counts grow, however ties are rounded. */
  lemma {:induction false} ScoreGrows(a: Counts, b: Counts, up: nat -> bool)
    requires Grows(a, b)
    ensures Score(a, up) <= Score(b, up)
    ensures RankOf(LevelOf(Score(a, up))) <= RankOf(LevelOf(Score(b, up)))
  {
    TenthsGrow(Hundredths(a), Hundredths(b), up);
  }

  lemma {:induction false} FewerTables(tp: TablePolicies, more: TablePolicies)
    requires tp.Keys <= more.Keys
    ensures |tp| <= |more|
  {
    Subset(tp.Keys, more.Keys);
    assert |tp| == |tp.Keys| && |more| == |more.Keys|;
  }

  lemma {:induction false} Subset(a: set<string>, b: set<string>)
    requires a <= b
    ensures |a| <= |b|
  {
    assert b == a + (b - a);
    assert |b| == |a| + |b - a|;
  }

  /** More decisions, none of them changed, never lower the score. */
  lemma {:induction false} MoreTablesScoreMore(meta: Meta, tp: TablePolicies, more: TablePolicies, rows: nat,
                                               up: nat -> bool)
    requires forall k | k in tp :: k in more && more[k] == tp[k]
    ensures Score(CountsOf(meta, tp, rows), up) <= Score(CountsOf(meta, more, rows), up)
  {
    FewerTables(tp, more);
    ScoreGrows(CountsOf(meta, tp, rows), CountsOf(meta, more, rows), up);
  }

  /** Scoring again with the rows returned never lowers the level and adds at most twenty points. */
  lemma {:induction false} RescoringAdds(meta: Meta, tp: TablePolicies, rows: nat, up: nat -> bool)
    ensures var pre, post := Score(CountsOf(meta, tp, 0), up), Score(CountsOf(meta, tp, rows), up);
            pre <= post <= pre + 200 && RankOf(LevelOf(pre)) <= RankOf(LevelOf(post))
  {
    var a, b := CountsOf(meta, tp, 0), CountsOf(meta, tp, rows);
    ScoreGrows(a, b, up);
    var base := Hundredths(a);
    WholePoints(a, up);
    assert Hundredths(b) <= base + 2000;
    TenthsGrow(Hundredths(b), base + 2000, up);
  }

  /** Without rows a score is a whole number of points, and so is one with two thousand or more. */
  lemma {:induction false} WholePoints(c: Counts, up: nat -> bool)
    requires c.rows == 0
    ensures Hundredths(c) % 100 == 0
    ensures Tenths(Hundredths(c), up) * 10 == Hundredths(c)
    ensures Tenths(Hundredths(c) + 2000, up) == Tenths(Hundredths(c), up) + 200
  {
    var points := Hundredths(c) / 100;
    assert Hundredths(c) == 100 * points;
    WholeTenths(points, up);
    WholeTenths(points + 20, up);
  }

  lemma {:induction false} WholeTenths(points: nat, up: nat -> bool)
    ensures Tenths(100 * points, up) == 10 * points
  {
  }

  // ----- what each count is worth -----

  /** Nothing counted is nothing scored, but for the missing row filter once a table is read. */
  lemma {:induction false} NothingScoresNothing(tables: nat, filtered: bool)
    ensures Hundredths(Counts(0, 0, 0, 0, 0, filtered, false, false, 0)) == 0
    ensures Hundredths(Counts(0, 0, 0, 0, 1, filtered, false, false, 0)) == if filtered then 0 else 1000
  {
  }

  /** One more column, or warning, is worth its weight. */
  lemma {:induction false} ColumnsAreWorth(c: Counts)
    ensures Hundredths(c.(denied := c.denied + 1)) == Hundredths(c) + 1500
    ensures Hundredths(c.(masked := c.masked + 1)) == Hundredths(c) + 1000
    ensures Hundredths(c.(tokenized := c.tokenized + 1)) == Hundredths(c) + 800
    ensures Hundredths(c.(warnings := c.warnings + 1)) == Hundredths(c) + 300
  {
  }

  /** So is one more table, the want of a row filter, and a row, up to twenty points. */
  lemma {:induction false} TablesAreWorth(c: Counts)
    ensures c.tables >= 1 ==> Hundredths(c.(tables := c.tables + 1)) == Hundredths(c) + 500
    ensures c.tables >= 1 ==> Hundredths(c.(filtered := false)) == Hundredths(c.(filtered := true)) + 1000
    ensures Hundredths(c.(rows := c.rows + 1)) == Hundredths(c) + if c.rows < 2000 then 1 else 0
  {
  }

  /** So is an exempt decision, and an automatic one. */
  lemma {:induction false} FlagsAreWorth(c: Counts)
    ensures Hundredths(c.(exempt := true)) == Hundredths(c.(exempt := false)) + 500
    ensures Hundredths(c.(auto := true)) == Hundredths(c.(auto := false)) + 500
  {
  }

  /** The counts are those of the metadata and of the decisions. */
  lemma {:induction false} CountedExactly(meta: Meta, tp: TablePolicies, rows: nat)
    ensures var c := CountsOf(meta, tp, rows);
            && c.denied == |meta.denied| && c.masked == |meta.masked.Keys| && c.tokenized == |meta.tokenized.Keys|
            && c.warnings == |meta.warnings| && c.tables == |tp.Keys| && c.rows == rows && c.filtered == meta.filtered
            && (c.exempt <==> exists k :: k in tp && tp[k].exempt)
            && (c.auto <==> exists k :: k in tp && tp[k].autoPolicy)
  {
  }

  /** Before execution, when the score is whole, the grades begin at 80, 50 and 20 points. */
  lemma {:induction false} GradedExactly(c: Counts, up: nat -> bool)
    requires c.rows == 0
    ensures var level := LevelOf(Score(c, up));
            && (level == Critical <==> Hundredths(c) >= 8000)
            && (level == High <==> 5000 <= Hundredths(c) < 8000)
            && (level == Medium <==> 2000 <= Hundredths(c) < 5000)
            && (level == Low <==> Hundredths(c) < 2000)
  {
    WholePoints(c, up);
  }

  /** After it, with rows counted, a query is critical from 79.95 points on, that score itself being a tie. */
  lemma {:induction false} CriticalExactly(c: Counts, up: nat -> bool)
    ensures LevelOf(Score(c, up)) == Critical <==> Hundredths(c) > 7995 || (Hundredths(c) == 7995 && up(7995))
  {
    var h := Hundredths(c);
    assert h == 10 * (h / 10) + h % 10;
  }
}
