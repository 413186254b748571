# Verification of the MetaSight query gateway

A Dafny model of MetaSight's query gateway, which turns a user's SQL into SQL that enforces the tenant's
policies, and of the small state machines around it. `dafny verify dfyconfig.toml` checks all of it.

## What is modelled

**The rewriter.** A query is a tree of SELECTs (`SqlSyntax.dfy`) with joined tables, derived tables and
subqueries. `Rewriter.dfy` says what one visit of a SELECT does: it builds the alias map, expands stars,
suppresses or keeps projections and injects row filters. It also says what the nested walk does, which visits
deep SELECTs several times; `VisitFacts.dfy` and `Verdicts.dfy` say what its parts amount to, and
`FilterMeaning.dfy` what an injected row filter asks of a cell. `SqlRewriter.dfy` runs the same as
loops that update a metadata object, and ties each loop to those functions. `RewriteLog.dfy` describes the
metadata as the events of the visits, and `LogLaws.dfy` says which they are.
`Semantics.dfy` gives a tree its meaning over a database: products of rows, NULL, three-valued logic,
grouping, ordering and a `finish` step for DISTINCT and LIMIT. The operators, aggregates, and what becomes of a whole row
or of a subquery's rows are arbitrary functions, so the theorems hold for every choice of them. The main results are
that denied columns do not show (`NonInterference.dfy`, with `References.dfy`, `QualifierLeak.dfy` and `RowLeak.dfy` on
references that must be kept out, by way of `OneTable.dfy`, and `DeniedOutput.dfy` on what is blanked of the output), that masked columns show only under names the metadata lists
(`MaskedOutput.dfy`, with `RenamedMask.dfy` and, for tokenized ones, `UnaliasedTokens.dfy` on where they do not), that row filters act as views (`FilteredView.dfy`, with `SelfJoins.dfy` and `ViewLimits.dfy` on where they do not),
that no projection of the resulting tree escapes the policies (`ProjectionInvariant.dfy`), and what the repeated visits
change (`RepeatedVisits.dfy`, `NamesAside.dfy`, `RepeatedFilters.dfy`, `LostNames.dfy`, `DeepProjections.dfy`,
`RepeatedMeaning.dfy`, `RewriteLog.dfy`, `OnePassLog.dfy`, `DeniedNames.dfy`, `VisitCount.dfy`). `LeakChecker.dfy` connects the
independent leak check with the rewriter.

**Policy decisions.** `RuleSelection.dfy` has the scan that finds the rule for a resource, `PolicyDecisions.dfy`
the lists made from a rule or from a column scan. `PolicyCache.dfy` has the cache keys and the
invalidation glob. `CacheRuns.dfy`, `CacheCoherence.dfy`, `CurrentEntries.dfy` and `Staleness.dfy` treat runs of the store with its cache, and
`PolicyService.dfy` the handlers and the engine as they update both. `Access.dfy` says who may read a table at all, and `PatternLaws.dfy`
what the three kinds of pattern match.

**Settings.** `Settings.dfy` has the recursive merge and the stored overrides.

**Windows and workflows.** `Lockout.dfy`, `BypassEvents.dfy`, `Approvals.dfy` and `TokenVault.dfy` treat one request as one
atomic step with one clock reading, and prove invariants over all runs.

**Strings and arithmetic.** `Comments.dfy`, `Masking.dfy` and `RiskScore.dfy`; `TextLaws.dfy` has the string helpers.

## Where the code differs from its documentation, or from what one would expect

- The comment at `backend/app/services/policy_engine.py:71` puts an exact match before a wildcard. The code orders by length
  and, at equal length, by position: a wildcard longer than the name wins wherever it is listed (`LongerWildcardWins`), one as
  long as the name wins when it is listed first (`EarlierWildcardWins`), and no other does (`ExactWinsExactly`).
- The alias map is looked up letter by letter (`backend/app/rewriters/sql_rewriter.py:121`) while databases fold names, so
  `SELECT T.ssn FROM t` passes with `ssn` denied (`UpperCaseLeaks`, `QualifierKeepsSecretExactly`, `HiddenResolvesExactly`).
  The gateway then blanks an output column called `ssn`, but not one that the query renames (`ResponseKeepsSecretExactly`).
- Only a star that is a whole projection is expanded (`backend/app/rewriters/sql_rewriter.py:468`), and a source's name is on
  no list, so `SELECT to_json(t.*) FROM t` and `SELECT t FROM t` pass with `ssn` denied (`WholeRowLeaks`,
  `StarKeepsSecretExactly`, `NameKeepsSecretExactly`, `AttributeKeepsSecretExactly`), and their output is not blanked
  (`StarResponseExactly`).
- Nothing is recorded for a SELECT over a derived table, so a masked column that it renames is not masked afterwards
  (`RenamingUnmasksExactly`).
- An expression over a tokenized column is recorded under its alias or the column's name
  (`backend/app/rewriters/sql_rewriter.py:580`). Without an alias its heading is neither, so it comes back as computed
  (`AliasTokenizesExactly`).
- `backend/app/api/approvals.py:10` lets any user execute an approved query. The gate lets only the requester, and uses the token
  up before it looks (`PresentedToken`).
- `backend/app/api/security.py:348` promises a block for the third event in five minutes. Events that were acknowledged and cleared no
  longer count (`ClearingForgets`, `AutoBlockedExact`).
- Repeated visits do not always leave the projections of a single pass: the row filter of a SELECT nested two or more deep in
  a projection is repeated, and a suppressed projection named after that one reference loses its name (`DeepProjectionsDiffer`,
  `RewriteIsOnePassExactly`). The walk then also warns of a function over several columns (`RewriteWarnsExactly`).
  All else agrees on every tree (`RewriteIsOnePassNamesAside`).
- Stripping compares denied names in the spelling of the decision while the rewriter ignores letter case
  (`StripMissesOtherCase`, `StripIsExact`).
- Row filters reach only the first alias of a decision (`OnlyFirstAliasFiltered`, `SecondCopyUnfiltered`, `SelfJoinShowsMore`), and the
  filter of a nested SELECT can suppress the projection that holds it (`NestedFilterSuppresses`).
- A rule found by the case-insensitive LIKE, in which an underscore stands for any character, need not have its cached decision
  invalidated (`UnderscoreGoesStale`, `OtherCaseGoesStale`, `CoherentExactly`, `EntriesAreCurrent`).
- The gateway's own event for a refused query is committed only where the package for screenshots is installed: its import at
  `backend/app/api/query.py:455` comes after the event is added, and its failure rolls the event back.

## Model

| member | source | states |
|---|---|---|
| NonInterference.DeniedColumnsDoNotShow | backend/app/rewriters/sql_rewriter.py:255-260 | a rewritten query, lone SELECT (stripped at the root) or set operation, computes the same relation, row order included, on any two databases that differ only in denied columns; the database folds names and reads whole rows, and the query's references are spelled as their sources and stand for no row with a denied column |
| NonInterference.HiddenResolvesExactly | backend/app/rewriters/sql_rewriter.py:121-125 | a reference that a denied column answers resolves to deny exactly when its qualifier is absent or spells the alias or the table name letter by letter, and to nothing otherwise |
| QualifierLeak.QualifierKeepsSecretExactly | backend/app/rewriters/sql_rewriter.py:121-125 | SELECT q.c FROM n AS a with c denied keeps the column secret exactly when q is absent or spelled a or n; in another letter case the rewritten query shows it |
| QualifierLeak.UpperCaseLeaks | backend/app/rewriters/sql_rewriter.py:121-125 | SELECT T.ssn FROM t with ssn denied is such a query: its answer depends on ssn |
| RowLeak.StarKeepsSecretExactly | backend/app/rewriters/sql_rewriter.py:468-490 | SELECT f(q.*) FROM n AS a with c denied keeps the column secret exactly when q is not the source's name in any letter case |
| RowLeak.NameKeepsSecretExactly | backend/app/rewriters/sql_rewriter.py:121-125 | SELECT q FROM n AS a and SELECT f(q) FROM n AS a keep it secret exactly when q is not the source's name, or is the denied column's |
| RowLeak.AttributeKeepsSecretExactly | backend/app/rewriters/sql_rewriter.py:121-125 | SELECT q.f FROM n AS a, f being no column, keeps it secret exactly when q is not the source's name |
| RowLeak.WholeRowLeaks | backend/app/rewriters/sql_rewriter.py:468-490 | SELECT to_json(t.*) FROM t and SELECT t FROM t, with ssn denied, are answered with ssn |
| DeniedOutput.ResponseKeepsSecretExactly | backend/app/api/query.py:533-583 | after denied columns are blanked by the names of the output, the response to SELECT q.c AS x FROM n AS a keeps c secret exactly when q is spelled like the source or the column comes back under its own name |
| DeniedOutput.ResponseCells | backend/app/api/query.py:533-583 | a cell of the response is the database's, or NULL under a heading the metadata lists as denied, or, where it lists none, one that some decision denies |
| DeniedOutput.StarResponseExactly | backend/app/api/query.py:533-583 | the response to SELECT f(q.*) FROM n AS a keeps it secret exactly when q is not the source's name: nothing blanks what a row is made into |
| DeniedOutput.SecretResponse | backend/app/api/query.py:533-583 | what the answer of the database does not depend on the response does not |
| References.QualifierFinds | backend/app/rewriters/sql_rewriter.py:432-440 | of the names that mean a governed source up to letter case, its alias and its table name stand for its decision, the others for none |
| References.VisitTame | backend/app/rewriters/sql_rewriter.py:389-404 | stars and row filters are written as columns under names spelled as the sources are, so a visit adds no reference in another letter case and none to a row |
| NonInterference.MeaningAgrees | backend/app/rewriters/sql_rewriter.py:498-591 | the same for any settled tree with such references none of whose conditions reads a denied column |
| NonInterference.RewriteClean | backend/app/rewriters/sql_rewriter.py:372-404 | rewriting a tree whose conditions read no denied column gives a tree with that property, injected row filters and expanded stars included |
| NonInterference.StrippedRewriteClean | backend/app/rewriters/hardening.py:363-410 | a lone SELECT, rewritten and stripped, reads no denied column in any condition |
| NonInterference.StripIsExact | backend/app/rewriters/hardening.py:378-408 | stripping leaves ORDER BY and HAVING free of denied columns exactly when every offending expression spells one as the decision lists it |
| NonInterference.StripMissesOtherCase | backend/app/rewriters/hardening.py:386-388 | a query whose ORDER BY keeps a denied column because the comparison looks at letter case |
| FilteredView.RowFiltersAreViews | backend/app/rewriters/sql_rewriter.py:593-647 | running the rewritten query equals running the query rewritten without row filters on the database cut to the rows whose filters are true, under three-valued logic and at every depth, subqueries in projections included, as long as source names are clear, no decision with a row filter governs two sources of one FROM and no nested row filter decides whether a projection is suppressed or how it is named |
| FilteredView.FlatQueriesSeeTheView | backend/app/rewriters/sql_rewriter.py:593-647 | in particular for queries without SELECTs in projections |
| FilteredView.OnePassOnView | backend/app/rewriters/sql_rewriter.py:593-647 | the same for one bottom-up pass |
| ViewLimits.SelfJoinShowsMore | backend/app/rewriters/sql_rewriter.py:610-625 | on a table of two rows, a self-join computes a row through its second copy that the view hides |
| ViewLimits.NestedFilterSuppresses | backend/app/rewriters/sql_rewriter.py:522-557 | a query whose nested row filter suppresses the projection that holds it: on every database the headings with and without row filters differ |
| FilteredView.ConditionsExact | backend/app/rewriters/sql_rewriter.py:610-631 | with distinct sources the injected conditions are exactly the usable filters of every governed source, each under that source's own name |
| FilteredView.ConditionsAreVisibility | backend/app/rewriters/sql_rewriter.py:593-647 | all injected conditions are true of a tuple exactly when each of its rows is visible in its table |
| FilteredView.VisitBoth | backend/app/rewriters/sql_rewriter.py:389-404 | a visit with row filters is the visit without them plus the injected conditions |
| MaskedOutput.MaskedShowOnlyNamed | backend/app/api/query.py:521-526 | for a SELECT over tables whose conditions read no denied and no masked column, the served query computes, on databases that differ only in such columns, the same heading and number of rows, and rows that agree in every output column the metadata does not name as masked; the same with tokenized columns as well, and output columns named as tokenized, where what is computed from them has an alias |
| MaskedOutput.MaskedProjectionsNamed | backend/app/rewriters/sql_rewriter.py:563-567 | in the tree that comes back, at every depth, a projection that refers to a masked column is a bare column whose alias or own name the metadata lists as masked |
| MaskedOutput.TokenizedProjectionsNamed | backend/app/rewriters/sql_rewriter.py:577-582 | in the tree that comes back, at every depth, a projection over a tokenized column has its alias or the column's name listed by the metadata as tokenized |
| UnaliasedTokens.AliasTokenizesExactly | backend/app/api/query.py:524-526 | SELECT f(c) AS x FROM n AS a, with c tokenized and an f that tells two values apart, shows c only under a name the metadata lists exactly when there is an alias |
| RenamedMask.RenamingUnmasksExactly | backend/app/api/query.py:521-523 | SELECT s.y AS x FROM (SELECT c AS y FROM n AS a) AS s, with c masked, shows c only where it is masked afterwards exactly when x is y |
| SelfJoins.OnlyFirstAliasFiltered | backend/app/rewriters/sql_rewriter.py:605-631 | for every alias map the injected conditions are exactly the filters of each decision under the first alias that stands for it |
| SelfJoins.SecondCopyUnfiltered | backend/app/rewriters/sql_rewriter.py:610-625 | in FROM n a, n b no filter is ever injected for b |
| ProjectionInvariant.RewrittenProjectionsObeyPolicy | backend/app/rewriters/sql_rewriter.py:372-404 | in the tree that comes back, every SELECT with a known table projects no reference that resolves to deny, and what resolves to mask is a bare column |
| ProjectionInvariant.RewriteSettles | backend/app/rewriters/sql_rewriter.py:382-404 | after all visits every SELECT has rewritten projections and ends in its own row filters |
| ProjectionInvariant.WalkKeepsSettled | backend/app/rewriters/sql_rewriter.py:382-387 | walking a rewritten tree again keeps that, although row filters are added inside nested SELECTs |
| ProjectionInvariant.RewriteAgain | backend/app/rewriters/sql_rewriter.py:372-404 | visiting a rewritten tree again changes no projection |
| ProjectionInvariant.JudgeRepeatedFilter | backend/app/rewriters/sql_rewriter.py:528-538 | a repeated row filter does not change the most restrictive action of what contains it |
| RepeatedVisits.RewriteIdempotent | backend/app/rewriters/sql_rewriter.py:382-404 | rewriting a rewritten tree changes nothing up to row filters repeated at the end of a WHERE |
| LostNames.RewriteIsOnePassExactly | backend/app/rewriters/sql_rewriter.py:382-404 | up to such repetitions the nested walk leaves the tree of one bottom-up pass exactly when, in no SELECT that survives, a suppressed projection without alias is named after its only reference and hides a row filter nested two or more deep |
| LostNames.NameKeptExactly | backend/app/rewriters/sql_rewriter.py:541-557 | a suppressed projection keeps the name of one bottom-up pass exactly when it is no such projection |
| LostNames.ShallowKeepsNames | backend/app/rewriters/sql_rewriter.py:382-404 | whatever the policies, this holds of queries whose projections hold no SELECT nested further |
| RepeatedFilters.WalkedRefs | backend/app/rewriters/sql_rewriter.py:382-387 | with no row filter below it, a SELECT holds after the walk the column references it holds after one pass |
| RepeatedFilters.WalkedHasTwo | backend/app/rewriters/sql_rewriter.py:382-387 | with a row filter below it, a SELECT holds at least two column references after the walk |
| NamesAside.RewriteIsOnePassNamesAside | backend/app/rewriters/sql_rewriter.py:382-404 | on every tree the nested walk and one bottom-up pass agree up to repeated row filters and the names of suppressed projections |
| NamesAside.KeepsPlain | backend/app/rewriters/sql_rewriter.py:522-557 | whether a projection is kept is told from its nested SELECTs up to such differences |
| NamesAside.PlainSameJudge | backend/app/rewriters/sql_rewriter.py:522-538 | trees are judged alike by every enclosing projection when repeated filters and names of suppressed projections are dropped |
| RepeatedVisits.LeafVisitedOnce | backend/app/rewriters/sql_rewriter.py:382-387 | a SELECT without nested SELECTs is rewritten once by its parent's walk |
| DeepProjections.DeepProjectionsDiffer | backend/app/rewriters/sql_rewriter.py:510-557 | a query on which repeated visits lose the name of a suppressed projection that one pass keeps, so the condition can fail |
| RepeatedMeaning.RewriteMeansOnePass | backend/app/rewriters/sql_rewriter.py:382-404 | where no name is lost the nested walk and one bottom-up pass mean the same on every database |
| RepeatedMeaning.RewriteAgainMeansTheSame | backend/app/rewriters/sql_rewriter.py:382-404 | rewriting a rewritten query does not change what it means |
| RepeatedMeaning.MeaningTidy | backend/app/rewriters/sql_rewriter.py:636-645 | dropping repeated row filters anywhere in a tree does not change what it means, unknown truth values included |
| RepeatedMeaning.MeaningApply | backend/app/rewriters/sql_rewriter.py:382-387 | replacing nested SELECTs by SELECTs with the same meaning keeps the meaning |
| OnePassLog.RewriteRecordsOnePass | backend/app/rewriters/sql_rewriter.py:550-587 | the nested walk records the metadata of one bottom-up pass, warnings included and in order, where no suppressed projection holds after that pass a single reference that hides a row filter nested two or more deep and either is denied or has no alias |
| DeniedNames.SameNamesDeniedExactly | backend/app/rewriters/sql_rewriter.py:550-551 | on every tree the walk lists no name as denied that one pass does not, and lists the same names exactly when every lost name was listed before or is listed for another projection that loses none |
| OnePassLog.RewriteWarnsExactly | backend/app/rewriters/sql_rewriter.py:553-561 | on every tree the walk gives at least the warnings of one pass, and gives the same exactly when no projection suppressed for a denied column is of that kind |
| RewriteLog.RewriteAgainRecordsNothing | backend/app/rewriters/sql_rewriter.py:550-587 | rewriting a rewritten tree records nothing new |
| RewriteLog.RewriteLeavesStanding | backend/app/rewriters/sql_rewriter.py:550-587 | whatever a rewriting leaves in the tree has been recorded, so later visits add nothing |
| RewriteLog.VisitEventsSettled | backend/app/rewriters/sql_rewriter.py:498-591 | a settled SELECT records only what it keeps |
| VisitCount.VisitsAreBounded | backend/app/rewriters/sql_rewriter.py:382-387 | during one walk a SELECT is rewritten at most as often as its weight, which doubles with each level of nesting |
| VisitCount.VisitedAtMost | backend/app/rewriters/sql_rewriter.py:382-387 | a SELECT at depth d + 1 is rewritten at most 2^d times |
| VisitFacts.LastSourceWins | backend/app/rewriters/sql_rewriter.py:428-442 | in the alias map a name stands for the decision of the last source that goes by it, as alias or as table name |
| VisitFacts.StarIsAllKnown | backend/app/rewriters/sql_rewriter.py:468-480 | a bare star stands for exactly the known columns of every alias's decision |
| VisitFacts.StarInOrder | backend/app/rewriters/sql_rewriter.py:468-480 | a bare star lists the known columns of each alias in turn, each decision's in its order |
| VisitFacts.StarExpandsExactly | backend/app/rewriters/sql_rewriter.py:468-490 | stars with known columns become those columns under their qualifier, and every other projection stays |
| VisitFacts.ExpandTwice | backend/app/rewriters/sql_rewriter.py:444-496 | expanding stars again changes nothing |
| VisitFacts.FirstOfHighestRank | backend/app/rewriters/sql_rewriter.py:522-538 | the verdict on an expression is that of the first reference no other outranks |
| FilterMeaning.FilterMeans | backend/app/rewriters/sql_rewriter.py:649-677 | for an engine whose comparisons are the ones they are named after, an injected filter is true of a tuple exactly when the cell it names is not NULL and stands to the filter's value in the relation its operator names: =, <> or !=, >, >=, <, <=, LIKE, or IN one of the stripped pieces between commas; any other operator is equality |
| FilterMeaning.RowVisibleExact | backend/app/rewriters/sql_rewriter.py:593-677 | the row filters let a row of a governed table through exactly when each filtered cell stands in the relation its filter names |
| TextLaws.SplitExact | backend/app/rewriters/sql_rewriter.py:670-671 | a text is cut at its commas in one way: the pieces hold no comma and make up the text with commas between them |
| TextLaws.StripExact | backend/app/rewriters/sql_rewriter.py:671 | stripping takes the whitespace from both ends and nothing else |
| TextLaws.SpaceExact | backend/app/rewriters/sql_rewriter.py:671 | whitespace is the blank, tab, the characters that end lines and pages and the four separators |
| TextLaws.CaseFoldsExactly | backend/app/rewriters/sql_rewriter.py:126-146 | names are equal after folding exactly when they have the same letters, whatever their case |
| Verdicts.ColumnVerdictExact | backend/app/rewriters/sql_rewriter.py:121-148 | the verdict on a reference to a column of a governed table is deny, mask or tokenize exactly as the decision's lists say: deny before mask before tokenize, up to letter case, and nothing for an exempt decision |
| Verdicts.FirstDecides | backend/app/rewriters/sql_rewriter.py:121-148 | for an unqualified name the first decision of the alias map that restricts it decides, with that decision's PII type |
| Verdicts.PiiExact | backend/app/rewriters/sql_rewriter.py:133-146 | the PII type of a column is that of the first entry with its letters |
| Verdicts.PolicyKeyExact | backend/app/rewriters/sql_rewriter.py:428-434 | a table's decision is the one stored under its name, else under its name in lower case, else in upper case |
| Verdicts.StaysExactly | backend/app/rewriters/sql_rewriter.py:522-588 | a projection stays exactly when none of its references is denied and a masked one is the whole projection; tokenized columns stay whatever is computed from them |
| Verdicts.SuppressedAs | backend/app/rewriters/sql_rewriter.py:541-576 | a suppressed projection becomes NULL under its alias, or under the name of its only reference, or without a name |
| Verdicts.FiltersOnce | backend/app/rewriters/sql_rewriter.py:602-631 | every injected condition is a filter of a decision under one of its aliases, and no filter of a decision is injected twice |
| LogLaws.DenialRecorded | backend/app/rewriters/sql_rewriter.py:546-573 | a projection is recorded as denied under the name it is suppressed under, and only then |
| LogLaws.MaskRecorded | backend/app/rewriters/sql_rewriter.py:563-567 | a kept masked column is recorded under its alias or name with the type of the column, and nothing else is recorded as masked |
| LogLaws.TokenRecorded | backend/app/rewriters/sql_rewriter.py:577-582 | whatever is computed from a tokenized column is recorded as tokenized under its alias, its only reference's name or the column's, with the column's name |
| LogLaws.WarningRecorded | backend/app/rewriters/sql_rewriter.py:552-576 | a warning is recorded for a denied column among several references and for a masked one that is not a bare column, and for nothing else |
| LogLaws.VisitRecords | backend/app/rewriters/sql_rewriter.py:389-404 | a visit records what its projections record once stars are expanded, and that rows are filtered exactly when a filter is injected |
| LogLaws.MetaExact | backend/app/rewriters/sql_rewriter.py:550-587 | the metadata names exactly what was recorded as denied, each once, as masked and as tokenized; it holds every warning in order, and says that rows are filtered exactly when that was recorded |
| LogLaws.FirstStays | backend/app/rewriters/sql_rewriter.py:565-582 | for a masked or tokenized name the type or column recorded first stays |
| Rewriter.Walk | backend/app/rewriters/sql_rewriter.py:382-387 | the nested walk terminates, for it never makes a tree deeper |
| Rewriter.Rewrite | backend/app/rewriters/sql_rewriter.py:372-404 | rewriting terminates and never makes a tree deeper |
| Rewriter.VisitKids | backend/app/rewriters/sql_rewriter.py:389-404 | a visit keeps or drops nested SELECTs and adds none |
| Rewriter.ConditionsAreFilters | backend/app/rewriters/sql_rewriter.py:605-631 | every injected condition is a row filter of a decision under one of its aliases |
| Rewriter.WalkedKid | backend/app/rewriters/sql_rewriter.py:382-387 | each nested SELECT of a walked tree is what the walk made of one of the original |
| Rewriter.Judge | backend/app/rewriters/sql_rewriter.py:526-538 | an expression that no reference restricts has no primary column and no PII type |
| Hardening.UnionRewritesEveryBranch | backend/app/rewriters/hardening.py:163-207 | the branches of a rewritten set operation are the rewritten branches, in order and under the same operators |
| Hardening.QueryBranches | backend/app/rewriters/hardening.py:163-207 | a lone SELECT is rewritten and stripped, the branches of a set operation are rewritten, and all keep their places |
| Hardening.StrippedExactly | backend/app/rewriters/hardening.py:378-408 | an ORDER BY expression goes exactly when it refers to a name some decision denies, the others keep their order; HAVING goes as a whole exactly when it refers to such a name; nothing else changes |
| Hardening.WithoutNamesKeeps | backend/app/rewriters/hardening.py:381-397 | stripping ORDER BY removes exactly the expressions that name a denied column |
| LeakChecker.LeaksExact | backend/app/rewriters/hardening.py:417-487 | for queries without common table expressions, the check lists a reference exactly when some SELECT projects it live under a name some decision denies |
| LeakChecker.CheckerAgrees | backend/app/rewriters/hardening.py:417-487 | on a rewritten and stripped query the check lists nothing, when every SELECT reads a governed table, qualifiers are known and all decisions deny the same names |
| LeakChecker.VerifyNoColumnLeak | backend/app/rewriters/hardening.py:417-487 | the nested loops list the live denied references of all SELECTs in order, common table expressions left out |
| LeakChecker.ScanProjections | backend/app/rewriters/hardening.py:450-485 | the loop over projections skips suppressed ones and lists the rest's denied references, common table expressions left out |
| LeakChecker.AppendNamed | backend/app/rewriters/hardening.py:458-483 | the loop over references keeps those whose name is denied, common table expressions left out |
| SqlRewriter.CollectAliases | backend/app/rewriters/sql_rewriter.py:406-442 | the loop over FROM and JOIN builds the ordered alias dictionary |
| SqlRewriter.ExpandAllStars | backend/app/rewriters/sql_rewriter.py:444-496 | the loop replaces stars by known columns and keeps everything else |
| SqlRewriter.JudgeReferences | backend/app/rewriters/sql_rewriter.py:522-538 | the loop over references finds the first of the highest rank |
| SqlRewriter.RewriteProjection | backend/app/rewriters/sql_rewriter.py:512-588 | one projection is kept or suppressed as specified, and the metadata records exactly its events |
| SqlRewriter.RewriteProjections | backend/app/rewriters/sql_rewriter.py:498-591 | the loop rewrites every projection and records their events in order |
| SqlRewriter.AppendFilters | backend/app/rewriters/sql_rewriter.py:610-631 | the inner loop adds each filter of a decision once and remembers it |
| SqlRewriter.CollectConditions | backend/app/rewriters/sql_rewriter.py:602-631 | the outer loop collects the filters of all aliases without repeating a decision's |
| SqlRewriter.Combine | backend/app/rewriters/sql_rewriter.py:633-635 | the conditions are conjoined left to right |
| SqlRewriter.InjectRowFilters | backend/app/rewriters/sql_rewriter.py:593-647 | the conditions go behind the existing WHERE, and the metadata notes that a filter was applied |
| SqlRewriter.VisitNode | backend/app/rewriters/sql_rewriter.py:389-404 | one visit returns the specified SELECT and records its events |
| SqlRewriter.RewriteKid | backend/app/rewriters/sql_rewriter.py:386-387 | a SELECT reached by the walk is rewritten and walked into |
| SqlRewriter.WalkNode | backend/app/rewriters/sql_rewriter.py:382-387 | the walk returns the specified tree and records its events |
| SqlRewriter.WalkKids | backend/app/rewriters/sql_rewriter.py:383-387 | the loop over nested SELECTs replaces each by what the walk makes of it |
| SqlRewriter.RewriteNode | backend/app/rewriters/sql_rewriter.py:372-404 | rewriting returns the specified tree and records its events |
| SqlRewriter.RewriteUnionTree | backend/app/rewriters/hardening.py:177-207 | every branch is rewritten, left before right, into one metadata object |
| SqlRewriter.StripInferenceBypass | backend/app/rewriters/hardening.py:363-410 | the loop over ORDER BY and the test of HAVING strip what names a denied column; the returned warnings are left out |
| SqlRewriter.RewriteMeta.AddDenied | backend/app/rewriters/sql_rewriter.py:550-551 | a named suppressed column is listed once |
| SqlRewriter.RewriteMeta.AddMasked | backend/app/rewriters/sql_rewriter.py:565-567 | the first PII type recorded for a name stays |
| SqlRewriter.RewriteMeta.AddTokenized | backend/app/rewriters/sql_rewriter.py:580-582 | the first original recorded for a name stays |
| RuleSelection.SelectRule | backend/app/services/policy_engine.py:79-108 | the scan of the sorted rules with its fallbacks finds the rule of the order-free choice |
| RuleSelection.ChoiceExact | backend/app/services/policy_engine.py:77-108 | the chosen rule is the first of the longest that match, or with no match the first for everything, or with neither the first that is like the name; with none of these no rule is chosen |
| PatternLaws.HitStar | backend/app/services/policy_engine.py:84-92 | a resource with a star matches a name that has its letters up to the star, whatever their case, then any text without a line break, then what the rest matches |
| PatternLaws.HitPlain | backend/app/services/policy_engine.py:80-92 | a resource without a star matches the name it spells, letter case included |
| PatternLaws.LikeExact | backend/app/services/policy_engine.py:99-108 | in the LIKE a percent sign takes any text, an underscore one character, a backslash quotes, and letters match in any case |
| RuleSelection.SortedChoice | backend/app/services/policy_engine.py:78-96 | scanning the sorted rules finds the earliest of the longest matching rules |
| RuleSelection.SortOrders | backend/app/services/policy_engine.py:77-78 | sorting keeps the rules and puts longer patterns first |
| RuleSelection.ChosenIsLongest | backend/app/services/policy_engine.py:77-96 | with any matching rule a longest matching one is chosen |
| RuleSelection.ExactWinsExactly | backend/app/services/policy_engine.py:71-92 | the rule that spells the name comes before the wildcards exactly when every match listed before it is shorter than the name and none listed after it is longer; otherwise the chosen rule does not spell the name |
| RuleSelection.LongerWildcardWins | backend/app/services/policy_engine.py:71-92 | a wildcard longer than the name beats the exact match wherever it is listed |
| RuleSelection.EarlierWildcardWins | backend/app/services/policy_engine.py:77-92 | the wildcard that replaces the last letter of a name by a star beats the exact match when listed first, and loses when listed second |
| RuleSelection.ScanFindsNothing | backend/app/services/policy_engine.py:80-96 | for names without line breaks the scan finds nothing exactly when no rule matches |
| RuleSelection.ChosenSelects | backend/app/services/policy_engine.py:79-108 | a rule is chosen exactly when one selects the name, and the chosen one does |
| RuleSelection.ChooseWithout | backend/app/services/policy_engine.py:79-108 | a rule that does not select a name has no influence on the choice for it |
| PolicyDecisions.DecideFromRule | backend/app/services/policy_engine.py:299-397 | the loops compute the decision specified for a rule in schedule, its column lists, row filters and scan columns |
| PolicyDecisions.MergePolicies | backend/app/services/policy_engine.py:332-341 | the loops merge tag policies and column policies |
| PolicyDecisions.DecideFromScan | backend/app/services/policy_engine.py:399-462 | the loop computes the decision specified for a scan, but for the classification |
| PolicyDecisions.MergedExact | backend/app/services/policy_engine.py:331-341 | the merged policy of a column is its own if it has one, otherwise that of its tag |
| PolicyDecisions.FromRuleExact | backend/app/services/policy_engine.py:343-397 | a column is denied, masked or tokenized exactly when its governing policy says so and does not exempt the role; the rule's row filters come filled in for the user and in order, with the scanned columns and their types |
| PolicyDecisions.GoverningExact | backend/app/services/policy_engine.py:331-341 | the policy that governs a column is its own, or, where it has none, the one for the tag scanned for it |
| PolicyDecisions.ListsInOrder | backend/app/services/policy_engine.py:343-369 | a list holds its columns in the order of the merged dictionary |
| Access.RefusedExactly | backend/app/services/policy_engine.py:124-240 | a table is refused exactly to users of no or of another department than the table's, superadmins excepted, and, where neither a rule nor scanned columns are known and the setting does not allow it, to everyone but an admin who bypasses masking |
| Access.BypassExactly | backend/app/services/policy_engine.py:124-184 | a user who may read the table bypasses all rules if an admin of a tenant with masking off, and is otherwise decided about by rule, scan or setting |
| Access.FiltersApplyExactly | backend/app/services/policy_engine.py:124-197 | the chosen rule's row filters apply exactly to those who are neither refused for their department nor bypass masking |
| Access.CheckedFirst | backend/app/services/policy_engine.py:124-208 | for those refused or bypassing, the cache is neither asked nor filled |
| Access.OutsiderLearnsNothing | backend/app/services/policy_engine.py:124-150 | the decision for a user refused for the department lists no column and no filter and is neither exempt nor automatic |
| Access.WithoutRule | backend/app/services/policy_engine.py:199-240 | without a rule a scanned table is decided by its scan, and one without scanned columns is allowed exactly if the setting says so |
| PolicyDecisions.FromRuleWellFormed | backend/app/services/policy_engine.py:343-375 | the three lists are free of repetitions and disjoint, and the decision is exempt exactly when all are empty |
| PolicyDecisions.AutoPolicyExact | backend/app/services/policy_engine.py:415-462 | a scanned column is listed exactly as its action says, masked when classified without an action, and for an admin not at all; no row is filtered |
| PolicyDecisions.AutoPolicyWellFormed | backend/app/services/policy_engine.py:415-462 | the three lists are free of repetitions and disjoint, and empty when the decision is exempt |
| PolicyDecisions.ExemptLosesNothing | backend/app/rewriters/sql_rewriter.py:129-131 | skipping exempt decisions changes the action on no column |
| PolicyCache.KeyInjective | backend/app/services/policy_cache.py:42-43 | with roles free of colons a cache key tells its tenant, name and role |
| PolicyCache.GlobCoversKeys | backend/app/services/policy_cache.py:103-107 | a name that a table's text matches as a glob has all its keys matched by that table's invalidation glob |
| PatternLaws.GlobExact | backend/app/services/policy_cache.py:103-107 | in an invalidation glob a star takes any text, a question mark one character, and every other character but those left out takes itself |
| PolicyCache.Redis.GetCached | backend/app/services/policy_cache.py:46-62 | an entry is returned until it expires |
| PolicyCache.Redis.SetCached | backend/app/services/policy_cache.py:65-88 | an entry is stored for sixty seconds and nothing else changes |
| PolicyCache.Redis.InvalidateTable | backend/app/services/policy_cache.py:91-116 | the loop deletes exactly the matching keys and counts them |
| CacheRuns.RunFits | backend/app/services/policy_engine.py:187-208 | over runs of create, update, decide and time steps every live entry keeps fitting the store |
| CacheRuns.FittingAnswers | backend/app/services/policy_engine.py:187-208 | while entries fit, cached answers are the uncached ones for every user |
| CacheRuns.ChangeFits | backend/app/api/policies.py:151 | invalidating a changed pattern leaves only entries that still fit |
| CacheRuns.CreateFits | backend/app/api/policies.py:93-156 | creating a rule keeps entries fitting |
| CacheRuns.UpdateFits | backend/app/api/policies.py:170-238 | updating a rule keeps entries fitting |
| CacheRuns.AskFits | backend/app/services/policy_engine.py:187-208 | answering keeps entries fitting |
| CacheRuns.RuleUpdated | backend/app/api/policies.py:170-238 | what is given replaces what the rule had, what is not given stays, and so does every other rule |
| CacheRuns.RuleCreated | backend/app/api/policies.py:93-156 | a new pattern is added behind the tenant's rules with what was given, and one that is there changes nothing |
| CacheRuns.RuleDeleted | backend/app/api/policies.py:241-281 | the rule goes, the others keep their order, and the cache keeps what it holds |
| CacheRuns.TableReclassified | backend/app/services/policy_engine.py:124-180 | a new scan replaces the columns of its table alone, leaves rules, settings and cache, and changes for nobody but admins what is checked before the rules |
| CacheCoherence.CoherentExactly | backend/app/services/policy_cache.py:91-116 | over all such runs cached answers are the uncached ones exactly when every pattern's invalidation glob covers the names the pattern selects |
| CacheCoherence.PlainIsCovering | backend/app/services/policy_cache.py:103-107 | both keys of lower-case names without LIKE wildcards are covered by lower-case patterns |
| CacheCoherence.PlainSelectionIsGlob | backend/app/services/policy_engine.py:84-92 | a pattern that selects such a name matches it as a glob |
| CurrentEntries.EntriesAreCurrent | backend/app/services/policy_cache.py:65-116 | over all such runs every live entry equals the uncached decision of its tenant, name and role exactly when every pattern's invalidation glob covers both keys of the names the pattern selects |
| CurrentEntries.ScanDecisionStays | backend/app/services/policy_engine.py:200-208 | the entry of a scan's decision that is not covered outlives the creation of a rule |
| CurrentEntries.OwnNameCovered | backend/app/services/policy_cache.py:103-107 | a pattern covers both keys of the name it spells, in any letter case and with any characters |
| CacheCoherence.UncoveredGoesStale | backend/app/api/policies.py:233 | a selected name that is not covered keeps its old decision after the rule is changed |
| CacheCoherence.UnderscoreGoesStale | backend/app/services/policy_engine.py:99-108 | such a run for a name with an underscore |
| CacheCoherence.OtherCaseGoesStale | backend/app/services/policy_engine.py:99-108 | such a run for a name in another letter case |
| Staleness.AnswersAreRecent | backend/app/services/policy_cache.py:20 | with deletions and reclassification allowed, a column decision is the uncached one of some moment of the last sixty seconds |
| Staleness.RunWitnessed | backend/app/services/policy_cache.py:65-88 | every entry is the uncached decision of the moment it was written |
| PolicyService.Service.CreatePolicy | backend/app/api/policies.py:93-156 | a new pattern is stored and its keys invalidated, an existing one refused |
| PolicyService.Service.UpdatePolicy | backend/app/api/policies.py:170-238 | the given parts of a rule are replaced and its keys invalidated |
| PolicyService.Service.DeletePolicy | backend/app/api/policies.py:241-281 | the rule goes and the cache stays as it is |
| PolicyService.Service.DecideFor | backend/app/services/policy_engine.py:56-240 | department and masking checks, then the cached or computed decision, with the cache filled as specified, for one source and rules in schedule |
| PolicyService.Service.DecideByRule | backend/app/services/policy_engine.py:187-197 | an entry is served, or a decision without row filters stored |
| PolicyService.Service.DecideByScan | backend/app/services/policy_engine.py:200-208 | an entry is served or the scan's decision stored |
| Settings.DeepMerge | backend/app/services/settings_service.py:98-106 | the loop computes the merge |
| Settings.SettingsService.GetSettings | backend/app/services/settings_service.py:109-114 | the settings are the defaults under the stored overrides |
| Settings.SettingsService.UpdateSettings | backend/app/services/settings_service.py:117-136 | the overrides become the old ones merged with the patch, and the full settings come back |
| Settings.EffectiveExact | backend/app/services/settings_service.py:109-114 | a setting is in effect that is stored for the tenant, or that is a default where what is stored is silent |
| Settings.OverriddenExact | backend/app/services/settings_service.py:117-136 | an update stores the patch as it is, and what was stored stays exactly where the patch is silent |
| Settings.LeafExact | backend/app/services/settings_service.py:98-106 | at every path, a leaf of the merge is one of the override, or one of the base where the override is silent |
| Settings.AssociatesExact | backend/app/services/settings_service.py:98-106 | merging associates exactly when no leaf stands between a dictionary and one that does not absorb it |
| Settings.UpdateExact | backend/app/services/settings_service.py:117-136 | an update patches the settings in effect exactly under that condition |
| Settings.UpdatesExact | backend/app/services/settings_service.py:117-136 | the settings in effect are in step with full patching after every update exactly when each patch associates with the defaults and what is stored before it |
| Settings.DeltasRefinePatching | backend/app/services/settings_service.py:117-136 | when shapes agree, the settings in effect after any updates are the patches applied in turn to the full settings |
| Settings.MergeTwice | backend/app/services/settings_service.py:98-106 | merging a patch twice is merging it once |
| Settings.AbsorbsExact | backend/app/services/settings_service.py:98-106 | when a merged dictionary leaves nothing of its base |
| Settings.LeafBetweenDictionaries | backend/app/services/settings_service.py:98-106 | defaults, overrides and a patch for which storing the delta is not patching the whole |
| Lockout.WindowBounded | backend/app/api/auth.py:62-81 | no closed stretch as long as the window without a recorded success holds more recorded failures than are allowed |
| Lockout.LockedExact | backend/app/api/auth.py:62-81 | an account is locked exactly when its latest attempts, as many as are allowed, failed inside the window |
| Lockout.LockEnds | backend/app/api/auth.py:64-81 | a lock ends when the window has passed or an attempt succeeded |
| Lockout.RightPasswordUnlocks | backend/app/api/auth.py:215-232 | after a right password that is not refused the account is not locked, at any later moment until something else happens |
| Lockout.WrongPasswordCounts | backend/app/api/auth.py:215-232 | a wrong password that is not refused adds one to the latest failures |
| Lockout.LockedRecordsNothing | backend/app/api/auth.py:215-222 | a login leaves the attempts as they are exactly when the account is locked |
| Lockout.Account.IsLockedOut | backend/app/api/auth.py:75-81 | the backward loop counts the failures since the last success |
| Lockout.Account.Login | backend/app/api/auth.py:215-232 | a locked account records nothing, any other attempt is recorded |
| BypassEvents.RunsAreSound | backend/app/api/security.py:355-394 | over every run, refused queries of the gateway included, two events of a session are more than five minutes apart, and of three events of a client within five minutes the latest is blocked |
| BypassEvents.AutoBlockedExact | backend/app/api/security.py:368-378 | a report is blocked on its own account exactly when two events of its client in the last five minutes are on record |
| BypassEvents.DroppedExactly | backend/app/api/security.py:355-394 | a report is dropped exactly when it names a session of which its agent reported at most three hundred seconds ago; otherwise one event is added with the report's fields |
| BypassEvents.RefusalRecorded | backend/app/api/query.py:433-450 | a refused query adds one blocked event of its tenant and agent, without a session |
| BypassEvents.BlockedExactly | backend/app/api/security.py:368-378 | a report is blocked on its own account exactly when it names an address of which two of its agent's events are at most three hundred seconds old |
| BypassEvents.MarkedAndCleared | backend/app/api/security.py:515-554 | clearing keeps exactly the events that are of another tenant or not acknowledged, and acknowledging marks the one event |
| BypassEvents.ReceiveSound | backend/app/api/security.py:355-394 | recording a report keeps both properties |
| BypassEvents.RefuseSound | backend/app/api/query.py:433-450 | the event of a refused query keeps both properties |
| BypassEvents.SecurityLog.RecordRefusal | backend/app/api/query.py:433-450 | a blocked event without a session is added, unconditionally |
| BypassEvents.ClearSound | backend/app/api/security.py:532-543 | clearing keeps both properties |
| BypassEvents.ClearingForgets | backend/app/api/security.py:532-543 | clearing acknowledged events lets a third report through that would have been blocked |
| BypassEvents.SecurityLog.ReceiveActivity | backend/app/api/security.py:336-408 | the checks and the counting loop give the specified log and answer |
| BypassEvents.SecurityLog.AcknowledgeEvent | backend/app/api/security.py:515-528 | the tenant's event with the number is looked up and marked, and nothing else changes; the answer tells whether there is one |
| BypassEvents.SecurityLog.ClearAcknowledgedEvents | backend/app/api/security.py:532-554 | the loop keeps all but the tenant's acknowledged events and counts the rest |
| Approvals.ExecutionsAreApproved | backend/app/api/query.py:322-347 | over every run critical executions map one to one to approvals that are used, in time, given by someone else, for this user and this query |
| Approvals.TokenWorksOnce | backend/app/api/approvals.py:246-271 | with fresh tokens one that was presented validly is refused ever after |
| Approvals.DecidedExactly | backend/app/api/approvals.py:90-200 | exactly a pending request of the tenant, made by someone else, is approved with the token or rejected, and no other request changes |
| Approvals.RequestMade | backend/app/api/query.py:322-347 | without a token a pending request is added with the user, source and query, and nothing else changes |
| Approvals.ApprovedForADay | backend/app/api/approvals.py:101-271 | an approved request's token is valid exactly for its query, up to twenty-four hours after the approval |
| Approvals.ApprovedRuns | backend/app/api/query.py:322-347 | within that day the requester's query runs |
| Approvals.UsedForever | backend/app/api/approvals.py:90-145 | a used or rejected request never changes again |
| Approvals.StatusMoves | backend/app/api/approvals.py:90-271 | a request is decided once and used only when approved |
| Approvals.PresentedToken | backend/app/api/query.py:324-332 | a valid token is used up whoever presents it, and the query runs exactly for the requester |
| Approvals.TokensStayDistinct | backend/app/api/approvals.py:101-111 | fresh tokens belong to one request each |
| Approvals.ApprovalDesk.Approve | backend/app/api/approvals.py:90-145 | a pending request of someone else is approved with a token for a day |
| Approvals.ApprovalDesk.Reject | backend/app/api/approvals.py:148-200 | a pending request of someone else is rejected |
| Approvals.ApprovalDesk.ValidateToken | backend/app/api/approvals.py:235-271 | a token is accepted for its own query in time and its request becomes used |
| Approvals.ApprovalDesk.SubmitQuery | backend/app/api/query.py:322-347 | the gate requests approval, refuses, or executes |
| TokenVault.TokensRoundTrip | backend/app/services/tokenization.py:13-54 | after a flush every value a service tokenized comes back to its tenant's admins, to no other tenant and to no other role |
| TokenVault.RunsAreSound | backend/app/services/tokenization.py:19-42 | over every interleaving of services no token is stored twice, caches are injective and cached values are stored or about to be |
| TokenVault.OneEntryEach | backend/app/services/tokenization.py:19-42 | a cached value has exactly one entry, pending or in the vault |
| TokenVault.TokensAreKept | backend/app/services/tokenization.py:19-32 | over every run a value keeps the token its service gave it |
| TokenVault.NewValueStored | backend/app/services/tokenization.py:19-32 | a value not seen before gets the generated token and one row to store |
| TokenVault.TokenizationService.Tokenize | backend/app/services/tokenization.py:19-32 | a value gets its cached token or a new one with a pending row |
| TokenVault.TokenizationService.FlushBatch | backend/app/services/tokenization.py:34-42 | the pending rows go to the vault in order |
| TokenVault.TokenizationService.Detokenize | backend/app/services/tokenization.py:44-54 | only admins of the tenant get a value |
| Comments.NothingLeft | backend/app/rewriters/hardening.py:101-126 | what is left after both passes holds no line comment and no complete block comment |
| Comments.StripsExactly | backend/app/rewriters/hardening.py:101-126 | stripping changes a text exactly when it holds a comment, and stripping again changes nothing |
| Comments.LineCommentReplaced | backend/app/rewriters/hardening.py:101-126 | a line comment becomes one space; what stands before it and everything from the end of its line on is stripped as if alone |
| Comments.BlockCommentReplaced | backend/app/rewriters/hardening.py:101-126 | a block comment becomes one space; what stands before its first opening stays, and what follows its first closing is stripped as if alone |
| Comments.CommentsSpelled | backend/app/rewriters/hardening.py:101-126 | a text holds a line comment where two dashes stand, and a block comment where a closing stands behind an opening |
| Comments.BlocksKeepLines | backend/app/rewriters/hardening.py:124-126 | the block pass brings no line comment about |
| Masking.ShowsLastFour | backend/app/services/masking.py:124-148 | a masked phone, social security or card number shows at most four digits, the last of the input |
| Masking.MaskedValueTells | backend/app/services/masking.py:271-292 | for the five modelled kinds, a masked value tells its last four digits if a number, its last four characters if an account, and otherwise nothing; missing and empty values and those at the raw level come through |
| Masking.MaskTwiceExact | backend/app/services/masking.py:271-292 | for the five modelled kinds masking again changes nothing, except an account number of one to three characters |
| Masking.RepeatsExact | backend/app/services/masking.py:295-318 | for the five modelled kinds listing columns repeatedly masks as listing each once, exactly when no such account number is listed repeatedly |
| Masking.MaskRow | backend/app/services/masking.py:295-318 | the loop masks the listed columns, each by one of the five modelled kinds, and changes no other key or value |
| RiskScore.ScoreGrows | backend/app/services/risk_scorer.py:38-50 | score and level never fall as the counts grow, however ties are rounded |
| RiskScore.MoreTablesScoreMore | backend/app/services/risk_scorer.py:86-92 | adding decisions never lowers the score |
| RiskScore.ColumnsAreWorth | backend/app/services/risk_scorer.py:53-124 | one more denied, masked or tokenized column or warning adds fifteen, ten, eight or three points |
| RiskScore.TablesAreWorth | backend/app/services/risk_scorer.py:86-104 | a further table adds five points, the want of a row filter ten, and a row a hundredth up to twenty points |
| RiskScore.FlagsAreWorth | backend/app/services/risk_scorer.py:53-124 | an exempt decision and an automatic one add five points each |
| RiskScore.NothingScoresNothing | backend/app/services/risk_scorer.py:53-124 | where nothing is counted nothing is scored, but for the want of a row filter once a table is read |
| RiskScore.CountedExactly | backend/app/services/risk_scorer.py:53-124 | what is counted are the names and warnings of the metadata, the tables, the rows, and whether some decision is exempt or automatic |
| RiskScore.CriticalExactly | backend/app/services/risk_scorer.py:38-50 | a query is critical exactly when its score rounds to eighty: above 79.95, and at 79.95 if that tie goes up |
| RiskScore.GradedExactly | backend/app/services/risk_scorer.py:38-50 | before execution the grades begin at eighty, fifty and twenty points |
| RiskScore.RescoringAdds | backend/app/api/query.py:502 | scoring again after execution never lowers the level and adds at most twenty points |
| RiskScore.ScoreQuery | backend/app/services/risk_scorer.py:53-124 | the factors sum to the specified total, which is rounded and graded |

## Left out

- Parsing, printing and dialects: the model starts and ends with trees. Nothing is claimed about the precedence of a
  printed WHERE, and Oracle, whose stars are not expanded, is not modelled.
- In-place updates of tree nodes: trees are values, and methods return the new tree. Two occurrences of equal SELECTs are rewritten
  alike, so sharing of nodes is not captured. A decision's identity is the key it is stored under.
- The order in which sqlglot visits sibling SELECTs and lists the columns of one expression: the model goes depth first, left to
  right. It decides only which column a warning names and the order of metadata.
- Common table expressions, LATERAL joins and the audits that only add warnings; parenthesised set operations.
- USING and NATURAL joins, DISTINCT ON, named WINDOW clauses, star exceptions, and column lists in aliases, all of which read
  or rename columns.
- Outer joins and correlated subqueries: a nested SELECT sees its own sources only. An ORDER BY expression reads the sources, not
  output names.
- Case folding beyond ASCII, and whitespace beyond ASCII in `strip`.
- The legacy single-table `rewrite`, its fallback and `tables_affected`; the leak check's messages, of which only the
  listed references are kept; the warnings of the ORDER BY and HAVING strip.
- RewriteRecordsOnePass: the condition is sufficient for the order of the denied names. It is exact for the warnings
  (`RewriteWarnsExactly`), and `SameNamesDeniedExactly` is exact for the set of denied names.
- RewriteMeansOnePass: requires that no name is lost, since a lost name can be an output column that an outer query reads.
- RowFiltersAreViews: names of sources differ up to letter case and no alias is another source's table name, no decision with a row
  filter governs two sources of one FROM, and nested row filters have no say in which projections are suppressed; the claim is
  false without the second (`SelfJoinShowsMore`) and without the third (`NestedFilterSuppresses`).
- DeniedColumnsDoNotShow: conditions, groups, nested ORDER BY and HAVING, and row filters read no denied column; sources
  of one FROM differ in name up to letter case, and no alias is another source's table name; decisions know exactly the columns
  of their tables and filter on those; a qualifier that means a governed source up to letter case spells it letter by
  letter (the claim is false otherwise, `QualifierKeepsSecretExactly`); and no star inside an expression and no name that
  no column of a table answers stands for a row with a denied column (false otherwise, `WholeRowLeaks`).
- MeaningAgrees: requires the same of conditions, names and references.
- MaskedShowOnlyNamed: requires the same with masked, or masked and tokenized, columns counted as denied, no nested SELECTs, no
  DISTINCT, for tokenized columns an alias for what is computed from them (false otherwise, `AliasTokenizesExactly`), and output names
  that come back as they are written; a database that folds `SSN` to `ssn` in its headings returns a name that is not listed.
- RowVisibleExact: requires that each filtered column is exactly one of the table's columns, up to letter case. Which texts a LIKE pattern
  matches and how values compare is left to the engine.
- A table is governed and read under its name as written: that two spellings of it get different decisions is left to the rules.
- LeaksExact: does not model the skips for aliases of common table expressions, which the model's queries do not have.
- VerifyNoColumnLeak: the same, and returns the listed references in place of messages.
- ScanProjections: the same skips are not modelled.
- AppendNamed: the same skips are not modelled.
- StripInferenceBypass: does not return the warnings about what was stripped.
- DecideFromRule: does not model schedules, masking types and the tag and field maps, which the rewriter does not read.
- DecideFromScan: does not model the escalated classification, which the rewriter does not read.
- DecideFor: does not model schedules and the choice among several data sources.
- MaskTwiceExact: covers five kinds of masks and not the partial level.
- RepeatsExact: covers five kinds of masks and not the partial level.
- MaskRow: covers five kinds of masks and not the partial level.
- Decision fields that do not reach the rewriter (classification, rule id, masking types, tag and field actions), schedules, and the
  replacement of user attributes in filter values, which is a table per user.
- Rules are listed in order of creation, and the LIKE query returns the first in that order. One data source is assumed.
- Characters with a meaning of their own in Redis globs other than `*` and `?`: patterns with `[` or a backslash are excluded. Entries past their
  time count as present until overwritten or deleted. A cache that is unreachable behaves as an empty one and is not modelled.
- Database transactions and racing requests: each request is one atomic step.
- Ciphers, token generation, passwords and second factors: tokens are fresh and the cipher is invertible.
- `backend/app/services/gateway_prepare.py:145`, which rewrites queries for other gateways without the gate for critical ones;
  `ExecutionsAreApproved` is about the gate in `backend/app/api/query.py`.
- Whether an approved query then fails in the database, and the source an approval was requested for, which the gate does not look at.
- Webhooks, heartbeats, lists and statistics of the security API.
- Maskers other than phone, social security, card, account and the fixed masks; the partial level.
- Floating point: the risk score is computed in hundredths, and rounding ties may go either way.
- Recommendations of the risk score.
