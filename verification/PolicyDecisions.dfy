/**
 How a decision is made from an explicit rule or from a column scan: the loops of the policy
 engine, and for every column which list it ends up in.
 */
module PolicyDecisions {
  import opened Wrappers
  import opened Text
  import opened Policies
  import opened Rewriter

  datatype ColumnPolicy = ColumnPolicy(action: string, exemptRoles: seq<string>)

  /** Items of an ordered dictionary: names occur once, in order of insertion. */
  type Items = seq<(string, ColumnPolicy)>

  datatype Rule = Rule(
    id: nat,
    resource: string,
    columns: Items,              // column policies without the reserved keys
    tags: Items,                 // the policies under "__tags__"
    filters: seq<RowFilter>)

  /** A scanned column; an absent text is empty. */
  datatype ScanColumn = ScanColumn(name: string, pii: string, classification: string, action: string)

  /** `values` holds what each filter template becomes for this user; any other text stays as it is. */
  datatype User = User(role: string, department: Option<nat>, values: map<string, string>)

  function Fill(user: User, template: string): string {
    if template in user.values then user.values[template] else template
  }

  predicate UniqueNames(items: Items) {
    forall i, j | 0 <= i < j < |items| :: items[i].0 != items[j].0
  }

  predicate UniqueColumns(cols: seq<ScanColumn>) {
    forall i, j | 0 <= i < j < |cols| :: cols[i].name != cols[j].name
  }

  predicate WellFormedRule(r: Rule) {
    UniqueNames(r.columns) && UniqueNames(r.tags)
  }

  predicate Unique(names: seq<string>) {
    forall i, j | 0 <= i < j < |names| :: names[i] != names[j]
  }

  // ----- ordered dictionaries -----

  function Lookup(items: Items, name: string): Option<ColumnPolicy> {
    if items == [] then None
    else if items[0].0 == name then Some(items[0].1)
    else Lookup(items[1..], name)
  }

  /** Assignment: an existing name keeps its place. */
  function Put(items: Items, name: string, p: ColumnPolicy): Items {
    if items == [] then [(name, p)]
    else if items[0].0 == name then [(name, p)] + items[1..]
    else [items[0]] + Put(items[1..], name, p)
  }

  function PutAll(items: Items, more: Items): Items {
    if more == [] then items else Put(PutAll(items, more[..|more| - 1]), more[|more| - 1].0, more[|more| - 1].1)
  }

  lemma {:induction false} LookupPut(items: Items, name: string, p: ColumnPolicy, n: string)
    ensures Lookup(Put(items, name, p), n) == if n == name then Some(p) else Lookup(items, n)
  {
    if items != [] && items[0].0 != name {
      LookupPut(items[1..], name, p, n);
    }
  }

  lemma {:induction false} LookupAbsent(items: Items, n: string)
    ensures Lookup(items, n).None? <==> forall i | 0 <= i < |items| :: items[i].0 != n
  {
    if items != [] {
      LookupAbsent(items[1..], n);
      assert forall i | 0 < i < |items| :: items[i] == items[1..][i - 1];
    }
  }

  lemma {:induction false} LookupAt(items: Items, i: nat)
    requires UniqueNames(items) && i < |items|
    ensures Lookup(items, items[i].0) == Some(items[i].1)
  {
    if i > 0 { LookupAt(items[1..], i - 1); }
  }

  lemma {:induction false} PutUnique(items: Items, name: string, p: ColumnPolicy)
    requires UniqueNames(items)
    ensures UniqueNames(Put(items, name, p))
    ensures forall i | 0 <= i < |Put(items, name, p)| ::
            Put(items, name, p)[i].0 == name || exists j :: 0 <= j < |items| && items[j].0 == Put(items, name, p)[i].0
  {
    if items != [] && items[0].0 != name {
      PutUnique(items[1..], name, p);
      var rest := Put(items[1..], name, p);
      forall i | 0 <= i < |rest|
        ensures rest[i].0 != items[0].0
        ensures rest[i].0 == name || exists j :: 0 <= j < |items| && items[j].0 == rest[i].0
      {
        if rest[i].0 != name {
          var j :| 0 <= j < |items| - 1 && items[1..][j].0 == rest[i].0;
          assert items[j + 1].0 == rest[i].0;
        }
      }
    }
  }

  lemma {:induction false} PutAllLookup(items: Items, more: Items, n: string)
    requires UniqueNames(more)
    ensures Lookup(PutAll(items, more), n) == if Lookup(more, n).Some? then Lookup(more, n) else Lookup(items, n)
  {
    if more != [] {
      var k := |more| - 1;
      PutAllLookup(items, more[..k], n);
      LookupPut(PutAll(items, more[..k]), more[k].0, more[k].1, n);
      LookupAt(more, k);
      LookupAbsent(more, n);
      LookupAbsent(more[..k], n);
      if j :| 0 <= j < k && more[j].0 == n { LookupAt(more, j); LookupAt(more[..k], j); }
    }
  }

  lemma {:induction false} PutAllUnique(items: Items, more: Items)
    requires UniqueNames(items)
    ensures UniqueNames(PutAll(items, more))
  {
    if more != [] {
      PutAllUnique(items, more[..|more| - 1]);
      PutUnique(PutAll(items, more[..|more| - 1]), more[|more| - 1].0, more[|more| - 1].1);
    }
  }

  // ----- the decision made from a rule -----

  function PiiItems(cols: seq<ScanColumn>): seq<(string, Option<string>)> {
    seq(|cols|, i requires 0 <= i < |cols| => (cols[i].name, if cols[i].pii == "" then None else Some(cols[i].pii)))
  }

  function NamesOf(cols: seq<ScanColumn>): seq<string> {
    seq(|cols|, i requires 0 <= i < |cols| => cols[i].name)
  }

  /** Scanned columns whose tag has a policy, under that policy. */
  function Tagged(cols: seq<ScanColumn>, tags: Items): Items {
    if cols == [] then []
    else
      var c := cols[|cols| - 1];
      var rest := Tagged(cols[..|cols| - 1], tags);
      if c.pii != "" && Lookup(tags, c.pii).Some? then Put(rest, c.name, Lookup(tags, c.pii).value) else rest
  }

  function Merged(rule: Rule, cols: seq<ScanColumn>): Items {
    PutAll(Tagged(cols, rule.tags), rule.columns)
  }

  /** The columns of `items` whose policy has the action and does not exempt the role. */
  function WithAction(items: Items, role: string, action: string): seq<string> {
    if items == [] then []
    else
      var rest, last := WithAction(items[..|items| - 1], role, action), items[|items| - 1];
      if role !in last.1.exemptRoles && last.1.action == action then rest + [last.0] else rest
  }

  function ResolveFilters(raw: seq<RowFilter>, user: User): seq<RowFilter> {
    seq(|raw|, i requires 0 <= i < |raw| => raw[i].(value := Fill(user, raw[i].value)))
  }

  function FromRule(rule: Rule, user: User, cols: seq<ScanColumn>): Decision {
    var m := Merged(rule, cols);
    var denied, masked, tokenized := WithAction(m, user.role, "deny"), WithAction(m, user.role, "mask"),
      WithAction(m, user.role, "tokenize");
    Decision(rule.resource, true, denied, masked, tokenized, ResolveFilters(rule.filters, user),
             denied == [] && masked == [] && tokenized == [], false, PiiItems(cols), NamesOf(cols))
  }

  // ----- the decision made from a scan -----

  function ScanAction(c: ScanColumn): string {
    if c.pii == "" && c.classification == "" && c.action == "" then "allow"
    else if c.action == "" then "mask" else c.action
  }

  function ScanWithAction(cols: seq<ScanColumn>, action: string): seq<string> {
    if cols == [] then []
    else
      var rest, c := ScanWithAction(cols[..|cols| - 1], action), cols[|cols| - 1];
      if ScanAction(c) == action then rest + [c.name] else rest
  }

  function AutoPolicy(resource: string, role: string, cols: seq<ScanColumn>): Decision {
    var bypass := role == "admin";
    var denied := if bypass then [] else ScanWithAction(cols, "deny");
    var masked := if bypass then [] else ScanWithAction(cols, "mask");
    var tokenized := if bypass then [] else ScanWithAction(cols, "tokenize");
    Decision(resource, true, denied, masked, tokenized, [], bypass, true, PiiItems(cols), NamesOf(cols))
  }

  // ----- the loops -----

  method MergePolicies(rule: Rule, cols: seq<ScanColumn>) returns (m: Items)
    ensures m == Merged(rule, cols)
  {
    m := [];
    for i := 0 to |cols|
      invariant m == Tagged(cols[..i], rule.tags)
    {
      assert cols[..i + 1][..i] == cols[..i];
      var tag := cols[i].pii;
      if tag != "" && Lookup(rule.tags, tag).Some? { m := Put(m, cols[i].name, Lookup(rule.tags, tag).value); }
    }
    assert cols[..|cols|] == cols;
    for i := 0 to |rule.columns|
      invariant m == PutAll(Tagged(cols, rule.tags), rule.columns[..i])
    {
      assert rule.columns[..i + 1][..i] == rule.columns[..i];
      m := Put(m, rule.columns[i].0, rule.columns[i].1);
    }
    assert rule.columns[..|rule.columns|] == rule.columns;
  }

  method DecideFromRule(rule: Rule, user: User, cols: seq<ScanColumn>) returns (d: Decision)
    ensures d == FromRule(rule, user, cols)
  {
    var m := MergePolicies(rule, cols);
    var denied, masked, tokenized := [], [], [];
    for i := 0 to |m|
      invariant denied == WithAction(m[..i], user.role, "deny")
      invariant masked == WithAction(m[..i], user.role, "mask")
      invariant tokenized == WithAction(m[..i], user.role, "tokenize")
    {
      assert m[..i + 1][..i] == m[..i];
      var name, p := m[i].0, m[i].1;
      if user.role !in p.exemptRoles {
        if p.action == "deny" {
          denied := denied + [name];
        } else if p.action == "mask" {
          masked := masked + [name];
        } else if p.action == "tokenize" {
          tokenized := tokenized + [name];
        }
      }
    }
    assert m[..|m|] == m;
    var filters: seq<RowFilter> := [];
    for i := 0 to |rule.filters|
      invariant filters == ResolveFilters(rule.filters, user)[..i]
    {
      filters := filters + [rule.filters[i].(value := Fill(user, rule.filters[i].value))];
    }
    d := Decision(rule.resource, true, denied, masked, tokenized, filters,
                  denied == [] && masked == [] && tokenized == [], false, PiiItems(cols), NamesOf(cols));
  }

  method DecideFromScan(resource: string, role: string, cols: seq<ScanColumn>) returns (d: Decision)
    ensures d == AutoPolicy(resource, role, cols)
  {
    var bypass := role == "admin";
    var denied, masked, tokenized := [], [], [];
    for i := 0 to |cols|
      invariant denied == if bypass then [] else ScanWithAction(cols[..i], "deny")
      invariant masked == if bypass then [] else ScanWithAction(cols[..i], "mask")
      invariant tokenized == if bypass then [] else ScanWithAction(cols[..i], "tokenize")
    {
      assert cols[..i + 1][..i] == cols[..i];
      var c := cols[i];
      if c.pii == "" && c.classification == "" && c.action == "" { continue; }
      if bypass { continue; }
      var action := if c.action != "" then c.action else "mask";
      if action == "deny" {
        denied := denied + [c.name];
      } else if action == "mask" {
        masked := masked + [c.name];
      } else if action == "tokenize" {
        tokenized := tokenized + [c.name];
      }
    }
    assert cols[..|cols|] == cols;
    d := Decision(resource, true, denied, masked, tokenized, [], bypass, true, PiiItems(cols), NamesOf(cols));
  }

  // ----- order -----

  /** An assignment to a name that is there keeps every place; a new name goes to the end. */
  lemma {:induction false} PutPlaces(items: Items, name: string, p: ColumnPolicy)
    ensures var r := Put(items, name, p);
            && (forall i | 0 <= i < |items| :: i < |r| && r[i].0 == items[i].0)
            && (if exists i :: 0 <= i < |items| && items[i].0 == name then |r| == |items|
                else r == items + [(name, p)])
  {
    if items != [] && items[0].0 != name {
      PutPlaces(items[1..], name, p);
      assert forall i | 0 < i < |items| :: items[i] == items[1..][i - 1];
      if i :| 0 <= i < |items| - 1 && items[1..][i].0 == name { assert items[i + 1].0 == name; }
    }
  }

  /** A list holds its columns in the order of the merged dictionary. */
  lemma {:induction false} ListsInOrder(a: Items, n: string, p: ColumnPolicy, b: Items, role: string, action: string)
    ensures WithAction(a + [(n, p)] + b, role, action)
            == WithAction(a, role, action) + (if role !in p.exemptRoles && p.action == action then [n] else [])
               + WithAction(b, role, action)
  {
    var items := a + [(n, p)] + b;
    if b == [] {
      assert items[..|a|] == a;
    } else {
      var k := |b| - 1;
      assert items[..|items| - 1] == a + [(n, p)] + b[..k];
      ListsInOrder(a, n, p, b[..k], role, action);
    }
  }

  /** A scan's lists hold their columns in the order of the scan. */
  lemma {:induction false} ScanListsInOrder(a: seq<ScanColumn>, c: ScanColumn, b: seq<ScanColumn>, action: string)
    ensures ScanWithAction(a + [c] + b, action)
            == ScanWithAction(a, action) + (if ScanAction(c) == action then [c.name] else [])
               + ScanWithAction(b, action)
  {
    var cols := a + [c] + b;
    if b == [] {
      assert cols[..|a|] == a;
    } else {
      var k := |b| - 1;
      assert cols[..|cols| - 1] == a + [c] + b[..k];
      ScanListsInOrder(a, c, b[..k], action);
    }
  }

  // ----- what each list holds -----

  lemma {:induction false} WithActionExact(items: Items, role: string, action: string, n: string)
    requires UniqueNames(items)
    ensures n in WithAction(items, role, action)
            <==> Applies(Lookup(items, n), role, action)
    ensures Unique(WithAction(items, role, action))
  {
    if items != [] {
      var k := |items| - 1;
      WithActionExact(items[..k], role, action, n);
      LookupAt(items, k);
      LookupAbsent(items, n);
      LookupAbsent(items[..k], n);
      if j :| 0 <= j < k && items[j].0 == n { LookupAt(items, j); LookupAt(items[..k], j); }
      if items[k].0 in WithAction(items[..k], role, action) {
        WithActionExact(items[..k], role, action, items[k].0);
        LookupAbsent(items[..k], items[k].0);
      }
    }
  }

  lemma {:induction false} ScanWithActionExact(cols: seq<ScanColumn>, action: string, n: string)
    requires UniqueColumns(cols)
    ensures n in ScanWithAction(cols, action) <==> exists c :: c in cols && c.name == n && ScanAction(c) == action
    ensures Unique(ScanWithAction(cols, action))
  {
    if cols != [] {
      var k := |cols| - 1;
      ScanWithActionExact(cols[..k], action, n);
      assert cols == cols[..k] + [cols[k]];
      if cols[k].name in ScanWithAction(cols[..k], action) {
        ScanWithActionExact(cols[..k], action, cols[k].name);
      }
    }
  }

  lemma {:induction false} TaggedExact(cols: seq<ScanColumn>, tags: Items, n: string)
    requires UniqueColumns(cols)
    ensures UniqueNames(Tagged(cols, tags))
    ensures forall c | c in cols && c.name == n ::
            Lookup(Tagged(cols, tags), n) == if c.pii == "" then None else Lookup(tags, c.pii)
    ensures (forall c | c in cols :: c.name != n) ==> Lookup(Tagged(cols, tags), n) == None
  {
    if cols != [] {
      var k := |cols| - 1;
      var c, rest := cols[k], Tagged(cols[..k], tags);
      TaggedExact(cols[..k], tags, n);
      assert cols == cols[..k] + [c];
      if c.pii != "" && Lookup(tags, c.pii).Some? {
        PutUnique(rest, c.name, Lookup(tags, c.pii).value);
        LookupPut(rest, c.name, Lookup(tags, c.pii).value, n);
      }
    }
  }

  /** The tag scanned for a column, "" if there is none. */
  function TagOf(cols: seq<ScanColumn>, n: string): string {
    if cols == [] then "" else if cols[0].name == n then cols[0].pii else TagOf(cols[1..], n)
  }

  /** The policy that governs a column: its own if it has one, otherwise that of its tag. */
  function Governing(rule: Rule, cols: seq<ScanColumn>, n: string): Option<ColumnPolicy> {
    if Lookup(rule.columns, n).Some? then Lookup(rule.columns, n)
    else if TagOf(cols, n) == "" then None
    else Lookup(rule.tags, TagOf(cols, n))
  }

  lemma {:induction false} TagOfColumn(cols: seq<ScanColumn>, n: string)
    requires UniqueColumns(cols)
    ensures forall c | c in cols && c.name == n :: TagOf(cols, n) == c.pii
    ensures (forall c | c in cols :: c.name != n) ==> TagOf(cols, n) == ""
  {
    if cols != [] {
      TagOfColumn(cols[1..], n);
      assert cols == [cols[0]] + cols[1..];
      assert forall c | c in cols[1..] :: c.name != cols[0].name;
    }
  }

  /** An item of the ordered dictionary, told from the names alone. */
  lemma {:induction false} GoverningExact(rule: Rule, cols: seq<ScanColumn>, n: string, p: ColumnPolicy)
    requires WellFormedRule(rule) && UniqueColumns(cols)
    ensures Governing(rule, cols, n) == Some(p) <==>
              || (n, p) in rule.columns
              || ((forall q | q in rule.columns :: q.0 != n)
                  && exists c :: c in cols && c.name == n && c.pii != "" && (c.pii, p) in rule.tags)
  {
    LookupExact(rule.columns, n, p);
    LookupAbsent(rule.columns, n);
    TagOfColumn(cols, n);
    LookupExact(rule.tags, TagOf(cols, n), p);
    assert (forall q | q in rule.columns :: q.0 != n) <==> forall i | 0 <= i < |rule.columns| :: rule.columns[i].0 != n;
  }

  lemma {:induction false} LookupExact(items: Items, n: string, p: ColumnPolicy)
    requires UniqueNames(items)
    ensures Lookup(items, n) == Some(p) <==> (n, p) in items
  {
    if (n, p) in items {
      var i :| 0 <= i < |items| && items[i] == (n, p);
      LookupAt(items, i);
    }
    LookupIn(items, n);
  }

  lemma {:induction false} LookupIn(items: Items, n: string)
    ensures Lookup(items, n).Some? ==> (n, Lookup(items, n).value) in items
  {
    if items != [] && items[0].0 != n { LookupIn(items[1..], n); }
  }

  predicate Applies(p: Option<ColumnPolicy>, role: string, action: string) {
    p.Some? && role !in p.value.exemptRoles && p.value.action == action
  }

  lemma {:induction false} MergedExact(rule: Rule, cols: seq<ScanColumn>, n: string)
    requires WellFormedRule(rule) && UniqueColumns(cols)
    ensures UniqueNames(Merged(rule, cols)) && Lookup(Merged(rule, cols), n) == Governing(rule, cols, n)
  {
    TaggedExact(cols, rule.tags, n);
    PutAllUnique(Tagged(cols, rule.tags), rule.columns);
    PutAllLookup(Tagged(cols, rule.tags), rule.columns, n);
    TagOfColumn(cols, n);
  }

  predicate ListsUnique(d: Decision) {
    Unique(d.denied) && Unique(d.masked) && Unique(d.tokenized)
  }

  ghost predicate ListsDisjoint(d: Decision) {
    forall n :: !(n in d.denied && n in d.masked) && !(n in d.denied && n in d.tokenized)
      && !(n in d.masked && n in d.tokenized)
  }

  predicate Unrestricted(d: Decision) {
    d.denied == [] && d.masked == [] && d.tokenized == []
  }

  /** The rule's row filters, in order, with what each template becomes for the user in place of the template. */
  predicate FiltersFilled(filled: seq<RowFilter>, raw: seq<RowFilter>, user: User) {
    |filled| == |raw| && forall i | 0 <= i < |raw| ::
      && filled[i].column == raw[i].column && filled[i].operator == raw[i].operator
      && (raw[i].value in user.values ==> filled[i].value == user.values[raw[i].value])
      && (raw[i].value !in user.values ==> filled[i].value == raw[i].value)
  }

  /** The decision knows the scanned columns, in order, with the type scanned for each. */
  predicate ScanCarried(d: Decision, cols: seq<ScanColumn>) {
    |d.known| == |d.pii| == |cols| && forall i | 0 <= i < |cols| ::
      d.known[i] == cols[i].name && d.pii[i].0 == cols[i].name
      && (cols[i].pii == "" ==> d.pii[i].1 == None) && (cols[i].pii != "" ==> d.pii[i].1 == Some(cols[i].pii))
  }

  /**
   A rule's decision lists a column exactly where its governing policy says so for the role, and carries the
   rule's row filters and the scanned columns.
   */
  lemma {:induction false} FromRuleExact(rule: Rule, user: User, cols: seq<ScanColumn>, n: string)
    requires WellFormedRule(rule) && UniqueColumns(cols)
    ensures var d, p := FromRule(rule, user, cols), Governing(rule, cols, n);
            && (n in d.denied <==> Applies(p, user.role, "deny"))
            && (n in d.masked <==> Applies(p, user.role, "mask"))
            && (n in d.tokenized <==> Applies(p, user.role, "tokenize"))
            && d.resource == rule.resource && d.allowed && !d.autoPolicy
    ensures FiltersFilled(FromRule(rule, user, cols).filters, rule.filters, user)
    ensures ScanCarried(FromRule(rule, user, cols), cols)
  {
    var m := Merged(rule, cols);
    MergedExact(rule, cols, n);
    WithActionExact(m, user.role, "deny", n);
    WithActionExact(m, user.role, "mask", n);
    WithActionExact(m, user.role, "tokenize", n);
  }

  lemma {:induction false} FromRuleWellFormed(rule: Rule, user: User, cols: seq<ScanColumn>)
    requires WellFormedRule(rule) && UniqueColumns(cols)
    ensures var d := FromRule(rule, user, cols);
            ListsUnique(d) && ListsDisjoint(d) && (d.exempt <==> Unrestricted(d))
  {
    var m, d := Merged(rule, cols), FromRule(rule, user, cols);
    MergedExact(rule, cols, "");
    WithActionExact(m, user.role, "deny", "");
    WithActionExact(m, user.role, "mask", "");
    WithActionExact(m, user.role, "tokenize", "");
    forall n
      ensures !(n in d.denied && n in d.masked) && !(n in d.denied && n in d.tokenized)
              && !(n in d.masked && n in d.tokenized)
    {
      FromRuleExact(rule, user, cols, n);
    }
  }

  /** A scanned column with a type or a classification but no action is masked. */
  lemma {:induction false} ScanActionExact(c: ScanColumn)
    ensures ScanAction(c) == "deny" <==> c.action == "deny"
    ensures ScanAction(c) == "tokenize" <==> c.action == "tokenize"
    ensures ScanAction(c) == "mask" <==>
              c.action == "mask" || (c.action == "" && (c.pii != "" || c.classification != ""))
  {
  }

  /**
   A scan's decision lists a column exactly where its scanned action says so, masking what is classified
   without an action, and nothing for an admin; it filters no rows.
   */
  lemma {:induction false} AutoPolicyExact(resource: string, role: string, cols: seq<ScanColumn>, n: string)
    requires UniqueColumns(cols)
    ensures var d := AutoPolicy(resource, role, cols);
            && (n in d.denied <==> role != "admin" && exists c :: c in cols && c.name == n && c.action == "deny")
            && (n in d.masked <==>
                role != "admin"
                && exists c :: c in cols && c.name == n
                               && (c.action == "mask" || (c.action == "" && (c.pii != "" || c.classification != ""))))
            && (n in d.tokenized <==> role != "admin" && exists c :: c in cols && c.name == n && c.action == "tokenize")
            && d.resource == resource && d.allowed && d.autoPolicy && d.filters == [] && (d.exempt <==> role == "admin")
            && ScanCarried(d, cols)
  {
    ScanWithActionExact(cols, "deny", n);
    ScanWithActionExact(cols, "mask", n);
    ScanWithActionExact(cols, "tokenize", n);
    forall c | c in cols { ScanActionExact(c); }
  }

  lemma {:induction false} AutoPolicyWellFormed(resource: string, role: string, cols: seq<ScanColumn>)
    requires UniqueColumns(cols)
    ensures var d := AutoPolicy(resource, role, cols);
            ListsUnique(d) && ListsDisjoint(d) && (d.exempt ==> Unrestricted(d))
  {
    var d := AutoPolicy(resource, role, cols);
    ScanWithActionExact(cols, "deny", "");
    ScanWithActionExact(cols, "mask", "");
    ScanWithActionExact(cols, "tokenize", "");
    forall n
      ensures !(n in d.denied && n in d.masked) && !(n in d.denied && n in d.tokenized)
              && !(n in d.masked && n in d.tokenized)
    {
      AutoPolicyExact(resource, role, cols, n);
    }
  }

  /** Skipping an exempt decision in the rewriter changes the verdict on no column. */
  lemma {:induction false} ExemptLosesNothing(d: Decision, n: string)
    requires d.exempt ==> Unrestricted(d)
    ensures ActionIn(d, n) == ActionIn(d.(exempt := false), n)
  {
    assert forall names: seq<string> | names == [] :: !ListedAnyCase(n, names);
  }
}
