/**
 Who may read a table at all, and what overrides the rules: the department of the table, the
 admin's bypass while global masking is off, and the setting for unclassified tables.
 */
module Access {
  import opened Wrappers
  import opened Policies
  import opened PolicyDecisions
  import opened RuleSelection
  import opened PolicyCache
  import opened CacheRuns

  /** The table belongs to a department, and the user is of none or of another one and no superadmin. */
  ghost predicate Outsider(st: Store, tenant: nat, name: string, user: User) {
    user.role != "superadmin" && exists department: nat ::
      (tenant, name) in st.tables && st.tables[(tenant, name)].department == Some(department)
      && (user.department == None || exists other: nat :: user.department == Some(other) && other != department)
  }

  /** Nothing says what to do about the table: no rule is for it and no scan has found columns. */
  predicate Unknown(st: Store, tenant: nat, name: string) {
    && (tenant !in st.rules || forall r | r in st.rules[tenant] :: !Selects(r, name))
    && ((tenant, name) !in st.tables || st.tables[(tenant, name)].columns == [])
  }

  /** The tenant has masking off, and the user is one of its admins. */
  predicate Bypasses(st: Store, tenant: nat, user: User) {
    tenant in st.maskingOff && user.role == "admin"
  }

  lemma {:induction false} OutsiderDiffers(st: Store, tenant: nat, name: string, user: User)
    ensures Outsider(st, tenant, name, user) <==>
              user.role != "superadmin" && (tenant, name) in st.tables
              && st.tables[(tenant, name)].department.Some? && st.tables[(tenant, name)].department != user.department
  {
    if (tenant, name) in st.tables && st.tables[(tenant, name)].department.Some? && user.department.Some? {
      assert user.department == Some(user.department.value);
      assert st.tables[(tenant, name)].department == Some(st.tables[(tenant, name)].department.value);
    }
  }

  lemma {:induction false} UnknownExact(st: Store, tenant: nat, name: string)
    ensures Unknown(st, tenant, name) <==>
              Choose(RulesOf(st, tenant), name).None? && ColumnsOf(st, tenant, name) == []
  {
    ChosenSelects(RulesOf(st, tenant), name);
  }

  lemma {:induction false} CheckedExact(st: Store, tenant: nat, name: string, user: User)
    ensures Checked(st, tenant, name, user).None?
            <==> !Outsider(st, tenant, name, user) && !Bypasses(st, tenant, user)
    ensures Outsider(st, tenant, name, user) ==> !Checked(st, tenant, name, user).value.allowed
    ensures !Outsider(st, tenant, name, user) && Bypasses(st, tenant, user) ==>
              Checked(st, tenant, name, user).value.allowed
  {
    OutsiderDiffers(st, tenant, name, user);
  }

  /**
   A table is refused exactly to outsiders of its department, and, if nothing is known of it and unclassified
   tables are not allowed, to everyone but an admin who bypasses masking.
   */
  lemma {:induction false} RefusedExactly(st: Store, tenant: nat, name: string, user: User)
    ensures !Decide(st, tenant, name, user).allowed <==>
              || Outsider(st, tenant, name, user)
              || (Unknown(st, tenant, name) && !st.permissive && !Bypasses(st, tenant, user))
  {
    CheckedExact(st, tenant, name, user);
    UnknownExact(st, tenant, name);
  }

  /** An outsider's decision tells nothing of the table, and is neither exempt nor automatic. */
  lemma {:induction false} OutsiderLearnsNothing(st: Store, tenant: nat, name: string, user: User)
    requires Outsider(st, tenant, name, user)
    ensures var d := Decide(st, tenant, name, user);
            && !d.allowed && !d.exempt && !d.autoPolicy && d.resource == name
            && Unrestricted(d) && d.filters == [] && d.known == [] && d.pii == []
  {
    OutsiderDiffers(st, tenant, name, user);
  }

  /** The cache is not asked about outsiders and bypassing admins. */
  lemma {:induction false} CheckedFirst(sys: System, tenant: nat, name: string, user: User)
    requires Outsider(sys.store, tenant, name, user) || Bypasses(sys.store, tenant, user)
    ensures CachedDecide(sys, tenant, name, user) == Answer(Decide(sys.store, tenant, name, user), None)
  {
    CheckedExact(sys.store, tenant, name, user);
  }

  /** Restricts no column and no row, and knows the scanned columns. */
  predicate Unrestrained(d: Decision, cols: seq<ScanColumn>) {
    d.allowed && d.exempt && !d.autoPolicy && Unrestricted(d) && d.filters == [] && ScanCarried(d, cols)
  }

  /** The rules are overridden, all of them, exactly for an admin of a tenant with masking off. */
  lemma {:induction false} BypassExactly(st: Store, tenant: nat, name: string, user: User)
    requires !Outsider(st, tenant, name, user)
    ensures Bypasses(st, tenant, user) ==> Unrestrained(Decide(st, tenant, name, user), ColumnsOf(st, tenant, name))
    ensures !Bypasses(st, tenant, user) ==>
              Decide(st, tenant, name, user) == ColumnDecision(st, tenant, name, user)
  {
    CheckedExact(st, tenant, name, user);
    OutsiderDiffers(st, tenant, name, user);
  }

  /** The row filters of the chosen rule apply exactly to those who are neither outsiders nor bypass masking. */
  lemma {:induction false} FiltersApplyExactly(st: Store, tenant: nat, name: string, user: User, rule: Rule)
    requires Choose(RulesOf(st, tenant), name) == Some(rule) && rule.filters != []
    requires WellFormedRule(rule) && UniqueColumns(ColumnsOf(st, tenant, name))
    ensures FiltersFilled(Decide(st, tenant, name, user).filters, rule.filters, user)
            <==> !Outsider(st, tenant, name, user) && !Bypasses(st, tenant, user)
  {
    CheckedExact(st, tenant, name, user);
    OutsiderDiffers(st, tenant, name, user);
    FromRuleExact(rule, user, ColumnsOf(st, tenant, name), "");
  }

  /** Without a rule, a scanned table is decided by its scan, and one without scanned columns by the setting. */
  lemma {:induction false} WithoutRule(st: Store, tenant: nat, name: string, user: User)
    requires Choose(RulesOf(st, tenant), name).None?
    ensures var d, cols := ColumnDecision(st, tenant, name, user), ColumnsOf(st, tenant, name);
            && d.autoPolicy && d.filters == []
            && (cols != [] ==> d == AutoPolicy(name, user.role, cols))
            && (cols == [] ==> Unrestricted(d) && !d.exempt && d.known == [] && (d.allowed <==> st.permissive))
  {
  }
}
