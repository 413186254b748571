/**
 How old an answer can be.  Whatever the steps, deletions and reclassification included,
 the column decision an answer gives is the one the uncached engine gave at some moment of
 the last minute.
 */
module Staleness {
  import opened Policies
  import opened PolicyDecisions
  import opened RuleSelection
  import opened PolicyCache
  import opened CacheRuns

  /** `d` is what the uncached engine decided when the entry was written. */
  ghost predicate DecidedAt(past: System, expires: nat, t: nat, n: string, role: string, d: Decision) {
    past.now + TTL == expires && forall user: User | user.role == role :: ColumnDecision(past.store, t, n, user) == d
  }

  /** The key of an entry about a name: of its rule decision or of its scan decision. */
  function EntryKey(t: nat, n: string, role: string, ruled: bool): string {
    if ruled then Key(t, n + NO_RF, role) else Key(t, n, role)
  }

  ghost predicate Witnessed(start: System, steps: seq<Step>, es: Entries, t: nat, n: string, role: string,
                            ruled: bool) {
    var key := EntryKey(t, n, role, ruled);
    key in es ==> exists h ::
      0 <= h <= |steps| && DecidedAt(Final(start, steps[..h]), es[key].expires, t, n, role, es[key].decision)
  }

  ghost predicate AllWitnessed(start: System, steps: seq<Step>, es: Entries, sc: Scope) {
    forall t, n, role, ruled | n in sc.names && role in sc.roles :: Witnessed(start, steps, es, t, n, role, ruled)
  }

  /** What was witnessed stays witnessed as the run goes on, and as entries are dropped. */
  lemma {:induction false} StillWitnessed(start: System, steps: seq<Step>, es: Entries, sc: Scope, step: Step,
                                          fewer: Entries)
    requires AllWitnessed(start, steps, es, sc)
    requires forall k | k in fewer :: k in es && fewer[k] == es[k]
    ensures AllWitnessed(start, steps + [step], fewer, sc)
  {
    forall t, n, role, ruled | n in sc.names && role in sc.roles
      ensures Witnessed(start, steps + [step], fewer, t, n, role, ruled)
    {
      var key := EntryKey(t, n, role, ruled);
      assert Witnessed(start, steps, es, t, n, role, ruled);
      if key in fewer {
        var h :| 0 <= h <= |steps|
          && DecidedAt(Final(start, steps[..h]), es[key].expires, t, n, role, es[key].decision);
        assert (steps + [step])[..h] == steps[..h];
      }
    }
  }

  /** An entry written by an answer holds the uncached decision of that moment. */
  lemma {:induction false} KeptIsCurrent(sys: System, t: nat, n: string, user: User)
    requires CachedDecide(sys, t, n, user).keep.Some?
    ensures var a := CachedDecide(sys, t, n, user);
            && (a.keep.value == EntryKey(t, n, user.role, true) || a.keep.value == EntryKey(t, n, user.role, false))
            && DecidedAt(sys, sys.now + TTL, t, n, user.role, a.decision)
  {
    var rule, cols := Choose(RulesOf(sys.store, t), n), ColumnsOf(sys.store, t, n);
    forall other: User | other.role == user.role
      ensures ColumnDecision(sys.store, t, n, other) == CachedDecide(sys, t, n, user).decision
    {
      if rule.Some? {
        RoleDecides(rule.value, user, cols);
        RoleDecides(rule.value, other, cols);
      }
    }
  }

  lemma {:induction false} AskWitnessed(start: System, steps: seq<Step>, sc: Scope, t: nat, n: string, user: User)
    requires ScopeOk(sc) && n in sc.names && user.role in sc.roles
    requires AllWitnessed(start, steps, Final(start, steps).entries, sc)
    ensures AllWitnessed(start, steps + [Ask(t, n, user)], AskDecision(Final(start, steps), t, n, user).entries, sc)
  {
    var sys, more := Final(start, steps), steps + [Ask(t, n, user)];
    var a, es := CachedDecide(sys, t, n, user), AskDecision(sys, t, n, user).entries;
    StillWitnessed(start, steps, sys.entries, sc, Ask(t, n, user), sys.entries);
    if a.keep.Some? {
      KeptIsCurrent(sys, t, n, user);
      assert more[..|steps|] == steps;
      forall u, m, role, ruled | m in sc.names && role in sc.roles
        ensures Witnessed(start, more, es, u, m, role, ruled)
      {
        assert Witnessed(start, more, sys.entries, u, m, role, ruled);
        OtherKeys(sc, u, m, role, t, n, user.role);
        OtherKeys(sc, t, n, user.role, u, m, role);
        if EntryKey(u, m, role, ruled) == a.keep.value {
          assert DecidedAt(Final(start, more[..|steps|]), es[a.keep.value].expires, t, n, user.role, a.decision);
        }
      }
    }
  }

  lemma {:induction false} RunWitnessed(start: System, steps: seq<Step>, sc: Scope)
    requires ScopeOk(sc) && start.entries == map[] && StepsIn(steps, sc)
    ensures AllWitnessed(start, steps, Final(start, steps).entries, sc)
  {
    if steps != [] {
      var k := |steps| - 1;
      var sys, step := Final(start, steps[..k]), steps[k];
      RunWitnessed(start, steps[..k], sc);
      assert steps == steps[..k] + [step];
      if step.Ask? {
        AskWitnessed(start, steps[..k], sc, step.tenant, step.name, step.user);
      } else {
        StillWitnessed(start, steps[..k], sys.entries, sc, step, Next(sys, step).entries);
      }
    }
  }

  /** Every column decision is at most a minute old. */
  lemma {:induction false} AnswersAreRecent(start: System, steps: seq<Step>, sc: Scope, t: nat, n: string, user: User)
    returns (h: nat)
    requires ScopeOk(sc) && start.entries == map[] && StepsIn(steps, sc) && n in sc.names && user.role in sc.roles
    ensures h <= |steps|
    ensures Final(start, steps[..h]).now <= Final(start, steps).now < Final(start, steps[..h]).now + 60
    ensures CachedColumnDecision(Final(start, steps), t, n, user).decision
            == ColumnDecision(Final(start, steps[..h]).store, t, n, user)
  {
    var sys := Final(start, steps);
    RunWitnessed(start, steps, sc);
    var ruled := Choose(RulesOf(sys.store, t), n).Some?;
    var key := EntryKey(t, n, user.role, ruled);
    assert Witnessed(start, steps, sys.entries, t, n, user.role, ruled);
    assert steps[..|steps|] == steps;
    if CachedColumnDecision(sys, t, n, user).decision == ColumnDecision(sys.store, t, n, user) {
      h := |steps|;
    } else {
      h :| 0 <= h <= |steps|
        && DecidedAt(Final(start, steps[..h]), sys.entries[key].expires, t, n, user.role, sys.entries[key].decision);
      ClockMoves(start, steps, h);
    }
  }

  lemma {:induction false} ClockMoves(start: System, steps: seq<Step>, h: nat)
    requires h <= |steps|
    ensures Final(start, steps[..h]).now <= Final(start, steps).now
  {
    var k := |steps| - 1;
    if h == |steps| {
      assert steps[..h] == steps;
    } else {
      ClockMoves(start, steps[..k], h);
      assert steps[..k][..h] == steps[..h];
    }
  }
}
