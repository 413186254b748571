/**
 The policy handlers and the engine's `decide` as they run: rules are added, patched and
 dropped in place, and the shared cache is read, filled and invalidated on the way.
 */
module PolicyService {
  import opened Wrappers
  import opened Policies
  import opened PolicyDecisions
  import opened RuleSelection
  import opened PolicyCache
  import opened CacheRuns

  class Service {
    var store: Store
    const cache: Redis

    ghost function State(): System
      reads this, cache
    {
      System(store, cache.entries, cache.now)
    }

    constructor (start: Store)
      ensures fresh(cache) && State() == System(start, map[], 0)
    {
      store := start;
      cache := new Redis();
    }

    /** False when the tenant already has a rule for the resource. */
    method CreatePolicy(tenant: nat, resource: string, columns: Items, tags: Items, filters: seq<RowFilter>)
      returns (created: bool)
      modifies this`store, cache`entries
      ensures State() == CreateRule(old(State()), tenant, resource, columns, tags, filters)
      ensures created <==> forall r | r in RulesOf(old(store), tenant) :: r.resource != resource
    {
      var rules := RulesOf(store, tenant);
      if exists r :: r in rules && r.resource == resource { return false; }
      var rule := Rule(store.nextId, resource, columns, tags, filters);
      store := store.(rules := store.rules[tenant := rules + [rule]], nextId := store.nextId + 1);
      var _ := cache.InvalidateTable(tenant, resource);
      created := true;
    }

    /** False when the tenant has no such rule. */
    method UpdatePolicy(tenant: nat, id: nat, policies: Option<(Items, Items)>, filters: Option<seq<RowFilter>>)
      returns (found: bool)
      modifies this`store, cache`entries
      ensures State() == UpdateRule(old(State()), tenant, id, policies, filters)
      ensures found <==> IndexOf(RulesOf(old(store), tenant), id) < |RulesOf(old(store), tenant)|
    {
      var rules := RulesOf(store, tenant);
      var i := IndexOf(rules, id);
      if i == |rules| { return false; }
      var rule := rules[i];
      if policies.Some? { rule := rule.(columns := policies.value.0, tags := policies.value.1); }
      if filters.Some? { rule := rule.(filters := filters.value); }
      store := store.(rules := store.rules[tenant := rules[i := rule]]);
      var _ := cache.InvalidateTable(tenant, rule.resource);
      found := true;
    }

    /** The rule goes; the cache is left alone. */
    method DeletePolicy(tenant: nat, id: nat) returns (found: bool)
      modifies this`store
      ensures State() == DeleteRule(old(State()), tenant, id)
      ensures found <==> IndexOf(RulesOf(old(store), tenant), id) < |RulesOf(old(store), tenant)|
    {
      var rules := RulesOf(store, tenant);
      var i := IndexOf(rules, id);
      if i == |rules| { return false; }
      store := store.(rules := store.rules[tenant := rules[..i] + rules[i + 1..]]);
      found := true;
    }

    method DecideFor(tenant: nat, name: string, user: User) returns (d: Decision)
      modifies cache`entries
      ensures d == CachedDecide(old(State()), tenant, name, user).decision
      ensures State() == AskDecision(old(State()), tenant, name, user)
    {
      var rule := SelectRule(RulesOf(store, tenant), name);
      var cols := ColumnsOf(store, tenant, name);
      if user.role != "superadmin" && (tenant, name) in store.tables && store.tables[(tenant, name)].department.Some? {
        if user.department != store.tables[(tenant, name)].department {
          return Decision(name, false, [], [], [], [], false, false, [], []);
        }
      }
      if tenant in store.maskingOff && user.role == "admin" {
        return Decision(name, true, [], [], [], [], true, false, PiiItems(cols), NamesOf(cols));
      }
      if rule.Some? {
        d := DecideByRule(tenant, name, user, rule.value, cols);
      } else if cols != [] {
        d := DecideByScan(tenant, name, user, cols);
      } else {
        d := Decision(name, store.permissive, [], [], [], [], false, true, [], []);
      }
    }

    method DecideByRule(tenant: nat, name: string, user: User, rule: Rule, cols: seq<ScanColumn>) returns (d: Decision)
      modifies cache`entries
      ensures var key, made := Key(tenant, name + NO_RF, user.role), FromRule(rule, user, cols);
              && d == (if rule.filters == [] then FromEntry(old(State()), key, made).decision else made)
              && cache.entries == if rule.filters == [] && Live(old(cache.entries), key, cache.now).None?
                                  then SetEntry(old(cache.entries), key, made, cache.now) else old(cache.entries)
    {
      var cached := cache.GetCached(tenant, name + NO_RF, user.role);
      if cached.Some? && rule.filters == [] { return cached.value; }
      d := DecideFromRule(rule, user, cols);
      if rule.filters == [] { cache.SetCached(tenant, name + NO_RF, user.role, d); }
    }

    method DecideByScan(tenant: nat, name: string, user: User, cols: seq<ScanColumn>) returns (d: Decision)
      modifies cache`entries
      ensures var key, made := Key(tenant, name, user.role), AutoPolicy(name, user.role, cols);
              && d == FromEntry(old(State()), key, made).decision
              && cache.entries == if Live(old(cache.entries), key, cache.now).None?
                                  then SetEntry(old(cache.entries), key, made, cache.now) else old(cache.entries)
    {
      var cached := cache.GetCached(tenant, name, user.role);
      if cached.Some? { return cached.value; }
      d := DecideFromScan(name, user.role, cols);
      cache.SetCached(tenant, name, user.role, d);
    }
  }
}
