/**
 The decision cache: its keys, the glob that invalidates them, and why invalidating a rule's
 pattern removes the keys of every resource the rule decides about.
 */
module PolicyCache {
  import opened Wrappers
  import opened Policies

  const TTL: nat := 60

  // ----- keys -----

  function Digit(d: nat): char
    requires d < 10
  {
    ('0' as int + d) as char
  }

  function Decimal(n: nat): string {
    if n < 10 then [Digit(n)] else Decimal(n / 10) + [Digit(n % 10)]
  }

  function TenantPrefix(tenant: nat): string {
    "dg:policy:" + Decimal(tenant) + ":"
  }

  function Key(tenant: nat, name: string, role: string): string {
    TenantPrefix(tenant) + name + ":" + role
  }

  lemma {:induction false} DecimalDigits(n: nat)
    ensures forall c | c in Decimal(n) :: '0' <= c <= '9'
    ensures Decimal(n) != ""
  {
    if n >= 10 { DecimalDigits(n / 10); }
  }

  lemma {:induction false} DecimalInjective(m: nat, n: nat)
    requires Decimal(m) == Decimal(n)
    ensures m == n
  {
    DecimalDigits(m / 10);
    DecimalDigits(n / 10);
    var a, b := Decimal(m), Decimal(n);
    if m >= 10 && n >= 10 {
      assert a[..|a| - 1] == Decimal(m / 10) && b[..|b| - 1] == Decimal(n / 10);
      DecimalInjective(m / 10, n / 10);
      assert a[|a| - 1] == Digit(m % 10) && b[|b| - 1] == Digit(n % 10);
    }
  }

  /** What stands before a separator, and what stands after it, is told from the text where it first occurs. */
  lemma {:induction false} SplitAtFirst(a: string, b: string, c: string, d: string)
    requires ':' !in a && ':' !in c && a + ":" + b == c + ":" + d
    ensures a == c && b == d
  {
    var s := a + ":" + b;
    assert s[|a|] == ':' && s[|c|] == ':';
    forall i | 0 <= i < |a| ensures s[i] != ':' { assert s[i] == a[i] && a[i] in a; }
    forall i | 0 <= i < |c| ensures s[i] != ':' { assert s[i] == c[i] && c[i] in c; }
    assert |a| == |c|;
    assert a == s[..|a|] && c == s[..|c|];
    assert b == s[|a| + 1..] && d == s[|c| + 1..];
  }

  /** The same for the last separator. */
  lemma {:induction false} SplitAtLast(a: string, b: string, c: string, d: string)
    requires ':' !in b && ':' !in d && a + ":" + b == c + ":" + d
    ensures a == c && b == d
  {
    var s := a + ":" + b;
    assert s[|a|] == ':' && s[|c|] == ':';
    forall i | |a| < i < |s| ensures s[i] != ':' { assert s[i] == b[i - |a| - 1] && b[i - |a| - 1] in b; }
    forall i | |c| < i < |s| ensures s[i] != ':' { assert s[i] == d[i - |c| - 1] && d[i - |c| - 1] in d; }
    assert |a| == |c|;
    assert a == s[..|a|] && c == s[..|c|];
    assert b == s[|a| + 1..] && d == s[|c| + 1..];
  }

  /** With roles free of colons a key tells its tenant, name and role. */
  lemma {:induction false} KeyInjective(t1: nat, n1: string, r1: string, t2: nat, n2: string, r2: string)
    requires ':' !in r1 && ':' !in r2 && Key(t1, n1, r1) == Key(t2, n2, r2)
    ensures t1 == t2 && n1 == n2 && r1 == r2
  {
    var head := "dg:policy:";
    var a, b := Decimal(t1) + ":" + n1, Decimal(t2) + ":" + n2;
    assert Key(t1, n1, r1) == head + (a + ":" + r1) && Key(t2, n2, r2) == head + (b + ":" + r2);
    SameTail(head, a + ":" + r1, b + ":" + r2);
    SplitAtLast(a, r1, b, r2);
    DecimalDigits(t1);
    DecimalDigits(t2);
    SplitAtFirst(Decimal(t1), n1, Decimal(t2), n2);
    DecimalInjective(t1, t2);
  }

  lemma {:induction false} SameTail(a: string, b: string, c: string)
    requires a + b == a + c
    ensures b == c
  {
    assert b == (a + b)[|a|..] && c == (a + c)[|a|..];
  }

  // ----- the invalidation glob -----

  /** A key matches a glob: `*` stands for any text and `?` for one character. */
  predicate Glob(p: string, s: string)
    decreases |p| + |s|
  {
    if p == "" then s == ""
    else if p[0] == '*' then Glob(p[1..], s) || (s != "" && Glob(p, s[1..]))
    else if p[0] == '?' then s != "" && Glob(p[1..], s[1..])
    else s != "" && p[0] == s[0] && Glob(p[1..], s[1..])
  }

  /** The glob that invalidates a table's keys, or all keys of the tenant when no table is named. */
  function InvalidationGlob(tenant: nat, table: string): string {
    TenantPrefix(tenant) + (if table == "" then "*" else table) + ":*"
  }

  lemma {:induction false} GlobRest(s: string)
    ensures Glob("*", s)
  {
    if s == "" { assert Glob("*"[1..], ""); } else { GlobRest(s[1..]); }
  }

  lemma {:induction false} GlobPrefix(lit: string, p: string, s: string)
    requires '*' !in lit && '?' !in lit && Glob(p, s)
    ensures Glob(lit + p, lit + s)
  {
    if lit == "" {
      assert lit + p == p && lit + s == s;
    } else {
      assert lit[0] in lit && forall c | c in lit[1..] :: c in lit;
      GlobPrefix(lit[1..], p, s);
      assert (lit + p)[1..] == lit[1..] + p && (lit + s)[1..] == lit[1..] + s;
    }
  }

  lemma {:induction false} GlobAppend(p: string, s: string, q: string, u: string)
    requires Glob(p, s) && Glob(q, u)
    ensures Glob(p + q, s + u)
    decreases |p| + |s|
  {
    if p == "" {
      assert p + q == q && s + u == u;
    } else {
      assert (p + q)[1..] == p[1..] + q;
      if s != "" { assert (s + u)[1..] == s[1..] + u; }
      if p[0] == '*' {
        if Glob(p[1..], s) { GlobAppend(p[1..], s, q, u); } else { GlobAppend(p, s[1..], q, u); }
      } else {
        GlobAppend(p[1..], s[1..], q, u);
      }
    }
  }

  lemma {:induction false} PrefixIsPlain(tenant: nat)
    ensures '*' !in TenantPrefix(tenant) && '?' !in TenantPrefix(tenant)
  {
    DecimalDigits(tenant);
  }

  /** A name that a table's text matches as a glob has all its keys matched by that table's invalidation glob. */
  lemma {:induction false} GlobCoversKeys(tenant: nat, table: string, name: string, suffix: string, role: string)
    requires Glob(if table == "" then "*" else table, name) && (suffix == "" || suffix[0] == ':')
    ensures Glob(InvalidationGlob(tenant, table), Key(tenant, name + suffix, role))
  {
    var p := if table == "" then "*" else table;
    var tail := suffix + ":" + role;
    assert tail[0] == ':';
    GlobRest(tail[1..]);
    assert Glob(":*", tail) by { assert ":*"[1..] == "*"; }
    GlobAppend(p, name, ":*", tail);
    PrefixIsPlain(tenant);
    GlobPrefix(TenantPrefix(tenant), p + ":*", name + tail);
    assert InvalidationGlob(tenant, table) == TenantPrefix(tenant) + (p + ":*");
    assert Key(tenant, name + suffix, role) == TenantPrefix(tenant) + (name + tail);
  }

  // ----- the store -----

  datatype Cached = Cached(decision: Decision, expires: nat)

  type Entries = map<string, Cached>

  function Live(es: Entries, key: string, now: nat): Option<Decision> {
    if key in es && now < es[key].expires then Some(es[key].decision) else None
  }

  function SetEntry(es: Entries, key: string, d: Decision, now: nat): Entries {
    es[key := Cached(d, now + TTL)]
  }

  function Invalidate(es: Entries, glob: string): Entries {
    map k | k in es && !Glob(glob, k) :: es[k]
  }

  /** Entries of the shared key-value store, with the clock it expires them by. */
  class Redis {
    var entries: Entries
    var now: nat

    constructor ()
      ensures entries == map[] && now == 0
    {
      entries, now := map[], 0;
    }

    method GetCached(tenant: nat, table: string, role: string) returns (d: Option<Decision>)
      ensures d == Live(entries, Key(tenant, table, role), now)
    {
      var key := Key(tenant, table, role);
      d := None;
      if key in entries && now < entries[key].expires { d := Some(entries[key].decision); }
    }

    method SetCached(tenant: nat, table: string, role: string, d: Decision)
      modifies this`entries
      ensures entries == SetEntry(old(entries), Key(tenant, table, role), d, now)
    {
      entries := entries[Key(tenant, table, role) := Cached(d, now + TTL)];
    }

    /** Every key is looked at once and deleted if it matches; the result counts the deletions. */
    method InvalidateTable(tenant: nat, table: string) returns (deleted: nat)
      modifies this`entries
      ensures entries == Invalidate(old(entries), InvalidationGlob(tenant, table))
      ensures deleted == |old(entries)| - |entries|
    {
      var pattern := InvalidationGlob(tenant, table);
      deleted := 0;
      ghost var es := entries;
      var keys := entries.Keys;
      while keys != {}
        invariant keys <= entries.Keys <= es.Keys
        invariant forall k | k in entries :: entries[k] == es[k] && (k in keys || !Glob(pattern, k))
        invariant forall k | k in es && k !in entries :: Glob(pattern, k)
        invariant deleted == |es.Keys| - |entries.Keys|
        decreases |keys|
      {
        var key :| key in keys;
        keys := keys - {key};
        if Glob(pattern, key) {
          ghost var before := entries.Keys;
          entries := entries - {key};
          assert entries.Keys == before - {key};
          deleted := deleted + 1;
        }
      }
      assert entries == Invalidate(es, pattern);
      assert |es| == |es.Keys| && |entries| == |entries.Keys|;
    }
  }
}
