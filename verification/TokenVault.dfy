/**
 The token vault: services tokenize values into a buffer that is flushed to a vault they
 share, and an admin of the tenant gets every value back from its token.
 */
module TokenVault {
  import opened Wrappers

  datatype Row = Row(token: string, encrypted: string, tenant: nat)

  /** A cipher and its inverse. */
  datatype Cipher = Cipher(encrypt: string -> string, decrypt: string -> string)

  ghost predicate Inverts(c: Cipher) {
    forall v: string :: c.decrypt(c.encrypt(v)) == v
  }

  // ----- one service and the vault -----

  /** A request's service: what it has given out, and what it has yet to store. */
  datatype Service = Service(tenant: nat, cache: map<string, string>, pending: seq<Row>)

  function TokenizeIn(s: Service, c: Cipher, value: string, token: string): Service {
    if value in s.cache then s
    else s.(cache := s.cache[value := token], pending := s.pending + [Row(token, c.encrypt(value), s.tenant)])
  }

  function FindRow(vault: seq<Row>, token: string, tenant: nat): Option<Row> {
    if vault == [] then None
    else if vault[0].token == token && vault[0].tenant == tenant then Some(vault[0])
    else FindRow(vault[1..], token, tenant)
  }

  datatype Detokenized = Value(text: string) | NotFound | NotPermitted

  function DetokenizeFrom(vault: seq<Row>, c: Cipher, token: string, tenant: nat, role: string): Detokenized {
    if role != "admin" then NotPermitted
    else
      match FindRow(vault, token, tenant)
      case None => NotFound
      case Some(row) => Value(c.decrypt(row.encrypted))
  }

  class Vault {
    var rows: seq<Row>

    constructor ()
      ensures rows == []
    {
      rows := [];
    }
  }

  class TokenizationService {
    const vault: Vault
    const tenant: nat
    const cipher: Cipher
    var cache: map<string, string>
    var pending: seq<Row>

    function State(): Service
      reads this
    {
      Service(tenant, cache, pending)
    }

    constructor (vault: Vault, tenant: nat, cipher: Cipher)
      ensures this.vault == vault && this.cipher == cipher && State() == Service(tenant, map[], [])
    {
      this.vault, this.tenant, this.cipher := vault, tenant, cipher;
      cache, pending := map[], [];
    }

    /** `unused` is the next generated token. */
    method Tokenize(value: string, unused: string) returns (token: string)
      modifies this
      ensures State() == TokenizeIn(old(State()), cipher, value, unused)
      ensures value in cache && token == cache[value]
    {
      if value in cache { return cache[value]; }
      token := unused;
      pending := pending + [Row(token, cipher.encrypt(value), tenant)];
      cache := cache[value := token];
    }

    method FlushBatch() returns (count: nat)
      modifies this`pending, vault
      ensures vault.rows == old(vault.rows) + old(pending) && pending == [] && count == |old(pending)|
    {
      if pending == [] { return 0; }
      vault.rows := vault.rows + pending;
      count := |pending|;
      pending := [];
    }

    method Detokenize(token: string, role: string) returns (r: Detokenized)
      ensures r == DetokenizeFrom(vault.rows, cipher, token, tenant, role)
    {
      if role != "admin" { return NotPermitted; }
      var entry := FindRow(vault.rows, token, tenant);
      if entry.None? { return NotFound; }
      r := Value(cipher.decrypt(entry.value.encrypted));
    }
  }

  // ----- services over one vault -----

  datatype World = World(services: seq<Service>, vault: seq<Row>)

  datatype Step =
    | Open(tenant: nat)
    | Tokenize(service: nat, value: string, token: string)
    | Flush(service: nat)

  function Next(w: World, c: Cipher, step: Step): World {
    match step
    case Open(t) => w.(services := w.services + [Service(t, map[], [])])
    case Tokenize(i, v, t) => if i < |w.services|
      then w.(services := w.services[i := TokenizeIn(w.services[i], c, v, t)]) else w
    case Flush(i) =>
      if i < |w.services| then World(w.services[i := w.services[i].(pending := [])], w.vault + w.services[i].pending)
        else w
  }

  function Run(c: Cipher, steps: seq<Step>): World {
    if steps == [] then World([], []) else Next(Run(c, steps[..|steps| - 1]), c, steps[|steps| - 1])
  }

  // ----- what is stored under a token -----

  function Count(rows: seq<Row>, token: string): nat {
    if rows == [] then 0 else Count(rows[..|rows| - 1], token) + if rows[|rows| - 1].token == token then 1 else 0
  }

  function CountPending(services: seq<Service>, token: string): nat {
    if services == [] then 0
      else CountPending(services[..|services| - 1], token) + Count(services[|services| - 1].pending, token)
  }

  /** How often a token occurs in the vault and in all that is yet to be stored. */
  function Total(w: World, token: string): nat {
    Count(w.vault, token) + CountPending(w.services, token)
  }

  lemma {:induction false} CountConcat(a: seq<Row>, b: seq<Row>, token: string)
    ensures Count(a + b, token) == Count(a, token) + Count(b, token)
  {
    if b == [] {
      assert a + b == a;
    } else {
      assert (a + b)[..|a + b| - 1] == a + b[..|b| - 1];
      CountConcat(a, b[..|b| - 1], token);
    }
  }

  lemma {:induction false} CountReplaced(services: seq<Service>, i: nat, s: Service, token: string)
    requires i < |services|
    ensures CountPending(services[i := s], token) + Count(services[i].pending, token)
            == CountPending(services, token) + Count(s.pending, token)
  {
    var k := |services| - 1;
    if i < k {
      assert services[i := s][..k] == services[..k][i := s];
      CountReplaced(services[..k], i, s, token);
    } else {
      assert services[i := s][..k] == services[..k];
    }
  }

  lemma {:induction false} CountMember(rows: seq<Row>, row: Row)
    requires row in rows
    ensures Count(rows, row.token) >= 1
  {
    var k := |rows| - 1;
    if row != rows[k] {
      assert row in rows[..k];
      CountMember(rows[..k], row);
    }
  }

  lemma {:induction false} CountPendingMember(services: seq<Service>, i: nat, token: string)
    requires i < |services|
    ensures CountPending(services, token) >= Count(services[i].pending, token)
  {
    if i < |services| - 1 { CountPendingMember(services[..|services| - 1], i, token); }
  }

  // ----- what every run keeps -----

  /** The row a service made for a value it gave a token. */
  function RowOf(s: Service, c: Cipher, value: string): Row
    requires value in s.cache
  {
    Row(s.cache[value], c.encrypt(value), s.tenant)
  }

  predicate Stored(w: World, row: Row) {
    row in w.vault || exists i :: 0 <= i < |w.services| && row in w.services[i].pending
  }

  predicate InjectiveCache(s: Service) {
    forall v, u | v in s.cache && u in s.cache && s.cache[v] == s.cache[u] :: v == u
  }

  /** Every cached value's row is yet to be stored by its own service, or in the vault. */
  predicate CacheKept(w: World, c: Cipher, i: nat) {
    i < |w.services| ==> forall v | v in w.services[i].cache ::
      RowOf(w.services[i], c, v) in w.services[i].pending || RowOf(w.services[i], c, v) in w.vault
  }

  ghost predicate Sound(w: World, c: Cipher) {
    && (forall i | 0 <= i < |w.services| :: InjectiveCache(w.services[i]) && CacheKept(w, c, i))
    && forall t: string :: Total(w, t) <= 1
  }

  /** Generated tokens are new to everything stored or yet to be stored. */
  ghost predicate FreshTokens(c: Cipher, steps: seq<Step>) {
    forall k | 0 <= k < |steps| && steps[k].Tokenize? :: Total(Run(c, steps[..k]), steps[k].token) == 0
  }

  lemma {:induction false} OpenSound(w: World, c: Cipher, t: nat)
    requires Sound(w, c)
    ensures Sound(Next(w, c, Open(t)), c)
  {
    var next := Next(w, c, Open(t));
    assert next.services[..|w.services|] == w.services;
    forall token: string ensures Total(next, token) <= 1 { assert Total(w, token) <= 1; }
    forall i | 0 <= i < |w.services| ensures CacheKept(next, c, i) { assert CacheKept(w, c, i); }
  }

  lemma {:induction false} FlushTotal(w: World, c: Cipher, i: nat, token: string)
    requires i < |w.services|
    ensures Total(Next(w, c, Flush(i)), token) == Total(w, token)
  {
    CountConcat(w.vault, w.services[i].pending, token);
    CountReplaced(w.services, i, w.services[i].(pending := []), token);
  }

  lemma {:induction false} FlushSound(w: World, c: Cipher, i: nat)
    requires Sound(w, c) && i < |w.services|
    ensures Sound(Next(w, c, Flush(i)), c)
  {
    var next := Next(w, c, Flush(i));
    forall token: string ensures Total(next, token) <= 1 { FlushTotal(w, c, i, token); }
    forall j | 0 <= j < |next.services| ensures InjectiveCache(next.services[j]) && CacheKept(next, c, j) {
      assert InjectiveCache(w.services[j]) && CacheKept(w, c, j);
    }
  }

  lemma {:induction false} TokenizeTotal(w: World, c: Cipher, i: nat, value: string, token: string, t: string)
    requires i < |w.services| && value !in w.services[i].cache
    ensures Total(Next(w, c, Tokenize(i, value, token)), t) == Total(w, t) + if t == token then 1 else 0
  {
    var s := TokenizeIn(w.services[i], c, value, token);
    CountReplaced(w.services, i, s, t);
    assert s.pending[..|s.pending| - 1] == w.services[i].pending;
  }

  /** No cached value has a token that is stored nowhere. */
  lemma {:induction false} UnusedToken(w: World, c: Cipher, i: nat, v: string, token: string)
    requires i < |w.services| && CacheKept(w, c, i) && v in w.services[i].cache && Total(w, token) == 0
    ensures w.services[i].cache[v] != token
  {
    var row := RowOf(w.services[i], c, v);
    if row in w.vault {
      CountMember(w.vault, row);
    } else {
      CountMember(w.services[i].pending, row);
      CountPendingMember(w.services, i, row.token);
    }
  }

  lemma {:induction false} TokenizeSound(w: World, c: Cipher, i: nat, value: string, token: string)
    requires Sound(w, c) && i < |w.services| && Total(w, token) == 0
    ensures Sound(Next(w, c, Tokenize(i, value, token)), c)
  {
    if value !in w.services[i].cache {
      var next := Next(w, c, Tokenize(i, value, token));
      forall t: string ensures Total(next, t) <= 1 { TokenizeTotal(w, c, i, value, token, t); }
      forall v | v in w.services[i].cache ensures w.services[i].cache[v] != token { UnusedToken(w, c, i, v, token); }
      forall j | 0 <= j < |next.services| ensures InjectiveCache(next.services[j]) && CacheKept(next, c, j) {
        assert InjectiveCache(w.services[j]) && CacheKept(w, c, j);
      }
    } else {
      assert w.services[i := w.services[i]] == w.services;
    }
  }

  /** Over every interleaving no token is stored twice, and every cached value is stored or about to be. */
  lemma {:induction false} RunsAreSound(c: Cipher, steps: seq<Step>)
    requires FreshTokens(c, steps)
    ensures Sound(Run(c, steps), c)
  {
    if steps != [] {
      var k := |steps| - 1;
      forall j | 0 <= j < k
        && steps[..k][j].Tokenize? ensures Total(Run(c, steps[..k][..j]), steps[..k][j].token) == 0 {
        assert steps[..k][..j] == steps[..j] && steps[j].Tokenize?;
      }
      RunsAreSound(c, steps[..k]);
      var w := Run(c, steps[..k]);
      match steps[k] {
        case Open(t) => OpenSound(w, c, t);
        case Tokenize(i, v, t) => if i < |w.services| { TokenizeSound(w, c, i, v, t); }
        case Flush(i) => if i < |w.services| { FlushSound(w, c, i); }
      }
    }
  }

  // ----- the round trip -----

  lemma {:induction false} FindStored(vault: seq<Row>, row: Row)
    requires row in vault && Count(vault, row.token) <= 1
    ensures forall t :: FindRow(vault, row.token, t) == if t == row.tenant then Some(row) else None
  {
    CountFirst(vault, row.token);
    if vault[0] == row {
      if Count(vault[1..], row.token) == 0 { FindNone(vault[1..], row.token); }
    } else {
      assert row in vault[1..];
      CountMember(vault[1..], row);
      FindStored(vault[1..], row);
    }
  }

  lemma {:induction false} CountFirst(rows: seq<Row>, token: string)
    requires rows != []
    ensures Count(rows, token) == (if rows[0].token == token then 1 else 0) + Count(rows[1..], token)
  {
    CountConcat(rows[..1], rows[1..], token);
    assert rows == rows[..1] + rows[1..] && rows[..1][..0] == [];
    assert Count(rows[..1], token) == if rows[0].token == token then 1 else 0;
  }

  lemma {:induction false} FindNone(vault: seq<Row>, token: string)
    requires Count(vault, token) == 0
    ensures forall t :: FindRow(vault, token, t).None?
  {
    if vault != [] {
      CountFirst(vault, token);
      FindNone(vault[1..], token);
    }
  }

  /**
   Once a service has nothing left to store, each value it tokenized comes back to its tenant's admins and to nobody
   else.
   */
  lemma {:induction false} TokensRoundTrip(c: Cipher, steps: seq<Step>, i: nat, value: string)
    requires Inverts(c) && FreshTokens(c, steps)
    requires var w := Run(c, steps); i < |w.services| && w.services[i].pending == [] && value in w.services[i].cache
    ensures var w := Run(c, steps);
            var token, mine := w.services[i].cache[value], w.services[i].tenant;
            && DetokenizeFrom(w.vault, c, token, mine, "admin") == Value(value)
            && (forall other | other != mine :: DetokenizeFrom(w.vault, c, token, other, "admin") == NotFound)
            && forall tenant, role | role != "admin" :: DetokenizeFrom(w.vault, c, token, tenant, role) == NotPermitted
  {
    var w := Run(c, steps);
    RunsAreSound(c, steps);
    assert CacheKept(w, c, i);
    var row := RowOf(w.services[i], c, value);
    assert Total(w, row.token) <= 1;
    FindStored(w.vault, row);
  }

  /** A cached value has exactly one entry, in the vault or about to be stored. */
  lemma {:induction false} OneEntryEach(c: Cipher, steps: seq<Step>, i: nat, value: string)
    requires FreshTokens(c, steps)
    requires var w := Run(c, steps); i < |w.services| && value in w.services[i].cache
    ensures var w := Run(c, steps);
            Total(w, w.services[i].cache[value]) == 1 && Stored(w, RowOf(w.services[i], c, value))
  {
    var w := Run(c, steps);
    RunsAreSound(c, steps);
    assert CacheKept(w, c, i);
    var row := RowOf(w.services[i], c, value);
    assert Total(w, row.token) <= 1;
    if Total(w, row.token) == 0 { UnusedToken(w, c, i, value, row.token); }
  }

  // ----- a value keeps its token -----

  lemma {:induction false} StepKeepsTokens(w: World, c: Cipher, step: Step, i: nat, value: string)
    requires i < |w.services| && value in w.services[i].cache
    ensures var next := Next(w, c, step);
            && i < |next.services| && value in next.services[i].cache
            && next.services[i].cache[value] == w.services[i].cache[value]
            && next.services[i].tenant == w.services[i].tenant
  {
  }

  /** Over every run, a service that has given a value a token gives it that token for good. */
  lemma {:induction false} TokensAreKept(c: Cipher, steps: seq<Step>, more: seq<Step>, i: nat, value: string)
    requires var w := Run(c, steps); i < |w.services| && value in w.services[i].cache
    ensures var w, later := Run(c, steps), Run(c, steps + more);
            && i < |later.services| && value in later.services[i].cache
            && later.services[i].cache[value] == w.services[i].cache[value]
  {
    if more == [] {
      assert steps + more == steps;
    } else {
      var k := |more| - 1;
      assert (steps + more)[..|steps| + k] == steps + more[..k];
      TokensAreKept(c, steps, more[..k], i, value);
      StepKeepsTokens(Run(c, steps + more[..k]), c, more[k], i, value);
    }
  }

  /** A value not seen before gets the token generated for it, and one row to store. */
  lemma {:induction false} NewValueStored(s: Service, c: Cipher, value: string, token: string)
    requires value !in s.cache
    ensures var t := TokenizeIn(s, c, value, token);
            && value in t.cache && t.cache[value] == token && t.tenant == s.tenant
            && (forall v | v != value ::
                  (v in t.cache <==> v in s.cache) && (v in s.cache ==> t.cache[v] == s.cache[v]))
            && t.pending == s.pending + [Row(token, c.encrypt(value), s.tenant)]
  {
  }
}
