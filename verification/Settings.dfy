/**
 Tenant settings, stored as the overrides of the defaults.  Patching the overrides amounts
 to patching the full configuration exactly when a condition on the three dictionaries
 holds, which it does when they agree on what is a dictionary and what is a leaf.
 */
module Settings {
  import opened Wrappers

  /** A configuration value; anything that is not a dictionary is a leaf. */
  datatype Json = Leaf(text: string) | Obj(fields: map<string, Json>)

  type Config = c: Json | c.Obj? witness Obj(map[])

  // ----- the merge -----

  function MergeValue(a: Json, b: Json): (r: Json)
    ensures b.Obj? ==> r.Obj?
    decreases b
  {
    if a.Obj? && b.Obj? then Merge(a, b) else b
  }

  function Merge(base: Config, over: Config): (r: Config)
    ensures r.fields.Keys == base.fields.Keys + over.fields.Keys
    decreases over, 0
  {
    var m := map k | k in base.fields.Keys + over.fields.Keys ::
               if k !in over.fields then base.fields[k]
               else if k in base.fields then MergeValue(base.fields[k], over.fields[k])
               else over.fields[k];
    Obj(m)
  }

  /** The loop: a copy of the base, into which the override's items go one by one. */
  method DeepMerge(base: Config, over: Config) returns (result: Config)
    ensures result == Merge(base, over)
    decreases over
  {
    result := base;
    ghost var target := Merge(base, over);
    var keys := over.fields.Keys;
    MergeStarts(base, over);
    while keys != {}
      invariant keys <= over.fields.Keys
      invariant Between(base.fields, result.fields, target.fields, keys)
      decreases |keys|
    {
      var key :| key in keys;
      var val := over.fields[key];
      StepMerge(base, over, result.fields, keys, key);
      keys := keys - {key};
      if key in result.fields && result.fields[key].Obj? && val.Obj? {
        val := DeepMerge(result.fields[key], val);
      }
      result := Obj(result.fields[key := val]);
    }
    BetweenDone(base.fields, result.fields, target.fields);
  }

  /** `m` is the target except at the keys still to come, where it is the base. */
  ghost predicate Between(base: map<string, Json>, m: map<string, Json>, target: map<string, Json>, keys: set<string>) {
    && (forall k | k in keys :: (k in m <==> k in base) && (k in m ==> m[k] == base[k]))
    && forall k | k !in keys :: (k in m <==> k in target) && (k in m ==> m[k] == target[k])
  }

  lemma {:induction false} MergeStarts(base: Config, over: Config)
    ensures Between(base.fields, base.fields, Merge(base, over).fields, over.fields.Keys)
  {
  }

  lemma {:induction false} BetweenDone(base: map<string, Json>, m: map<string, Json>, target: map<string, Json>)
    requires Between(base, m, target, {})
    ensures m == target
  {
    assert forall k :: k !in {} ==> (k in m <==> k in target);
  }

  lemma {:induction false} StepMerge(base: Config, over: Config, m: map<string, Json>, keys: set<string>, key: string)
    requires key in keys && keys <= over.fields.Keys && Between(base.fields, m, Merge(base, over).fields, keys)
    ensures var val := if key in m then MergeValue(m[key], over.fields[key]) else over.fields[key];
            Between(base.fields, m[key := val], Merge(base, over).fields, keys - {key})
  {
    MergeAt(base, over, key);
  }

  // ----- merging the same patch twice -----

  lemma {:induction false} MergeSelf(a: Config)
    ensures Merge(a, a) == a
    decreases a
  {
    forall k | k in a.fields && a.fields[k].Obj? ensures Merge(a.fields[k], a.fields[k]) == a.fields[k] {
      MergeSelf(a.fields[k]);
    }
    assert Merge(a, a).fields == a.fields;
  }

  /** The same patch twice is the patch once. */
  lemma {:induction false} MergeTwice(a: Config, p: Config)
    ensures Merge(Merge(a, p), p) == Merge(a, p)
    decreases p
  {
    forall k | k in p.fields && p.fields[k].Obj?
      ensures k in a.fields && a.fields[k].Obj?
              ==> Merge(Merge(a.fields[k], p.fields[k]), p.fields[k]) == Merge(a.fields[k], p.fields[k])
      ensures Merge(p.fields[k], p.fields[k]) == p.fields[k]
    {
      MergeSelf(p.fields[k]);
      if k in a.fields && a.fields[k].Obj? { MergeTwice(a.fields[k], p.fields[k]); }
    }
    assert Merge(Merge(a, p), p).fields == Merge(a, p).fields;
  }

  // ----- when merging associates -----

  /** Merging `c` over `a` leaves nothing of `a`. */
  predicate Absorbs(c: Json, a: Json)
    decreases c
  {
    a.Obj? && c.Obj? ==> forall k | k in a.fields :: k in c.fields && Absorbs(c.fields[k], a.fields[k])
  }

  /** Wherever `b` has a leaf between two dictionaries, the outer one absorbs the inner one. */
  predicate Associates(a: Json, b: Json, c: Json)
    decreases c
  {
    a.Obj? && c.Obj? ==>
      if b.Obj? then
        forall k | k in a.fields && k in b.fields && k in c.fields :: Associates(a.fields[k], b.fields[k], c.fields[k])
      else Absorbs(c, a)
  }

  lemma {:induction false} MergeAt(a: Config, b: Config, k: string)
    ensures k in Merge(a, b).fields <==> k in a.fields || k in b.fields
    ensures k in a.fields && k in b.fields ==> Merge(a, b).fields[k] == MergeValue(a.fields[k], b.fields[k])
    ensures k in a.fields && k !in b.fields ==> Merge(a, b).fields[k] == a.fields[k]
    ensures k !in a.fields && k in b.fields ==> Merge(a, b).fields[k] == b.fields[k]
  {
  }

  lemma {:induction false} AbsorbsExact(c: Json, a: Json)
    ensures MergeValue(a, c) == c <==> Absorbs(c, a)
    decreases c
  {
    if a.Obj? && c.Obj? {
      forall k
        ensures k in a.fields && k in c.fields
                ==> (MergeValue(a.fields[k], c.fields[k]) == c.fields[k] <==> Absorbs(c.fields[k], a.fields[k]))
      {
        if k in a.fields && k in c.fields { AbsorbsExact(c.fields[k], a.fields[k]); }
      }
      var m := Merge(a, c).fields;
      if Absorbs(c, a) {
        assert m.Keys == c.fields.Keys;
        assert m == c.fields;
      } else {
        var k :| k in a.fields && !(k in c.fields && Absorbs(c.fields[k], a.fields[k]));
        MergeAt(a, c, k);
        assert k in m && !(k in c.fields && m[k] == c.fields[k]);
      }
    }
  }

  /** Patching overrides and patching what they override come to the same exactly under `Associates`. */
  lemma {:induction false} AssociatesExact(a: Json, b: Json, c: Json)
    ensures MergeValue(MergeValue(a, b), c) == MergeValue(a, MergeValue(b, c)) <==> Associates(a, b, c)
    decreases c
  {
    if a.Obj? && c.Obj? {
      if b.Obj? {
        AssociatesObj(a, b, c);
      } else {
        AbsorbsExact(c, a);
      }
    }
  }

  lemma {:induction false} AssociatesObj(a: Config, b: Config, c: Config)
    ensures Merge(Merge(a, b), c) == Merge(a, Merge(b, c)) <==> Associates(a, b, c)
    decreases c, 0
  {
    var l, r := Merge(Merge(a, b), c).fields, Merge(a, Merge(b, c)).fields;
    forall k | k in a.fields.Keys + b.fields.Keys + c.fields.Keys
      ensures k in l && k in r
      ensures l[k] == r[k] <==> (k in a.fields && k in b.fields && k in c.fields
              ==> Associates(a.fields[k], b.fields[k], c.fields[k]))
    {
      MergeAt(a, b, k);
      MergeAt(b, c, k);
      MergeAt(Merge(a, b), c, k);
      MergeAt(a, Merge(b, c), k);
      if k in a.fields && k in b.fields && k in c.fields { AssociatesExact(a.fields[k], b.fields[k], c.fields[k]); }
    }
    if Associates(a, b, c) { assert l == r; }
  }

  // ----- agreeing shapes -----

  /** Wherever both have a value, both have a dictionary or both have a leaf. */
  predicate Agree(a: Json, b: Json)
    decreases b
  {
    (a.Obj? <==> b.Obj?) && (a.Obj? ==> forall k | k in a.fields && k in b.fields :: Agree(a.fields[k], b.fields[k]))
  }

  lemma {:induction false} AgreeingAssociate(a: Json, b: Json, c: Json)
    requires Agree(a, b) && Agree(b, c)
    ensures Associates(a, b, c)
    decreases c
  {
    if a.Obj? && c.Obj? {
      forall k | k in a.fields && k in b.fields && k in c.fields
        ensures Associates(a.fields[k], b.fields[k], c.fields[k])
      {
        AgreeingAssociate(a.fields[k], b.fields[k], c.fields[k]);
      }
    }
  }

  lemma {:induction false} AgreeMerged(x: Json, a: Json, b: Json)
    requires Agree(x, a) && Agree(x, b) && Agree(a, b)
    ensures Agree(x, MergeValue(a, b))
    decreases b
  {
    if a.Obj? && b.Obj? {
      var m := Merge(a, b);
      forall k | k in x.fields && k in m.fields
        ensures Agree(x.fields[k], m.fields[k])
      {
        MergeAt(a, b, k);
        if k in a.fields && k in b.fields { AgreeMerged(x.fields[k], a.fields[k], b.fields[k]); }
      }
    }
  }

  lemma {:induction false} AgreeSymmetric(a: Json, b: Json)
    requires Agree(a, b)
    ensures Agree(b, a)
    decreases b
  {
    if a.Obj? {
      forall k | k in a.fields && k in b.fields
        ensures Agree(b.fields[k], a.fields[k])
      {
        AgreeSymmetric(a.fields[k], b.fields[k]);
      }
    }
  }

  // ----- what is where in a configuration -----

  function At(c: Json, path: seq<string>): Option<Json> {
    if path == [] then Some(c)
    else if c.Obj? && path[0] in c.fields then At(c.fields[path[0]], path[1..])
    else None
  }

  /** The way to the path leads through dictionaries alone and ends where there is nothing. */
  predicate Silent(c: Json, path: seq<string>) {
    path != [] && c.Obj? && (path[0] in c.fields ==> Silent(c.fields[path[0]], path[1..]))
  }

  /** A leaf of the merged configuration is one of the override, or one of the base where the override is silent. */
  lemma {:induction false} LeafExact(base: Json, over: Json, path: seq<string>, text: string)
    ensures At(MergeValue(base, over), path) == Some(Leaf(text))
            <==> At(over, path) == Some(Leaf(text)) || (Silent(over, path) && At(base, path) == Some(Leaf(text)))
    decreases path
  {
    if base.Obj? && over.Obj? && path != [] {
      var k := path[0];
      MergeAt(base, over, k);
      if k in base.fields && k in over.fields { LeafExact(base.fields[k], over.fields[k], path[1..], text); }
      if k in base.fields && k !in over.fields { assert Silent(over, path); }
    }
  }

  // ----- the stored row -----

  /** The settings of a tenant: the shipped defaults under the stored overrides. */
  function Effective(defaults: Config, row: Option<Config>): Config {
    if row.None? then defaults else Merge(defaults, row.value)
  }

  /** The overrides after an update. */
  function Overridden(row: Option<Config>, patch: Config): Config {
    Merge(if row.Some? then row.value else Obj(map[]), patch)
  }

  /** In effect is what is stored for the tenant, and a default where what is stored is silent. */
  lemma {:induction false} EffectiveExact(defaults: Config, row: Option<Config>, path: seq<string>, text: string)
    ensures At(Effective(defaults, row), path) == Some(Leaf(text)) <==>
              || (row.Some? && At(row.value, path) == Some(Leaf(text)))
              || ((row.None? || Silent(row.value, path)) && At(defaults, path) == Some(Leaf(text)))
  {
    if row.Some? { LeafExact(defaults, row.value, path, text); }
  }

  /** A patch is stored as it is; what was stored stays exactly where the patch is silent. */
  lemma {:induction false} OverriddenExact(row: Option<Config>, patch: Config, path: seq<string>, text: string)
    ensures At(Overridden(row, patch), path) == Some(Leaf(text)) <==>
              || At(patch, path) == Some(Leaf(text))
              || (row.Some? && Silent(patch, path) && At(row.value, path) == Some(Leaf(text)))
  {
    var before: Config := if row.Some? then row.value else Obj(map[]);
    LeafExact(before, patch, path, text);
    if row.None? { assert At(before, path) == if path == [] then Some(before) else None; }
  }

  class SettingsService {
    const defaults: Config
    var row: Option<Config>

    constructor (defaults: Config)
      ensures this.defaults == defaults && row.None?
    {
      this.defaults := defaults;
      row := None;
    }

    method GetSettings() returns (c: Config)
      ensures c == Effective(defaults, row)
    {
      if row.None? || row.value.fields == map[] {
        c := defaults;
        MergeEmpty(defaults);
        assert row.Some? ==> row.value == Obj(map[]);
      } else {
        c := DeepMerge(defaults, row.value);
      }
    }

    /** Only the overrides are stored; the full configuration is returned. */
    method UpdateSettings(patch: Config) returns (c: Config)
      modifies this`row
      ensures row == Some(Overridden(old(row), patch))
      ensures c == Effective(defaults, row)
    {
      var existing: Config := if row.Some? && row.value.fields != map[] then row.value else Obj(map[]);
      var overrides := DeepMerge(existing, patch);
      assert row.Some? && row.value.fields == map[] ==> row.value == Obj(map[]);
      row := Some(overrides);
      c := DeepMerge(defaults, overrides);
    }
  }

  lemma {:induction false} MergeEmpty(a: Config)
    ensures Merge(a, Obj(map[])) == a
  {
    assert Merge(a, Obj(map[])).fields == a.fields;
  }

  // ----- storing deltas refines patching the whole -----

  /** The overrides after a sequence of updates. */
  function Stored(overrides: Config, patches: seq<Config>): Config {
    if patches == [] then overrides
    else Merge(Stored(overrides, patches[..|patches| - 1]), patches[|patches| - 1])
  }

  /** An update patches the configuration in effect exactly when defaults, overrides and patch associate. */
  lemma {:induction false} UpdateExact(defaults: Config, overrides: Config, patch: Config)
    ensures Merge(defaults, Merge(overrides, patch)) == Merge(Merge(defaults, overrides), patch)
            <==> Associates(defaults, overrides, patch)
  {
    AssociatesObj(defaults, overrides, patch);
  }

  /** The settings after the first `k` updates are those patches applied in turn to the full settings. */
  predicate InStep(defaults: Config, overrides: Config, patches: seq<Config>, k: nat)
    requires k <= |patches|
  {
    Merge(defaults, Stored(overrides, patches[..k])) == Stored(Merge(defaults, overrides), patches[..k])
  }

  lemma {:induction false} StoredNext(x: Config, patches: seq<Config>, k: nat)
    requires k < |patches|
    ensures Stored(x, patches[..k + 1]) == Merge(Stored(x, patches[..k]), patches[k])
  {
    assert patches[..k + 1][..k] == patches[..k];
  }

  /** In step so far, the next update stays in step exactly when it associates with what is stored. */
  lemma {:induction false} NextInStep(defaults: Config, overrides: Config, patches: seq<Config>, k: nat)
    requires k < |patches| && InStep(defaults, overrides, patches, k)
    ensures InStep(defaults, overrides, patches, k + 1)
            <==> Associates(defaults, Stored(overrides, patches[..k]), patches[k])
  {
    StoredNext(overrides, patches, k);
    StoredNext(Merge(defaults, overrides), patches, k);
    UpdateExact(defaults, Stored(overrides, patches[..k]), patches[k]);
  }

  lemma {:induction false} AssociatingInStep(defaults: Config, overrides: Config, patches: seq<Config>, k: nat)
    requires k <= |patches|
    requires forall i | 0 <= i < k :: Associates(defaults, Stored(overrides, patches[..i]), patches[i])
    ensures InStep(defaults, overrides, patches, k)
  {
    if k > 0 {
      AssociatingInStep(defaults, overrides, patches, k - 1);
      NextInStep(defaults, overrides, patches, k - 1);
    }
  }

  /**
   The settings are in step with full patching after every update exactly when each patch associates
   with the defaults and what is stored before it.
   */
  lemma {:induction false} UpdatesExact(defaults: Config, overrides: Config, patches: seq<Config>)
    ensures (forall k | 0 <= k <= |patches| :: InStep(defaults, overrides, patches, k))
            <==> forall k | 0 <= k < |patches| :: Associates(defaults, Stored(overrides, patches[..k]), patches[k])
  {
    if forall k | 0 <= k <= |patches| :: InStep(defaults, overrides, patches, k) {
      forall k | 0 <= k < |patches|
        ensures Associates(defaults, Stored(overrides, patches[..k]), patches[k])
      {
        assert InStep(defaults, overrides, patches, k) && InStep(defaults, overrides, patches, k + 1);
        NextInStep(defaults, overrides, patches, k);
      }
    }
    if forall k | 0 <= k < |patches| :: Associates(defaults, Stored(overrides, patches[..k]), patches[k]) {
      forall k | 0 <= k <= |patches| { AssociatingInStep(defaults, overrides, patches, k); }
    }
  }

  /** All of them agree in shape, two by two. */
  predicate AllAgree(defaults: Config, overrides: Config, patches: seq<Config>) {
    Agree(defaults, overrides) && (forall p | p in patches :: Agree(defaults, p)) && PatchesAgree(overrides, patches)
  }

  /** The patches agree among themselves and with the overrides they go onto. */
  predicate PatchesAgree(overrides: Config, patches: seq<Config>) {
    && (forall p | p in patches :: Agree(overrides, p))
    && forall i, j | 0 <= i < j < |patches| :: Agree(patches[i], patches[j])
  }

  lemma {:induction false} FewerAgree(overrides: Config, patches: seq<Config>, k: nat)
    requires PatchesAgree(overrides, patches) && k <= |patches|
    ensures PatchesAgree(overrides, patches[..k])
  {
    assert forall p | p in patches[..k] :: p in patches;
  }

  lemma {:induction false} StoredAgrees(x: Config, overrides: Config, patches: seq<Config>)
    requires Agree(x, overrides) && (forall p | p in patches :: Agree(x, p)) && PatchesAgree(overrides, patches)
    ensures Agree(x, Stored(overrides, patches))
    decreases |patches|, 1
  {
    if patches != [] {
      var k := |patches| - 1;
      assert patches[k] in patches && forall p | p in patches[..k] :: p in patches;
      FewerAgree(overrides, patches, k);
      StoredAgrees(x, overrides, patches[..k]);
      LastAgrees(overrides, patches);
      AgreeMerged(x, Stored(overrides, patches[..k]), patches[k]);
    }
  }

  /** What is stored before the last patch agrees with that patch. */
  lemma {:induction false} LastAgrees(overrides: Config, patches: seq<Config>)
    requires patches != [] && PatchesAgree(overrides, patches)
    ensures Agree(Stored(overrides, patches[..|patches| - 1]), patches[|patches| - 1])
    decreases |patches|, 0
  {
    var k := |patches| - 1;
    var last := patches[k];
    assert last in patches;
    FewerAgree(overrides, patches, k);
    forall p | p in patches[..k] ensures Agree(last, p) {
      var i :| 0 <= i < k && patches[i] == p;
      AgreeSymmetric(patches[i], last);
    }
    AgreeSymmetric(overrides, last);
    StoredAgrees(last, overrides, patches[..k]);
    AgreeSymmetric(last, Stored(overrides, patches[..k]));
  }

  /** When all shapes agree, storing overrides comes to applying the patches in turn to the full configuration. */
  lemma {:induction false} DeltasRefinePatching(defaults: Config, overrides: Config, patches: seq<Config>)
    requires AllAgree(defaults, overrides, patches)
    ensures Merge(defaults, Stored(overrides, patches)) == Stored(Merge(defaults, overrides), patches)
  {
    if patches != [] {
      var k := |patches| - 1;
      assert forall p | p in patches[..k] :: p in patches;
      FewerAgree(overrides, patches, k);
      DeltasRefinePatching(defaults, overrides, patches[..k]);
      StoredAgrees(defaults, overrides, patches[..k]);
      LastAgrees(overrides, patches);
      AgreeingUpdate(defaults, Stored(overrides, patches[..k]), patches[k]);
    }
  }

  lemma {:induction false} AgreeingUpdate(defaults: Config, overrides: Config, patch: Config)
    requires Agree(defaults, overrides) && Agree(overrides, patch)
    ensures Merge(defaults, Merge(overrides, patch)) == Merge(Merge(defaults, overrides), patch)
  {
    AgreeingAssociate(defaults, overrides, patch);
    UpdateExact(defaults, overrides, patch);
  }

  /** A leaf stored over a default dictionary is forgotten by the next dictionary patched in. */
  lemma {:induction false} LeafBetweenDictionaries(one: Json, two: Json)
    ensures var defaults, overrides, patch := Obj(map["x" := Obj(map["y" := one])]), Obj(map["x" := Leaf("")]),
            Obj(map["x" := Obj(map["z" := two])]);
            Merge(defaults, Merge(overrides, patch)) != Merge(Merge(defaults, overrides), patch)
  {
    var inner, outer := Obj(map["y" := one]), Obj(map["z" := two]);
    var defaults, overrides, patch := Obj(map["x" := inner]), Obj(map["x" := Leaf("")]), Obj(map["x" := outer]);
    assert "y" in inner.fields && "y" !in outer.fields;
    assert !Absorbs(outer, inner);
    assert !Associates(inner, Leaf(""), outer);
    assert "x" in defaults.fields && "x" in overrides.fields && "x" in patch.fields;
    UpdateExact(defaults, overrides, patch);
  }
}
