/** Merging of layered configuration mappings (core/settings.py). */
module SettingsLayers {
  import opened Wrappers
  import Ordering

  /** A configuration value: a scalar of any kind, or a mapping. */
  datatype Value = Leaf(scalar: string) | Table(entries: map<string, Value>)

  type Path = seq<string>

  /** What a configuration holds at a path. */
  datatype Kind = Absent | Scalar(scalar: string) | Mapping

  function KindAt(v: Value, path: Path): Kind
    decreases path
  {
    match v
    case Leaf(scalar) => if path == [] then Scalar(scalar) else Absent
    case Table(entries) =>
      if path == [] then Mapping
      else if path[0] in entries then KindAt(entries[path[0]], path[1..])
      else Absent
  }

  /** Some shared key holds a mapping on one side and a scalar on the other, at any depth. */
  ghost predicate Conflict(base: Value, over: Value)
    requires base.Table? && over.Table?
    decreases base
  {
    exists key :: key in base.entries && key in over.entries && EntryConflict(base, over, key)
  }

  ghost predicate EntryConflict(base: Value, over: Value, key: string)
    requires base.Table? && over.Table? && key in base.entries && key in over.entries
    decreases base, 0
  {
    var b, o := base.entries[key], over.entries[key];
    b.Table? != o.Table? || (b.Table? && o.Table? && Conflict(b, o))
  }

  /** The merged mapping, meaningful when nothing conflicts. */
  function Merged(base: Value, over: Value): (r: Value)
    requires base.Table? && over.Table?
    ensures r.Table? && r.entries.Keys == base.entries.Keys + over.entries.Keys
    decreases base
  {
    Table(map key | key in base.entries.Keys + over.entries.Keys :: MergedEntry(base, over, key))
  }

  function MergedEntry(base: Value, over: Value, key: string): Value
    requires base.Table? && over.Table? && key in base.entries.Keys + over.entries.Keys
    decreases base, 0
  {
    if key !in over.entries then base.entries[key]
    else if key in base.entries && base.entries[key].Table? && over.entries[key].Table? then
      Merged(base.entries[key], over.entries[key])
    else over.entries[key]
  }

  /** deep_merge: None stands for the raised configuration error. */
  ghost function Merge(base: Value, over: Value): (r: Option<Value>)
    requires base.Table? && over.Table?
    ensures r.Some? ==> r.value.Table?
  {
    if Conflict(base, over) then None else Some(Merged(base, over))
  }

  function CopyValue(v: Value): (r: Value)
    ensures r == v
  {
    match v
    case Leaf(_) => v
    case Table(entries) =>
      var copied := map key | key in entries :: CopyValue(entries[key]);
      assert copied == entries;
      Table(copied)
  }

  method SortedKeys(keys: set<string>) returns (r: seq<string>)
    ensures Ordering.NoDuplicates(r) && forall k :: k in r <==> k in keys
    ensures Ordering.Sorted(r, Ordering.StrLe)
  {
    var rest, listed := keys, [];
    while rest != {}
      invariant Ordering.NoDuplicates(listed) && forall k :: k in listed <==> k in keys - rest
      invariant rest <= keys
      decreases rest
    {
      var k :| k in rest;
      assert forall x :: x in listed + [k] <==> x in listed || x == k;
      assert forall x :: x in keys - (rest - {k}) <==> x in keys - rest || x == k;
      listed, rest := listed + [k], rest - {k};
    }
    r := Ordering.SortBy(listed, Ordering.StrLe);
    Ordering.SameElements(r, listed);
    Ordering.SetSize(listed);
    Ordering.SetSize(r);
    assert (set k | k in r) == (set k | k in listed);
    Ordering.StrLeIsTotalPreorder();
    Ordering.SortBySorted(listed, Ordering.StrLe);
  }

  /** The local result once the keys in `done` have been processed. */
  ghost function PartlyMerged(base: Value, over: Value, done: set<string>): map<string, Value>
    requires base.Table? && over.Table? && done <= over.entries.Keys
  {
    map key | key in base.entries.Keys + done ::
      if key in done then MergedEntry(base, over, key) else base.entries[key]
  }

  lemma ProcessKey(base: Value, over: Value, done: set<string>, key: string)
    requires base.Table? && over.Table? && done + {key} <= over.entries.Keys
    ensures PartlyMerged(base, over, done + {key}) ==
            PartlyMerged(base, over, done)[key := MergedEntry(base, over, key)]
  {
  }

  lemma AllProcessed(base: Value, over: Value)
    requires base.Table? && over.Table?
    ensures Table(PartlyMerged(base, over, over.entries.Keys)) == Merged(base, over)
    ensures PartlyMerged(base, over, {}) == base.entries
  {
    assert PartlyMerged(base, over, over.entries.Keys) == Merged(base, over).entries;
  }

  method DeepMerge(base: Value, over: Value) returns (r: Option<Value>)
    requires base.Table? && over.Table?
    ensures r == Merge(base, over)
    decreases base
  {
    hide Merged, PartlyMerged, Ordering.Sorted;
    var result := base.entries;
    var keys := SortedKeys(over.entries.Keys);
    ghost var done: set<string> := {};
    AllProcessed(base, over);
    for i := 0 to |keys|
      invariant done == set k | k in keys[..i]
      invariant done <= over.entries.Keys
      invariant result == PartlyMerged(base, over, done)
      invariant forall k :: k in done && k in base.entries ==> !EntryConflict(base, over, k)
    {
      var key := keys[i];
      assert key in keys && keys[..i + 1] == keys[..i] + [key] && key !in keys[..i];
      PartlyMergedAt(base, over, done, key);
      ProcessKey(base, over, done, key);
      done := done + {key};
      var overrideValue := over.entries[key];
      if key !in result {
        result := result[key := CopyValue(overrideValue)];
      } else {
        var baseValue := result[key];
        if baseValue.Table? && overrideValue.Table? {
          var nested := DeepMerge(baseValue, overrideValue);
          if nested.None? {
            assert EntryConflict(base, over, key);
            return None;
          }
          result := result[key := nested.value];
        } else if baseValue.Table? != overrideValue.Table? {
          assert EntryConflict(base, over, key);
          return None;
        } else {
          result := result[key := CopyValue(overrideValue)];
        }
      }
    }
    assert done == over.entries.Keys by {
      assert keys[..|keys|] == keys;
      assert forall k :: k in over.entries.Keys ==> k in keys;
    }
    return Some(Table(result));
  }

  lemma PartlyMergedAt(base: Value, over: Value, done: set<string>, key: string)
    requires base.Table? && over.Table? && done <= over.entries.Keys && key in over.entries && key !in done
    ensures key in PartlyMerged(base, over, done) <==> key in base.entries
    ensures key in base.entries ==> PartlyMerged(base, over, done)[key] == base.entries[key]
  {
  }

  /* ---------- Merging, path by path ---------- */

  /** Both define the path, one as a mapping and the other as a scalar. */
  ghost predicate Disagree(a: Value, b: Value, path: Path) {
    && KindAt(a, path) != Absent && KindAt(b, path) != Absent
    && (KindAt(a, path) == Mapping) != (KindAt(b, path) == Mapping)
  }

  ghost predicate Compatible(a: Value, b: Value) {
    forall path :: !Disagree(a, b, path)
  }

  lemma {:induction false} NestedKind(v: Value, key: string, path: Path)
    requires v.Table? && key in v.entries
    ensures KindAt(v, [key] + path) == KindAt(v.entries[key], path)
  {
    assert ([key] + path)[1..] == path;
  }

  lemma {:induction false} ConflictOnPath(a: Value, b: Value) returns (path: Path)
    requires a.Table? && b.Table? && Conflict(a, b)
    ensures Disagree(a, b, path)
    decreases a
  {
    var key :| key in a.entries && key in b.entries && EntryConflict(a, b, key);
    var rest: Path := [];
    if a.entries[key].Table? == b.entries[key].Table? {
      rest := ConflictOnPath(a.entries[key], b.entries[key]);
    }
    NestedKind(a, key, rest);
    NestedKind(b, key, rest);
    path := [key] + rest;
  }

  lemma {:induction false} PathShowsConflict(a: Value, b: Value, path: Path)
    requires a.Table? && b.Table?
    requires Disagree(a, b, path)
    ensures Conflict(a, b)
    decreases path
  {
    var key := path[0];
    assert KindAt(a, path) == KindAt(a.entries[key], path[1..]);
    assert KindAt(b, path) == KindAt(b.entries[key], path[1..]);
    if a.entries[key].Table? && b.entries[key].Table? {
      PathShowsConflict(a.entries[key], b.entries[key], path[1..]);
    }
    assert EntryConflict(a, b, key);
  }

  /** Merging fails exactly when the two layers disagree on whether some path is a mapping. */
  lemma MergeFailsExactlyOnDisagreement(a: Value, b: Value)
    requires a.Table? && b.Table?
    ensures Merge(a, b).None? <==> !Compatible(a, b)
  {
    if Conflict(a, b) {
      var path := ConflictOnPath(a, b);
    } else {
      forall path ensures !Disagree(a, b, path) {
        if Disagree(a, b, path) { PathShowsConflict(a, b, path); }
      }
    }
  }

  /** Every path of a merge holds what the overriding layer defines there, else what the base does. */
  lemma {:induction false} MergedKind(a: Value, b: Value, path: Path)
    requires a.Table? && b.Table? && !Conflict(a, b)
    ensures KindAt(Merged(a, b), path) == if KindAt(b, path) != Absent then KindAt(b, path) else KindAt(a, path)
    decreases path
  {
    if path != [] {
      var key := path[0];
      if key in a.entries && key in b.entries {
        assert !EntryConflict(a, b, key);
        if a.entries[key].Table? {
          MergedKind(a.entries[key], b.entries[key], path[1..]);
        }
      }
    }
  }

  /** A configuration is determined by what it holds at each path. */
  lemma {:induction false} SameKindsSameValue(a: Value, b: Value)
    requires forall path :: KindAt(a, path) == KindAt(b, path)
    ensures a == b
    decreases a
  {
    assert KindAt(a, []) == KindAt(b, []);
    if a.Table? {
      forall key ensures key in a.entries <==> key in b.entries {
        assert KindAt(a, [key]) == KindAt(b, [key]);
        if key in a.entries { NestedKind(a, key, []); assert [key] + [] == [key]; }
        if key in b.entries { NestedKind(b, key, []); assert [key] + [] == [key]; }
      }
      forall key | key in a.entries ensures a.entries[key] == b.entries[key] {
        forall path ensures KindAt(a.entries[key], path) == KindAt(b.entries[key], path) {
          NestedKind(a, key, path);
          NestedKind(b, key, path);
          assert KindAt(a, [key] + path) == KindAt(b, [key] + path);
        }
        SameKindsSameValue(a.entries[key], b.entries[key]);
      }
      assert a.entries == b.entries;
    }
  }

  lemma MergedCompatible(a: Value, b: Value, c: Value)
    requires a.Table? && b.Table? && c.Table? && Compatible(a, b)
    ensures Compatible(Merged(a, b), c) <==> Compatible(a, c) && Compatible(b, c)
  {
    MergeFailsExactlyOnDisagreement(a, b);
    forall path ensures Disagree(Merged(a, b), c, path) <==> Disagree(a, c, path) || Disagree(b, c, path) {
      MergedKind(a, b, path);
      assert !Disagree(a, b, path);
    }
  }

  lemma CompatibleSymmetric(a: Value, b: Value)
    ensures Compatible(a, b) <==> Compatible(b, a)
  {
    forall path ensures Disagree(a, b, path) <==> Disagree(b, a, path) { }
  }

  ghost function ThenMerge(first: Option<Value>, over: Value): Option<Value>
    requires first.Some? ==> first.value.Table?
    requires over.Table?
  {
    if first.None? then None else Merge(first.value, over)
  }

  ghost function MergeOnto(base: Value, second: Option<Value>): Option<Value>
    requires base.Table?
    requires second.Some? ==> second.value.Table?
  {
    if second.None? then None else Merge(base, second.value)
  }

  /** Merging is associative, failures included. */
  lemma MergeAssociative(a: Value, b: Value, c: Value)
    requires a.Table? && b.Table? && c.Table?
    ensures ThenMerge(Merge(a, b), c) == MergeOnto(a, Merge(b, c))
  {
    hide Compatible, Conflict, Merged;
    MergeFailsExactlyOnDisagreement(a, b);
    MergeFailsExactlyOnDisagreement(b, c);
    if Compatible(a, b) {
      MergedCompatible(a, b, c);
      MergeFailsExactlyOnDisagreement(Merged(a, b), c);
    }
    if Compatible(b, c) {
      CompatibleSymmetric(Merged(b, c), a);
      MergedCompatible(b, c, a);
      CompatibleSymmetric(a, b);
      CompatibleSymmetric(a, c);
      MergeFailsExactlyOnDisagreement(a, Merged(b, c));
    }
    if Compatible(a, b) && Compatible(b, c) && Compatible(a, c) {
      var left, right := Merged(Merged(a, b), c), Merged(a, Merged(b, c));
      forall path ensures KindAt(left, path) == KindAt(right, path) {
        MergedKind(a, b, path);
        MergedKind(b, c, path);
        MergedKind(Merged(a, b), c, path);
        MergedKind(a, Merged(b, c), path);
      }
      SameKindsSameValue(left, right);
    }
  }

  /** The empty mapping is a two-sided identity. */
  lemma MergeIdentity(v: Value)
    requires v.Table?
    ensures Merge(Table(map[]), v) == Some(v) && Merge(v, Table(map[])) == Some(v)
  {
    assert Merged(Table(map[]), v).entries == v.entries;
    assert Merged(v, Table(map[])).entries == v.entries;
  }

  /* ---------- The layer fold ---------- */

  /** Later layers override earlier ones. */
  ghost function FoldLayers(layers: seq<Value>): (r: Option<Value>)
    requires layers != [] && forall l :: l in layers ==> l.Table?
    ensures r.Some? ==> r.value.Table?
  {
    if |layers| == 1 then assert layers[0] in layers; Some(layers[0])
    else
      assert layers[|layers| - 1] in layers;
      ThenMerge(FoldLayers(layers[..|layers| - 1]), layers[|layers| - 1])
  }

  /** The layers of load_settings, lowest precedence first. */
  method LoadLayers(defaults: Value, toml: Value, dotenv: Value, environment: Value, explicit: Value)
    returns (r: Option<Value>)
    requires defaults.Table? && toml.Table? && dotenv.Table? && environment.Table? && explicit.Table?
    ensures r == FoldLayers([defaults, toml, dotenv, environment, explicit])
  {
    hide Merge, FoldLayers;
    OneLayer(defaults);
    NextLayer([defaults], toml);
    NextLayer([defaults, toml], dotenv);
    NextLayer([defaults, toml, dotenv], environment);
    NextLayer([defaults, toml, dotenv, environment], explicit);
    assert [defaults] + [toml] == [defaults, toml];
    assert [defaults, toml] + [dotenv] == [defaults, toml, dotenv];
    assert [defaults, toml, dotenv] + [environment] == [defaults, toml, dotenv, environment];
    assert [defaults, toml, dotenv, environment] + [explicit] == [defaults, toml, dotenv, environment, explicit];
    r := DeepMerge(defaults, toml);
    if r.None? { return; }
    r := DeepMerge(r.value, dotenv);
    if r.None? { return; }
    r := DeepMerge(r.value, environment);
    if r.None? { return; }
    r := DeepMerge(r.value, explicit);
  }

  lemma OneLayer(layer: Value)
    requires layer.Table?
    ensures FoldLayers([layer]) == Some(layer)
  {
  }

  lemma NextLayer(layers: seq<Value>, layer: Value)
    requires layers != [] && (forall l :: l in layers ==> l.Table?) && layer.Table?
    ensures forall l :: l in layers + [layer] ==> l.Table?
    ensures FoldLayers(layers + [layer]) == ThenMerge(FoldLayers(layers), layer)
  {
    assert (layers + [layer])[..|layers|] == layers;
  }

  ghost predicate AllCompatible(layers: seq<Value>) {
    forall i, j :: 0 <= i < j < |layers| ==> Compatible(layers[i], layers[j])
  }

  /** The highest layer that defines the path, if any, decides. */
  ghost function Decided(layers: seq<Value>, path: Path): Kind {
    if layers == [] then Absent
    else
      var top := KindAt(layers[|layers| - 1], path);
      if top != Absent then top else Decided(layers[..|layers| - 1], path)
  }

  lemma {:induction false} FoldCompatible(layers: seq<Value>, c: Value)
    requires layers != [] && (forall l :: l in layers ==> l.Table?) && c.Table?
    ensures FoldLayers(layers).Some? <==> AllCompatible(layers)
    ensures AllCompatible(layers) ==>
              (Compatible(FoldLayers(layers).value, c) <==> forall i :: 0 <= i < |layers| ==> Compatible(layers[i], c))
  {
    hide Compatible;
    if |layers| > 1 {
      var front, last := layers[..|layers| - 1], layers[|layers| - 1];
      FoldCompatible(front, last);
      FoldCompatible(front, c);
      assert AllCompatible(layers) <==>
             AllCompatible(front) && forall i :: 0 <= i < |front| ==> Compatible(front[i], last) by {
        if AllCompatible(layers) {
          forall i | 0 <= i < |front| ensures Compatible(front[i], last) {
            assert Compatible(layers[i], layers[|layers| - 1]);
          }
        }
      }
      if AllCompatible(front) {
        MergeFailsExactlyOnDisagreement(FoldLayers(front).value, last);
        if Compatible(FoldLayers(front).value, last) {
          MergedCompatible(FoldLayers(front).value, last, c);
          assert (forall i :: 0 <= i < |layers| ==> Compatible(layers[i], c)) <==>
                 (forall i :: 0 <= i < |front| ==> Compatible(front[i], c)) && Compatible(last, c) by {
            if forall i :: 0 <= i < |layers| ==> Compatible(layers[i], c) {
              forall i | 0 <= i < |front| ensures Compatible(front[i], c) { assert Compatible(layers[i], c); }
            }
          }
        }
      }
    }
  }

  /** The layer fold fails exactly when two layers disagree on whether some path is a mapping. */
  lemma LayersFailExactlyOnDisagreement(layers: seq<Value>)
    requires layers != [] && forall l :: l in layers ==> l.Table?
    ensures FoldLayers(layers).None? <==>
            exists i, j, path :: 0 <= i < j < |layers| && Disagree(layers[i], layers[j], path)
  {
    hide Disagree;
    FoldCompatible(layers, layers[0]);
  }

  /** Otherwise every path holds the value of the highest layer defining it. */
  lemma {:induction false} HighestLayerWins(layers: seq<Value>, path: Path)
    requires layers != [] && (forall l :: l in layers ==> l.Table?) && FoldLayers(layers).Some?
    ensures KindAt(FoldLayers(layers).value, path) == Decided(layers, path)
  {
    if |layers| > 1 {
      var front := layers[..|layers| - 1];
      HighestLayerWins(front, path);
      MergedKind(FoldLayers(front).value, layers[|layers| - 1], path);
    } else {
      assert layers[..0] == [];
    }
  }
}
