/** What one override, and a list of them, does to the value at any path of the program's table. */
module OverrideEffects {
  import opened Wrappers
  import opened TomlLiterals
  import opened ConfigOverrides

  /** The value found by following the segments, if there is one. */
  function Lookup(t: Toml, path: Segments): Option<Toml> {
    if path == [] then Some(t)
    else if t.Table? && path[0] in t.entries then Lookup(t.entries[path[0]], path[1..])
    else None
  }

  lemma {:induction false} LookupAppend(t: Toml, a: Segments, b: Segments)
    ensures Lookup(t, a + b) == if Lookup(t, a).Some? then Lookup(Lookup(t, a).value, b) else None
    decreases |a|
  {
    if a == [] {
      assert a + b == b;
    } else {
      assert (a + b)[1..] == a[1..] + b;
      if t.Table? && a[0] in t.entries {
        LookupAppend(t.entries[a[0]], a[1..], b);
      }
    }
  }

  // ---- the path itself --------------------------------------------------------

  /** An override of a path that is no structured feature replaces whatever was there. */
  lemma {:induction false} PathSet(t: Toml, traversed: Segments, segs: Segments, v: Toml, merge: Merge)
    requires segs != [] && !IsStructuredFeaturePath(traversed + segs)
    ensures Lookup(Apply(t, traversed, segs, v, merge), segs) == Some(v)
    decreases |segs|
  {
    hide IsStructuredFeaturePath;
    if |segs| == 1 {
      assert segs == [segs[0]];
    } else {
      var key, here := segs[0], traversed + [segs[0]];
      assert here + segs[1..] == traversed + segs;
      var table := if t.Table? then t.entries else map[];
      var found := if key in table then table[key] else Table(map[]);
      var child := if IsStructuredFeaturePath(here) && found.Boolean? then EnabledTable(found) else found;
      PathSet(child, here, segs[1..], v, merge);
    }
  }

  /** What an override of a structured feature leaves, given what was there. */
  ghost predicate FeatureStored(was: Option<Toml>, v: Toml, merge: Merge, now: Toml) {
    && (was.Some? && was.value.Table? && v.Boolean? ==>
          && now.Table? && now.entries.Keys == was.value.entries.Keys + {"enabled"} && now.entries["enabled"] == v
          && forall k | k in was.value.entries && k != "enabled" :: now.entries[k] == was.value.entries[k])
    && (was.Some? && was.value.Boolean? && v.Table? ==> now == merge(Table(map["enabled" := was.value]), v))
    && (was.Some? && was.value.Table? && v.Table? ==> now == merge(was.value, v))
    && (was.None? || !((was.value.Table? && (v.Boolean? || v.Table?)) || (was.value.Boolean? && v.Table?)) ==> now == v)
  }

  /** The structured features, of the whole configuration or of one profile. */
  lemma FeaturePathMeans(path: Segments)
    ensures IsStructuredFeaturePath(path) <==>
              exists feature | feature in ["multi_agent_v2", "network_proxy", "sleep_tool"] ::
                path == ["features", feature] || exists profile :: path == ["profiles", profile, "features", feature]
  {
    if |path| == 2 {
      assert path == [path[0], path[1]];
    } else if |path| == 4 {
      assert path == [path[0], path[1], path[2], path[3]];
    }
  }

  lemma NoFeatureInside(path: Segments, k: nat)
    requires IsStructuredFeaturePath(path) && k < |path|
    ensures !IsStructuredFeaturePath(path[..k])
  {
  }

  /** A boolean for a configured feature sets only `enabled`; tables are merged, also into a lone boolean. */
  lemma {:induction false} FeatureSet(t: Toml, traversed: Segments, segs: Segments, v: Toml, merge: Merge)
    requires segs != [] && IsStructuredFeaturePath(traversed + segs)
    ensures Lookup(Apply(t, traversed, segs, v, merge), segs).Some?
    ensures FeatureStored(Lookup(t, segs), v, merge, Lookup(Apply(t, traversed, segs, v, merge), segs).value)
    decreases |segs|
  {
    var key, here := segs[0], traversed + [segs[0]];
    var table := if t.Table? then t.entries else map[];
    if |segs| == 1 {
      assert segs == [key];
      FeatureStoredOnce(t, table, key, v, merge);
      assert Apply(t, traversed, segs, v, merge) == Table(Store(table, key, v, true, merge)) by { hide IsStructuredFeaturePath; }
    } else {
      NoFeatureInside(traversed + segs, |here|);
      assert (traversed + segs)[..|here|] == here && here + segs[1..] == traversed + segs;
      hide IsStructuredFeaturePath, FeatureStored;
      FeatureSet(if key in table then table[key] else Table(map[]), here, segs[1..], v, merge);
    }
  }

  lemma FeatureStoredOnce(t: Toml, table: map<string, Toml>, key: string, v: Toml, merge: Merge)
    requires table == if t.Table? then t.entries else map[]
    ensures Lookup(Table(Store(table, key, v, true, merge)), [key]).Some?
    ensures FeatureStored(Lookup(t, [key]), v, merge, Lookup(Table(Store(table, key, v, true, merge)), [key]).value)
  {
    assert [key][1..] == [];
    assert Lookup(t, [key]) == if key in table then Some(table[key]) else None;
  }

  // ---- every other path -------------------------------------------------------

  predicate Apart(a: Segments, b: Segments) {
    !(a <= b) && !(b <= a)
  }

  /** The path leads through a structured feature that is a lone boolean; that becomes its `enabled`. */
  predicate Converts(t: Toml, traversed: Segments, segs: Segments, k: nat) {
    && 0 < k < |segs| && IsStructuredFeaturePath(traversed + segs[..k])
    && Lookup(t, segs[..k]).Some? && Lookup(t, segs[..k]).value.Boolean?
  }

  ghost predicate Untouched(t: Toml, traversed: Segments, segs: Segments, q: Segments) {
    forall k: nat | Converts(t, traversed, segs, k) :: q != segs[..k] + ["enabled"]
  }

  /** The value next on a path, or an empty table. */
  function Child(t: Toml, key: string): Toml {
    if t.Table? && key in t.entries then t.entries[key] else Table(map[])
  }

  /** The boolean that such a conversion puts at a path. */
  function Conversion(t: Toml, traversed: Segments, segs: Segments, q: Segments): Option<Toml>
    decreases |segs|
  {
    if |segs| <= 1 || |q| <= 1 || q[0] != segs[0] then None
    else
      var here, found := traversed + [segs[0]], Child(t, segs[0]);
      if IsStructuredFeaturePath(here) && found.Boolean? then if q[1..] == ["enabled"] then Some(found) else None
      else Conversion(found, here, segs[1..], q[1..])
  }

  predicate BelowFeature(path: Segments) {
    exists k :: 0 <= k <= |path| && IsStructuredFeaturePath(path[..k])
  }

  lemma StillBelow(path: Segments, key: string)
    requires BelowFeature(path)
    ensures BelowFeature(path + [key]) && !IsStructuredFeaturePath(path + [key])
  {
    hide IsStructuredFeaturePath;
    var k :| 0 <= k <= |path| && IsStructuredFeaturePath(path[..k]);
    assert (path + [key])[..k] == path[..k];
    if IsStructuredFeaturePath(path + [key]) {
      NoFeatureInside(path + [key], k);
    }
  }

  lemma {:induction false} NoConversionBelow(t: Toml, traversed: Segments, segs: Segments, q: Segments)
    requires BelowFeature(traversed)
    ensures Conversion(t, traversed, segs, q).None?
    decreases |segs|
  {
    hide IsStructuredFeaturePath, BelowFeature;
    if |segs| > 1 && |q| > 1 && q[0] == segs[0] {
      StillBelow(traversed, segs[0]);
      NoConversionBelow(Child(t, segs[0]), traversed + [segs[0]], segs[1..], q[1..]);
    }
  }

  lemma ApplyStep(t: Toml, traversed: Segments, segs: Segments, v: Toml, merge: Merge)
    requires |segs| > 1
    ensures var here, found := traversed + [segs[0]], Child(t, segs[0]);
            var child := if IsStructuredFeaturePath(here) && found.Boolean? then EnabledTable(found) else found;
            Apply(t, traversed, segs, v, merge)
            == Table((if t.Table? then t.entries else map[])[segs[0] := Apply(child, here, segs[1..], v, merge)])
  {
    hide IsStructuredFeaturePath;
  }

  lemma OtherKey(t: Toml, traversed: Segments, segs: Segments, v: Toml, merge: Merge, q: Segments)
    requires segs != [] && q != [] && q[0] != segs[0]
    ensures Lookup(Apply(t, traversed, segs, v, merge), q) == Lookup(t, q)
  {
    hide IsStructuredFeaturePath;
  }

  lemma LookupChild(t: Toml, q: Segments)
    requires |q| > 1
    ensures Lookup(t, q) == Lookup(Child(t, q[0]), q[1..])
  {
  }

  lemma EnabledLookup(found: Toml, q: Segments)
    requires q != [] && found.Boolean?
    ensures Lookup(EnabledTable(found), q) == if q == ["enabled"] then Some(found) else None
    ensures Lookup(found, q) == None
  {
    assert q[0] == "enabled" && q[1..] == [] ==> q == ["enabled"];
  }

  lemma {:induction false} OthersFound(t: Toml, traversed: Segments, segs: Segments, v: Toml, merge: Merge, q: Segments)
    requires segs != [] && Apart(segs, q)
    ensures Lookup(Apply(t, traversed, segs, v, merge), q)
         == if Conversion(t, traversed, segs, q).Some? then Conversion(t, traversed, segs, q) else Lookup(t, q)
    ensures Conversion(t, traversed, segs, q).Some? ==> Lookup(t, q) == None
    decreases |segs|
  {
    hide IsStructuredFeaturePath, BelowFeature;
    if q[0] != segs[0] {
      OtherKey(t, traversed, segs, v, merge, q);
    } else {
      assert |segs| > 1 && |q| > 1 && Apart(segs[1..], q[1..]) by { ApartBelow(segs, q); }
      var here, found := traversed + [segs[0]], Child(t, segs[0]);
      ApplyStep(t, traversed, segs, v, merge);
      LookupChild(t, q);
      if IsStructuredFeaturePath(here) && found.Boolean? {
        assert here[..|here|] == here && BelowFeature(here) by { FeatureIsBelow(here); }
        OthersFound(EnabledTable(found), here, segs[1..], v, merge, q[1..]);
        NoConversionBelow(EnabledTable(found), here, segs[1..], q[1..]);
        EnabledLookup(found, q[1..]);
      } else {
        OthersFound(found, here, segs[1..], v, merge, q[1..]);
      }
    }
  }

  lemma FeatureIsBelow(path: Segments)
    requires IsStructuredFeaturePath(path)
    ensures BelowFeature(path)
  {
    hide IsStructuredFeaturePath;
    assert path[..|path|] == path;
  }

  lemma ApartBelow(a: Segments, b: Segments)
    requires a != [] && Apart(a, b) && b != [] && a[0] == b[0]
    ensures |a| > 1 && |b| > 1 && Apart(a[1..], b[1..])
  {
    assert a == [a[0]] + a[1..] && b == [b[0]] + b[1..];
  }

  lemma {:induction false} ConversionMeans(t: Toml, traversed: Segments, segs: Segments, q: Segments)
    ensures Conversion(t, traversed, segs, q).Some? <==> !Untouched(t, traversed, segs, q)
    ensures forall k: nat | Converts(t, traversed, segs, k) && q == segs[..k] + ["enabled"] ::
              Conversion(t, traversed, segs, q) == Lookup(t, segs[..k])
    decreases |segs|
  {
    hide IsStructuredFeaturePath;
    forall k: nat | Converts(t, traversed, segs, k) && q == segs[..k] + ["enabled"]
      ensures Conversion(t, traversed, segs, q) == Lookup(t, segs[..k])
    {
      ConversionFound(t, traversed, segs, q, k);
    }
    if Conversion(t, traversed, segs, q).Some? {
      var k := ConversionPlace(t, traversed, segs, q);
    }
  }

  lemma {:induction false} ConversionFound(t: Toml, traversed: Segments, segs: Segments, q: Segments, k: nat)
    requires Converts(t, traversed, segs, k) && q == segs[..k] + ["enabled"]
    ensures Conversion(t, traversed, segs, q) == Lookup(t, segs[..k])
    decreases |segs|
  {
    hide IsStructuredFeaturePath;
    var here, found := traversed + [segs[0]], Child(t, segs[0]);
    if k == 1 {
      assert segs[..1] == [segs[0]] && q[1..] == ["enabled"];
    } else {
      assert segs[..k][1..] == segs[1..][..k - 1] && here + segs[1..][..k - 1] == traversed + segs[..k];
      assert q[1..] == segs[1..][..k - 1] + ["enabled"];
      assert (traversed + segs[..k])[..|here|] == here;
      NoFeatureInside(traversed + segs[..k], |here|);
      LookupChild(t, segs[..k]);
      ConversionFound(found, here, segs[1..], q[1..], k - 1);
    }
  }

  lemma {:induction false} ConversionPlace(t: Toml, traversed: Segments, segs: Segments, q: Segments) returns (k: nat)
    requires Conversion(t, traversed, segs, q).Some?
    ensures Converts(t, traversed, segs, k) && q == segs[..k] + ["enabled"]
    decreases |segs|
  {
    hide IsStructuredFeaturePath;
    var here, found := traversed + [segs[0]], Child(t, segs[0]);
    assert q == [q[0]] + q[1..];
    if IsStructuredFeaturePath(here) && found.Boolean? {
      assert segs[..1] == [segs[0]];
      assert Lookup(t, [segs[0]]) == Some(found) by { assert [segs[0]][1..] == []; }
      k := 1;
    } else {
      k := ConversionPlace(found, here, segs[1..], q[1..]);
      k := k + 1;
      assert segs[..k][1..] == segs[1..][..k - 1] && here + segs[1..][..k - 1] == traversed + segs[..k];
      assert segs[..k] == [segs[0]] + segs[1..][..k - 1];
      LookupChild(t, segs[..k]);
    }
  }

  /**
   * A path that neither leads to the override's nor goes on from it keeps its value, exactly
   * unless it is the `enabled` of a lone boolean that the override leads through.
   */
  lemma OthersKept(t: Toml, traversed: Segments, segs: Segments, v: Toml, merge: Merge, q: Segments)
    requires segs != [] && Apart(segs, q)
    ensures Lookup(Apply(t, traversed, segs, v, merge), q) == Lookup(t, q) <==> Untouched(t, traversed, segs, q)
    ensures forall k: nat | Converts(t, traversed, segs, k) && q == segs[..k] + ["enabled"] ::
              Lookup(Apply(t, traversed, segs, v, merge), q) == Lookup(t, segs[..k])
  {
    hide Untouched, Conversion, Lookup, Apply, IsStructuredFeaturePath;
    OthersFound(t, traversed, segs, v, merge, q);
    ConversionMeans(t, traversed, segs, q);
  }

  // ---- many overrides ---------------------------------------------------------

  /** What is set stays set while overrides go elsewhere. */
  lemma {:induction false} SetStays(t: Toml, located: seq<Located>, merge: Merge, q: Segments)
    requires Rooted(located) && Lookup(t, q).Some? && forall i | 0 <= i < |located| :: Apart(located[i].0, q)
    ensures Lookup(ApplyAll(t, [], located, merge), q) == Lookup(t, q)
    decreases |located|
  {
    hide Apply, Lookup, Conversion, Apart;
    if located != [] {
      OthersFound(t, [], located[0].0, located[0].1, merge, q);
      SetStays(Apply(t, [], located[0].0, located[0].1, merge), located[1..], merge, q);
    }
  }

  /** The override at this place is the last one that says anything about its path. */
  predicate IsLast(located: seq<Located>, j: nat) {
    j < |located| && forall i | j < i < |located| :: Apart(located[i].0, located[j].0)
  }

  /** The last override of a path wins, whatever came before it. */
  lemma LastWins(t: Toml, located: seq<Located>, merge: Merge, j: nat)
    requires Rooted(located) && IsLast(located, j) && !IsStructuredFeaturePath(located[j].0)
    ensures Lookup(ApplyAll(t, [], located, merge), located[j].0) == Some(located[j].1)
  {
    hide Apply, Lookup, Apart, IsStructuredFeaturePath, ApplyAll;
    var front, back, path := located[..j], located[j..], located[j].0;
    assert located == front + back && back[1..] == located[j + 1..];
    ApplyAllAppend(t, [], front, back, merge);
    var before := ApplyAll(t, [], front, merge);
    assert [] + path == path;
    PathSet(before, [], path, located[j].1, merge);
    ApplyAllStep(before, back, merge);
    SetStays(Apply(before, [], path, located[j].1, merge), back[1..], merge, path);
  }

  lemma ApplyAllStep(t: Toml, located: seq<Located>, merge: Merge)
    requires located != [] && Rooted(located)
    ensures ApplyAll(t, [], located, merge)
         == ApplyAll(Apply(t, [], located[0].0, located[0].1, merge), [], located[1..], merge)
  {
    hide Apply;
  }

  /** `apply_toml_override` called once per parsed override, on a growing root. */
  method BuildCliOverridesLayer(overrides: seq<string>, merge: Merge) returns (r: Result<Toml, OverrideError>)
    ensures r == BuildLayer(overrides, merge)
    ensures r.Ok? ==>
              var located := ReceiveAll(overrides).value;
              forall j: nat | IsLast(located, j) && !IsStructuredFeaturePath(located[j].0) ::
                Lookup(r.value, located[j].0) == Some(located[j].1)
  {
    hide Receive, Apply, Lookup, Apart, IsStructuredFeaturePath;
    var located := ReceiveAll(overrides);
    if located.Err? {
      return Err(located.error);
    }
    var root := Table(map[]);
    for i := 0 to |located.value|
      invariant Rooted(located.value[i..])
      invariant ApplyAll(Table(map[]), [], located.value, merge)
             == ApplyAll(root, [], located.value[i..], merge)
    {
      root := Apply(root, [], located.value[i].0, located.value[i].1, merge);
      assert located.value[i..][1..] == located.value[i + 1..];
    }
    forall j: nat | IsLast(located.value, j) && !IsStructuredFeaturePath(located.value[j].0)
      ensures Lookup(root, located.value[j].0) == Some(located.value[j].1)
    {
      LastWins(Table(map[]), located.value, merge, j);
    }
    return Ok(root);
  }
}
