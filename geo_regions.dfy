/**
 * The merge loop of `load_geojson` (lib/query/v1_0_0.py): every feature of a region file
 * gets a display name from the first name property with a value, its geometry is read as
 * a MultiPolygon, and its polygons are added to that name's MultiPolygon unless already
 * there. Reading and parsing the file are left out: the features are given as data.
 */
module GeoRegions {
  import opened Wrappers
  import opened QueryDsl
  import opened Strings

  /** A feature's `properties`: a value is a string, or `None` for a JSON null. */
  type Properties = map<string, Option<string>>

  /** A feature's geometry; the region files hold only Polygons and MultiPolygons. */
  datatype Geometry = PolygonGeometry(polygon: Polygon) | MultiPolygonGeometry(polygons: seq<Polygon>)

  datatype Feature = Feature(properties: Properties, geometry: Geometry)

  /** The only failure: a feature none of whose name keys has a value (`next` raises `StopIteration`). */
  datatype LoadError = NoName

  /** The region lookup: name to MultiPolygon. */
  type Lookup = map<string, seq<Polygon>>

  /** Whether `properties.get(key, None)` passes `filter(None, ...)`: present, not null, not empty. */
  predicate HasValue(properties: Properties, key: string)
  {
    key in properties && properties[key].Some? && properties[key].value != ""
  }

  /** The value of the first name key, in priority order, that has a value. */
  function FirstValue(properties: Properties, nameKeys: seq<string>): (v: Option<string>)
    ensures v.None? <==> forall i :: 0 <= i < |nameKeys| ==> !HasValue(properties, nameKeys[i])
    ensures v.Some? ==>
      exists i ::
        && 0 <= i < |nameKeys|
        && HasValue(properties, nameKeys[i])
        && v.value == properties[nameKeys[i]].value
        && (forall j :: 0 <= j < i ==> !HasValue(properties, nameKeys[j]))
  {
    if nameKeys == [] then None
    else if HasValue(properties, nameKeys[0]) then Some(properties[nameKeys[0]].value)
    else
      var v := FirstValue(properties, nameKeys[1..]);
      assert v.Some? ==>
        exists i ::
          && 1 <= i < |nameKeys|
          && HasValue(properties, nameKeys[i])
          && v.value == properties[nameKeys[i]].value
          && (forall j :: 0 <= j < i ==> !HasValue(properties, nameKeys[j])) by {
        if v.Some? {
          var i :| 0 <= i < |nameKeys[1..]| && HasValue(properties, nameKeys[1..][i])
            && v.value == properties[nameKeys[1..][i]].value
            && forall j :: 0 <= j < i ==> !HasValue(properties, nameKeys[1..][j]);
          assert forall j :: 0 <= j < i + 1 ==> !HasValue(properties, nameKeys[j]);
        }
      }
      v
  }

  /** A feature's display name: `capwords` of the first name value, or a failure when there is none. */
  function FeatureName(feature: Feature, nameKeys: seq<string>, capwords: string -> string)
    : Result<string, LoadError>
  {
    var v := FirstValue(feature.properties, nameKeys);
    if v.None? then Err(NoName) else Ok(capwords(v.value))
  }

  /** A feature's polygons: a Polygon is wrapped into a one-polygon MultiPolygon. */
  function Polygons(g: Geometry): (ps: seq<Polygon>)
    ensures g.PolygonGeometry? ==> ps == [g.polygon]
    ensures g.MultiPolygonGeometry? ==> ps == g.polygons
  {
    match g
    case PolygonGeometry(p) => [p]
    case MultiPolygonGeometry(ps) => ps
  }

  /** One step of the inner loop: append `p` to `name`'s list (a new one if need be) unless it is there. */
  function AddPolygon(lookup: Lookup, name: string, p: Polygon): Lookup
  {
    var existing := if name in lookup then lookup[name] else [];
    if p in existing then lookup else lookup[name := existing + [p]]
  }

  /** The inner loop over a feature's polygons. */
  function AddPolygons(lookup: Lookup, name: string, polygons: seq<Polygon>): Lookup
    decreases |polygons|
  {
    if polygons == [] then lookup
    else AddPolygon(AddPolygons(lookup, name, polygons[..|polygons| - 1]), name, polygons[|polygons| - 1])
  }

  /** The whole merge over the features, in file order; the first nameless feature stops it. */
  function Load(features: seq<Feature>, nameKeys: seq<string>, capwords: string -> string)
    : Result<Lookup, LoadError>
    decreases |features|
  {
    if features == [] then Ok(map[])
    else
      var lookup :- Load(features[..|features| - 1], nameKeys, capwords);
      var feature := features[|features| - 1];
      var name :- FeatureName(feature, nameKeys, capwords);
      Ok(AddPolygons(lookup, name, Polygons(feature.geometry)))
  }

  /** The merge loop of `load_geojson`, updating the lookup in place. */
  method LoadGeojson(features: seq<Feature>, nameKeys: seq<string>, capwords: string -> string)
    returns (r: Result<Lookup, LoadError>)
    ensures r == Load(features, nameKeys, capwords)
  {
    var lookup: Lookup := map[];
    var i := 0;
    while i < |features|
      invariant 0 <= i <= |features|
      invariant Load(features[..i], nameKeys, capwords) == Ok(lookup)
    {
      var feature := features[i];
      assert features[..i + 1][..i] == features[..i];
      var v := FirstValue(feature.properties, nameKeys);
      if v.None? {
        LoadStopsAtFirstNameless(features, i, nameKeys, capwords);
        return Err(NoName);
      }
      var name := capwords(v.value);
      var coordinates := Polygons(feature.geometry);
      var j := 0;
      while j < |coordinates|
        invariant 0 <= j <= |coordinates|
        invariant lookup == AddPolygons(Load(features[..i], nameKeys, capwords).value, name, coordinates[..j])
      {
        var polygon := coordinates[j];
        var existing := if name in lookup then lookup[name] else [];
        if polygon !in existing {
          lookup := lookup[name := existing + [polygon]];
        }
        assert coordinates[..j + 1][..j] == coordinates[..j];
        j := j + 1;
      }
      assert coordinates[..j] == coordinates;
      i := i + 1;
    }
    assert features[..i] == features;
    r := Ok(lookup);
  }

  /** A nameless feature after a clean prefix makes the whole load fail. */
  lemma {:induction false} LoadStopsAtFirstNameless(features: seq<Feature>, i: nat, nameKeys: seq<string>,
                                                    capwords: string -> string)
    requires i < |features|
    requires Load(features[..i], nameKeys, capwords).Ok?
    requires FeatureName(features[i], nameKeys, capwords).Err?
    ensures Load(features, nameKeys, capwords) == Err(NoName)
    decreases |features|
  {
    if i + 1 < |features| {
      var init := features[..|features| - 1];
      assert init[..i] == features[..i] && init[i] == features[i];
      LoadStopsAtFirstNameless(init, i, nameKeys, capwords);
    } else {
      assert features[..|features| - 1] == features[..i];
    }
  }

  // ---------------------------------------------------------------------------
  // What the merge guarantees

  /** Every list of the lookup is non-empty and free of duplicates. */
  ghost predicate WellFormed(lookup: Lookup)
  {
    forall n :: n in lookup ==> lookup[n] != [] && NoDup(lookup[n])
  }

  /**
   * One step adds `p` to `name`'s list exactly when it was not there, at the end; every
   * other list is unchanged, and the lists stay non-empty and duplicate-free.
   */
  lemma AddPolygonStep(lookup: Lookup, name: string, p: Polygon)
    requires WellFormed(lookup)
    ensures var r := AddPolygon(lookup, name, p);
      && WellFormed(r)
      && r.Keys == lookup.Keys + {name}
      && (forall n :: n in lookup ==> lookup[n] <= r[n])
      && (forall n :: n in r && n != name ==> r[n] == lookup[n])
      && (name in lookup ==> r[name] == if p in lookup[name] then lookup[name] else lookup[name] + [p])
      && (name !in lookup ==> r[name] == [p])
  {
    var existing := if name in lookup then lookup[name] else [];
    if p !in existing {
      var r := AddPolygon(lookup, name, p);
      assert r[name] == existing + [p];
      assert NoDup(r[name]);
    }
  }

  /** The inner loop: the same facts for a feature's whole list of polygons. */
  lemma {:induction false} AddPolygonsStep(lookup: Lookup, name: string, polygons: seq<Polygon>)
    requires WellFormed(lookup)
    ensures var r := AddPolygons(lookup, name, polygons);
      && WellFormed(r)
      && r.Keys == lookup.Keys + (if polygons == [] then {} else {name})
      && (forall n :: n in lookup ==> lookup[n] <= r[n])
    decreases |polygons|
  {
    if polygons != [] {
      var init := polygons[..|polygons| - 1];
      var last := polygons[|polygons| - 1];
      AddPolygonsStep(lookup, name, init);
      var mid := AddPolygons(lookup, name, init);
      AddPolygonStep(mid, name, last);
      var r := AddPolygons(lookup, name, polygons);
      assert r == AddPolygon(mid, name, last);
      assert polygons == init + [last];
      forall n | n in lookup ensures lookup[n] <= r[n] {
        assert lookup[n] <= mid[n];
      }
    }
  }

  /** After the inner loop a name lists a polygon when it did before, or the feature has that name and lists it. */
  lemma {:induction false} AddPolygonsMember(lookup: Lookup, name: string, polygons: seq<Polygon>, n: string, q: Polygon)
    ensures var r := AddPolygons(lookup, name, polygons);
      n in r && q in r[n] <==> (n in lookup && q in lookup[n]) || (n == name && q in polygons)
    decreases |polygons|
  {
    if polygons != [] {
      var init := polygons[..|polygons| - 1];
      var last := polygons[|polygons| - 1];
      AddPolygonsMember(lookup, name, init, n, q);
      assert polygons == init + [last];
      assert q in polygons <==> q in init || q == last;
    }
  }

  /** Feature `f` has the name `name` and lists `p` among its polygons. */
  predicate Lists(f: Feature, nameKeys: seq<string>, capwords: string -> string, name: string, p: Polygon)
  {
    FeatureName(f, nameKeys, capwords) == Ok(name) && p in Polygons(f.geometry)
  }

  /** Whether some feature named `name` lists `p` among its polygons. */
  ghost predicate Listed(features: seq<Feature>, nameKeys: seq<string>, capwords: string -> string,
                         name: string, p: Polygon)
  {
    exists i :: 0 <= i < |features| && Lists(features[i], nameKeys, capwords, name, p)
  }

  /** The features listing a polygon under a name: those of the first features, or the last one. */
  lemma ListedExtend(features: seq<Feature>, nameKeys: seq<string>, capwords: string -> string,
                     n: string, p: Polygon)
    requires features != []
    ensures var init, last := features[..|features| - 1], features[|features| - 1];
      Listed(features, nameKeys, capwords, n, p) <==>
        Listed(init, nameKeys, capwords, n, p) || Lists(last, nameKeys, capwords, n, p)
  {
    var init, last := features[..|features| - 1], features[|features| - 1];
    if Listed(features, nameKeys, capwords, n, p) {
      var i :| 0 <= i < |features| && Lists(features[i], nameKeys, capwords, n, p);
      if i < |init| {
        assert init[i] == features[i];
        assert Listed(init, nameKeys, capwords, n, p);
      } else {
        assert i == |init|;
      }
    }
    if Listed(init, nameKeys, capwords, n, p) {
      var i :| 0 <= i < |init| && Lists(init[i], nameKeys, capwords, n, p);
      var f := init[i];
      assert f == features[i];
    }
    if Lists(last, nameKeys, capwords, n, p) {
      assert Listed(features, nameKeys, capwords, n, p);
    }
  }

  /** Feature `f` has no name. */
  predicate Nameless(f: Feature, nameKeys: seq<string>, capwords: string -> string)
  {
    FeatureName(f, nameKeys, capwords).Err?
  }

  /** Whether some feature has no name. */
  ghost predicate SomeNameless(features: seq<Feature>, nameKeys: seq<string>, capwords: string -> string)
  {
    exists i :: 0 <= i < |features| && Nameless(features[i], nameKeys, capwords)
  }

  /** A nameless feature is among the first features, or is the last one. */
  lemma SomeNamelessExtend(features: seq<Feature>, nameKeys: seq<string>, capwords: string -> string)
    requires features != []
    ensures var init, last := features[..|features| - 1], features[|features| - 1];
      SomeNameless(features, nameKeys, capwords) <==>
        SomeNameless(init, nameKeys, capwords) || Nameless(last, nameKeys, capwords)
  {
    var init, last := features[..|features| - 1], features[|features| - 1];
    if SomeNameless(features, nameKeys, capwords) {
      var i :| 0 <= i < |features| && Nameless(features[i], nameKeys, capwords);
      if i < |init| {
        assert init[i] == features[i];
        assert SomeNameless(init, nameKeys, capwords);
      } else {
        assert Nameless(last, nameKeys, capwords);
      }
    }
    if SomeNameless(init, nameKeys, capwords) {
      var i :| 0 <= i < |init| && Nameless(init[i], nameKeys, capwords);
      assert init[i] == features[i];
    }
    if Nameless(last, nameKeys, capwords) {
      assert SomeNameless(features, nameKeys, capwords);
    }
  }

  /** A load fails exactly when some feature has no name. */
  lemma {:induction false} LoadFailsExactly(features: seq<Feature>, nameKeys: seq<string>, capwords: string -> string)
    ensures Load(features, nameKeys, capwords).Err? <==> SomeNameless(features, nameKeys, capwords)
    decreases |features|
  {
    if features != [] {
      LoadFailsExactly(features[..|features| - 1], nameKeys, capwords);
      SomeNamelessExtend(features, nameKeys, capwords);
    }
  }

  /**
   * A successful load holds, for every name, exactly the polygons the features of that
   * name list, each once, and only names with at least one polygon.
   */
  lemma {:induction false} LoadContents(features: seq<Feature>, nameKeys: seq<string>, capwords: string -> string)
    requires Load(features, nameKeys, capwords).Ok?
    ensures WellFormed(Load(features, nameKeys, capwords).value)
    ensures var lookup := Load(features, nameKeys, capwords).value;
      forall n, p :: n in lookup && p in lookup[n] <==> Listed(features, nameKeys, capwords, n, p)
    decreases |features|
  {
    if features != [] {
      var init := features[..|features| - 1];
      var last := features[|features| - 1];
      LoadContents(init, nameKeys, capwords);
      var name := FeatureName(last, nameKeys, capwords).value;
      var before := Load(init, nameKeys, capwords).value;
      AddPolygonsStep(before, name, Polygons(last.geometry));
      var lookup := Load(features, nameKeys, capwords).value;
      assert lookup == AddPolygons(before, name, Polygons(last.geometry));
      forall n, p ensures n in lookup && p in lookup[n] <==> Listed(features, nameKeys, capwords, n, p) {
        ListedExtend(features, nameKeys, capwords, n, p);
        AddPolygonsMember(before, name, Polygons(last.geometry), n, p);
      }
    }
  }

  /**
   * Loading more features only appends: every name's list after a prefix of the features
   * is a prefix of its list after all of them. With the lists free of duplicates, each
   * polygon therefore keeps the place where it was first seen.
   */
  lemma {:induction false} LoadOnlyAppends(features: seq<Feature>, k: nat, nameKeys: seq<string>,
                                           capwords: string -> string)
    requires k <= |features|
    requires Load(features, nameKeys, capwords).Ok?
    ensures Load(features[..k], nameKeys, capwords).Ok?
    ensures forall n :: n in Load(features[..k], nameKeys, capwords).value ==>
      n in Load(features, nameKeys, capwords).value &&
      Load(features[..k], nameKeys, capwords).value[n] <= Load(features, nameKeys, capwords).value[n]
    decreases |features|
  {
    if k < |features| {
      var init := features[..|features| - 1];
      assert init[..k] == features[..k];
      LoadOnlyAppends(init, k, nameKeys, capwords);
      var last := features[|features| - 1];
      LoadContents(init, nameKeys, capwords);
      AddPolygonsStep(Load(init, nameKeys, capwords).value,
                      FeatureName(last, nameKeys, capwords).value, Polygons(last.geometry));
    } else {
      assert features[..k] == features;
    }
  }
}
