/** Splitting multi-geometries and collections into single geometries, and the
    bounding box of an outline. */
module GeometrySplit {
  import opened Geometry
  import opened Text

  /** A GeoJSON feature; a null geometry is `None`. */
  datatype Feature = Feature(geometry: Option<Geometry>, properties: map<string, string>)

  predicate IsSingle(g: Geometry) {
    g.Point? || g.LineString? || g.Polygon?
  }

  /** The parts one geometry is split into: one level deep, a collection's
      members as they stand. */
  function Parts(g: Geometry): seq<Geometry> {
    match g
    case MultiPoint(points) => seq(|points|, i requires 0 <= i < |points| => Point(points[i]))
    case MultiLineString(lines) => seq(|lines|, i requires 0 <= i < |lines| => LineString(lines[i]))
    case MultiPolygon(polygons) => seq(|polygons|, i requires 0 <= i < |polygons| => Polygon(polygons[i]))
    case Collection(members) => members
    case _ => [g]
  }

  function AsFeatures(gs: seq<Geometry>, properties: map<string, string>): seq<Feature> {
    seq(|gs|, i requires 0 <= i < |gs| => Feature(Some(gs[i]), properties))
  }

  function SplitFeature(f: Feature): seq<Feature> {
    if f.geometry.None? then [] else AsFeatures(Parts(f.geometry.value), f.properties)
  }

  function SplitAll(fs: seq<Feature>): seq<Feature> {
    if fs == [] then [] else SplitFeature(fs[0]) + SplitAll(fs[1..])
  }

  lemma SplitStep(fs: seq<Feature>, i: nat, done: seq<Feature>)
    requires i < |fs|
    ensures done + SplitAll(fs[i..]) == done + SplitFeature(fs[i]) + SplitAll(fs[i + 1..])
  {
    hide SplitFeature;
    assert fs[i..][1..] == fs[i + 1..];
  }

  method MultigeomToSinglegeom(features: seq<Feature>) returns (final: seq<Feature>)
    ensures final == SplitAll(features)
  {
    hide Parts, IsSingle, AsFeatures, SplitAll, SplitFeature;
    final := [];
    assert features[0..] == features;
    for i := 0 to |features|
      invariant final + SplitAll(features[i..]) == SplitAll(features)
    {
      SplitStep(features, i, final);
      var f := features[i];
      if f.geometry.None? {
        SplitCases(f);
        assert final + [] == final;
      } else if IsSingle(f.geometry.value) {
        SplitCases(f);
        final := final + [f];
      } else {
        SplitCases(f);
        final := final + AsFeatures(Parts(f.geometry.value), f.properties);
      }
    }
    SplitNothing();
    assert features[|features|..] == [] && final + [] == final;
  }

  lemma SplitNothing()
    ensures SplitAll([]) == []
  {
  }

  lemma SplitCases(f: Feature)
    ensures f.geometry.None? ==> SplitFeature(f) == []
    ensures f.geometry.Some? ==> SplitFeature(f) == AsFeatures(Parts(f.geometry.value), f.properties)
    ensures f.geometry.Some? && IsSingle(f.geometry.value) ==> SplitFeature(f) == [f]
  {
  }

  // ---- conservation of coordinates ----

  /** The coordinates of every feature that has a geometry, in order. */
  function FlattenAll(fs: seq<Feature>): seq<Coord> {
    if fs == [] then [] else FlattenFeature(fs[0]) + FlattenAll(fs[1..])
  }

  function FlattenFeature(f: Feature): seq<Coord> {
    if f.geometry.Some? then Flatten(f.geometry.value) else []
  }

  lemma {:induction false} FlattenAllSplits(a: seq<Feature>, b: seq<Feature>)
    ensures FlattenAll(a + b) == FlattenAll(a) + FlattenAll(b)
  {
    hide FlattenFeature;
    if a == [] {
      assert a + b == b;
    } else {
      FlattenAllSplits(a[1..], b);
      assert (a + b)[1..] == a[1..] + b;
    }
  }

  lemma {:induction false} FlattenPoints(points: seq<Coord>)
    ensures FlattenMembers(Parts(MultiPoint(points))) == points
  {
    if points != [] {
      FlattenPoints(points[1..]);
      assert Parts(MultiPoint(points))[1..] == Parts(MultiPoint(points[1..]));
    }
  }

  lemma {:induction false} FlattenLines(lines: seq<seq<Coord>>)
    ensures FlattenMembers(Parts(MultiLineString(lines))) == Concat(lines)
  {
    if lines != [] {
      FlattenLines(lines[1..]);
      assert Parts(MultiLineString(lines))[1..] == Parts(MultiLineString(lines[1..]));
    }
  }

  lemma {:induction false} FlattenPolygons(polygons: seq<seq<seq<Coord>>>)
    ensures FlattenMembers(Parts(MultiPolygon(polygons))) == ConcatEach(polygons)
  {
    if polygons != [] {
      FlattenPolygons(polygons[1..]);
      assert Parts(MultiPolygon(polygons))[1..] == Parts(MultiPolygon(polygons[1..]));
    }
  }

  lemma PartsKeepCoordinates(g: Geometry)
    ensures FlattenMembers(Parts(g)) == Flatten(g)
  {
    match g
    case MultiPoint(points) => FlattenPoints(points);
    case MultiLineString(lines) => FlattenLines(lines);
    case MultiPolygon(polygons) => FlattenPolygons(polygons);
    case Collection(_) =>
    case _ => assert [g][1..] == [];
  }

  lemma {:induction false} FlattenFeatures(gs: seq<Geometry>, properties: map<string, string>)
    ensures FlattenAll(AsFeatures(gs, properties)) == FlattenMembers(gs)
  {
    hide Flatten;
    if gs != [] {
      FlattenFeatures(gs[1..], properties);
      assert AsFeatures(gs, properties)[1..] == AsFeatures(gs[1..], properties);
    }
  }

  /** Splitting loses, adds and reorders no coordinate. */
  lemma {:induction false} SplitKeepsCoordinates(fs: seq<Feature>)
    ensures FlattenAll(SplitAll(fs)) == FlattenAll(fs)
  {
    hide Flatten, Parts, AsFeatures;
    if fs != [] {
      SplitKeepsCoordinates(fs[1..]);
      FlattenAllSplits(SplitFeature(fs[0]), SplitAll(fs[1..]));
      if fs[0].geometry.Some? {
        PartsKeepCoordinates(fs[0].geometry.value);
        FlattenFeatures(Parts(fs[0].geometry.value), fs[0].properties);
      }
    }
  }

  // ---- what comes out ----

  predicate AllSingle(fs: seq<Feature>) {
    forall i :: 0 <= i < |fs| ==> fs[i].geometry.Some? && IsSingle(fs[i].geometry.value)
  }

  predicate SingleMembers(g: Geometry) {
    g.Collection? ==> forall k :: 0 <= k < |g.members| ==> IsSingle(g.members[k])
  }

  /** A collection in the list holds only single geometries. */
  predicate FlatCollections(fs: seq<Feature>) {
    forall i :: 0 <= i < |fs| && fs[i].geometry.Some? ==> SingleMembers(fs[i].geometry.value)
  }

  lemma SplitFeatureSingleIff(f: Feature)
    ensures AllSingle(SplitFeature(f)) <==> FlatCollections([f])
  {
    if f.geometry.Some? && f.geometry.value.Collection? {
      var members := f.geometry.value.members;
      assert forall k :: 0 <= k < |members| ==> SplitFeature(f)[k].geometry == Some(members[k]);
      assert [f][0] == f;
    }
  }

  /** One pass leaves single geometries only, exactly when no collection holds
      a multi-geometry or a further collection: the split goes one level. */
  lemma {:induction false} SplitIsSingleIff(fs: seq<Feature>)
    ensures AllSingle(SplitAll(fs)) <==> FlatCollections(fs)
  {
    hide SplitFeature, IsSingle, SingleMembers;
    if fs != [] {
      SplitFeatureSingleIff(fs[0]);
      SplitIsSingleIff(fs[1..]);
      AllSingleAppend(SplitFeature(fs[0]), SplitAll(fs[1..]));
      FlatAppend([fs[0]], fs[1..]);
      assert [fs[0]] + fs[1..] == fs;
    }
  }

  lemma AllSingleAppend(a: seq<Feature>, b: seq<Feature>)
    ensures AllSingle(a + b) <==> AllSingle(a) && AllSingle(b)
  {
    hide IsSingle;
    assert forall i :: 0 <= i < |b| ==> (a + b)[|a| + i] == b[i];
    assert forall i :: 0 <= i < |a| ==> (a + b)[i] == a[i];
  }

  lemma FlatAppend(a: seq<Feature>, b: seq<Feature>)
    ensures FlatCollections(a + b) <==> FlatCollections(a) && FlatCollections(b)
  {
    hide SingleMembers;
    assert forall i :: 0 <= i < |b| ==> (a + b)[|a| + i] == b[i];
    assert forall i :: 0 <= i < |a| ==> (a + b)[i] == a[i];
  }

  /** Single geometries are left as they are, so a second pass after a flat
      one changes nothing. */
  lemma {:induction false} SplitSettles(fs: seq<Feature>)
    requires AllSingle(fs)
    ensures SplitAll(fs) == fs
  {
    if fs != [] {
      SplitSettles(fs[1..]);
      SplitCases(fs[0]);
    }
  }

  // ---- the list that comes out ----

  /** The k-th part of a geometry. */
  ghost predicate IsPart(g: Geometry, k: nat, part: Geometry) {
    match g
    case MultiPoint(points) => k < |points| && part == Point(points[k])
    case MultiLineString(lines) => k < |lines| && part == LineString(lines[k])
    case MultiPolygon(polygons) => k < |polygons| && part == Polygon(polygons[k])
    case Collection(members) => k < |members| && part == members[k]
    case _ => k == 0 && part == g
  }

  /** These features are the parts of f in order, with the properties of f. */
  ghost predicate ArePartsOf(fs: seq<Feature>, f: Feature) {
    f.geometry.Some?
    && (forall k: nat, part :: IsPart(f.geometry.value, k, part) ==> k < |fs|)
    && (forall k :: 0 <= k < |fs| ==>
          fs[k].geometry.Some? && IsPart(f.geometry.value, k, fs[k].geometry.value) && fs[k].properties == f.properties)
  }

  /** The list is split feature by feature; a feature without a geometry is
      dropped, any other is replaced by its parts. */
  lemma SplitLaw(a: seq<Feature>, b: seq<Feature>, f: Feature)
    ensures SplitAll(a + b) == SplitAll(a) + SplitAll(b)
    ensures f.geometry.None? ==> SplitAll([f]) == []
    ensures f.geometry.Some? ==> ArePartsOf(SplitAll([f]), f)
  {
    SplitConcat(a, b);
    assert [f][1..] == [] && SplitFeature(f) + [] == SplitFeature(f);
  }

  lemma {:induction false} SplitConcat(a: seq<Feature>, b: seq<Feature>)
    ensures SplitAll(a + b) == SplitAll(a) + SplitAll(b)
  {
    hide SplitFeature;
    if a == [] {
      assert a + b == b;
    } else {
      SplitConcat(a[1..], b);
      assert (a + b)[1..] == a[1..] + b;
    }
  }
}
