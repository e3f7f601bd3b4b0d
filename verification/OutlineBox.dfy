/** The bounding box of a project outline, printed as "xmin,ymin,xmax,ymax". */
module OutlineBox {
  import opened Decimals
  import opened Geometry
  import opened GeometrySplit
  import opened Text
  import JavaRosa

  // ---- order on numbers ----

  /** a <= b, on a common scale. */
  predicate Le(a: Num, b: Num) {
    Signed(a) * Pow10(b.scale) <= Signed(b) * Pow10(a.scale)
  }

  function Signed(d: Num): int {
    if d.neg then 0 - d.mag else d.mag
  }

  /** The number itself. */
  ghost function RealValue(d: Num): real {
    (if d.neg then -(d.mag as real) else d.mag as real) / Pow10(d.scale) as real
  }

  lemma LeIsOrder(a: Num, b: Num)
    ensures Le(a, b) <==> RealValue(a) <= RealValue(b)
  {
    CrossOrder(Signed(a), Pow10(a.scale), Signed(b), Pow10(b.scale));
  }

  lemma CrossOrder(s: int, p: nat, t: int, q: nat)
    requires p > 0 && q > 0
    ensures s * q <= t * p <==> s as real / p as real <= t as real / q as real
  {
    var x, y, m, n := s as real / p as real, t as real / q as real, p as real, q as real;
    ProductOfReals(s, q);
    ProductOfReals(t, p);
    assert s as real == x * m && t as real == y * n;
    SameFactor(x, y, m, n);
  }

  lemma ProductOfReals(s: int, q: nat)
    ensures (s * q) as real == s as real * q as real
  {
  }

  lemma SameFactor(x: real, y: real, m: real, n: real)
    requires m > 0.0 && n > 0.0
    ensures (x * m) * n <= (y * n) * m <==> x <= y
  {
    var k := m * n;
    assert k > 0.0 && (x * m) * n == x * k && (y * n) * m == y * k;
    if x <= y { assert x * k <= y * k; } else { assert y * k < x * k; }
  }

  lemma LeTotal(a: Num, b: Num)
    ensures Le(a, b) || Le(b, a)
  {
  }

  lemma LeTransitive(a: Num, b: Num, c: Num)
    requires Le(a, b) && Le(b, c)
    ensures Le(a, c)
  {
    hide Pow10, Signed;
    CrossTransitive(Signed(a), Pow10(a.scale), Signed(b), Pow10(b.scale), Signed(c), Pow10(c.scale));
  }

  lemma CrossTransitive(a: int, p: nat, b: int, q: nat, c: int, r: nat)
    requires p > 0 && q > 0 && r > 0
    requires a * q <= b * p && b * r <= c * q
    ensures a * r <= c * p
  {
    calc {
      (a * r) * q;
      { Regroup(a, r, q); }
      (a * q) * r;
    <= { Scaled(a * q, b * p, r); }
      (b * p) * r;
      { Regroup(b, p, r); }
      (b * r) * p;
    <= { Scaled(b * r, c * q, p); }
      (c * q) * p;
      { Regroup(c, q, p); }
      (c * p) * q;
    }
    if a * r > c * p {
      Scaled(c * p + 1, a * r, q);
      Expand(c * p, q);
      assert false;
    }
  }

  lemma Regroup(x: int, y: int, z: int)
    ensures (x * y) * z == (x * z) * y
    ensures (x * y) * z == x * (y * z)
  {
  }

  lemma Scaled(x: int, y: int, p: nat)
    requires x <= y
    ensures x * p <= y * p
  {
  }

  lemma Expand(x: int, p: int)
    ensures (x + 1) * p == x * p + p
  {
  }

  /** `min(values)`: the first of the least. */
  function Min(values: seq<Num>): (m: Num)
    requires values != []
  {
    if |values| == 1 then values[0]
    else
      var rest := Min(values[1..]);
      if Le(values[0], rest) then values[0] else rest
  }

  /** `max(values)`: the first of the greatest. */
  function Max(values: seq<Num>): (m: Num)
    requires values != []
  {
    if |values| == 1 then values[0]
    else
      var rest := Max(values[1..]);
      if Le(rest, values[0]) then values[0] else rest
  }

  lemma {:induction false} MinIsLeast(values: seq<Num>)
    requires values != []
    ensures Min(values) in values
    ensures forall i :: 0 <= i < |values| ==> Le(Min(values), values[i])
  {
    hide Le;
    if |values| == 1 {
      LeTotal(values[0], values[0]);
    } else {
      MinIsLeast(values[1..]);
      var rest := Min(values[1..]);
      LeTotal(values[0], rest);
      LeTotal(values[0], values[0]);
      forall i | 1 <= i < |values| ensures Le(Min(values), values[i]) {
        assert values[i] == values[1..][i - 1];
        if Le(values[0], rest) {
          LeTransitive(values[0], rest, values[i]);
        }
      }
    }
  }

  lemma {:induction false} MaxIsGreatest(values: seq<Num>)
    requires values != []
    ensures Max(values) in values
    ensures forall i :: 0 <= i < |values| ==> Le(values[i], Max(values))
  {
    hide Le;
    if |values| == 1 {
      LeTotal(values[0], values[0]);
    } else {
      MaxIsGreatest(values[1..]);
      var rest := Max(values[1..]);
      LeTotal(rest, values[0]);
      LeTotal(values[0], values[0]);
      forall i | 1 <= i < |values| ensures Le(values[i], Max(values)) {
        assert values[i] == values[1..][i - 1];
        if Le(rest, values[0]) {
          LeTransitive(values[i], rest, values[0]);
        }
      }
    }
  }

  // ---- the box ----

  datatype Box = Box(xmin: Num, ymin: Num, xmax: Num, ymax: Num)

  function Lons(cs: seq<Coord>): (lons: seq<Num>)
    ensures |lons| == |cs|
  {
    seq(|cs|, i requires 0 <= i < |cs| => cs[i].lon)
  }

  function Lats(cs: seq<Coord>): (lats: seq<Num>)
    ensures |lats| == |cs|
  {
    seq(|cs|, i requires 0 <= i < |cs| => cs[i].lat)
  }

  function BoxOf(cs: seq<Coord>): Box
    requires cs != []
  {
    Box(Min(Lons(cs)), Min(Lats(cs)), Max(Lons(cs)), Max(Lats(cs)))
  }

  predicate Inside(c: Coord, b: Box) {
    Le(b.xmin, c.lon) && Le(c.lon, b.xmax) && Le(b.ymin, c.lat) && Le(c.lat, b.ymax)
  }

  /** Every coordinate lies inside, and each side touches one. */
  ghost predicate Tight(b: Box, cs: seq<Coord>) {
    && (forall i :: 0 <= i < |cs| ==> Inside(cs[i], b))
    && (exists i :: 0 <= i < |cs| && cs[i].lon == b.xmin)
    && (exists i :: 0 <= i < |cs| && cs[i].lon == b.xmax)
    && (exists i :: 0 <= i < |cs| && cs[i].lat == b.ymin)
    && (exists i :: 0 <= i < |cs| && cs[i].lat == b.ymax)
  }

  lemma BoxIsTight(cs: seq<Coord>)
    requires cs != []
    ensures Tight(BoxOf(cs), cs)
  {
    hide Le, Min, Max;
    MinIsLeast(Lons(cs));
    MaxIsGreatest(Lons(cs));
    MinIsLeast(Lats(cs));
    MaxIsGreatest(Lats(cs));
    forall i | 0 <= i < |cs| ensures Inside(cs[i], BoxOf(cs)) {
      assert Lons(cs)[i] == cs[i].lon && Lats(cs)[i] == cs[i].lat;
    }
  }

  // ---- the outline ----

  /** What `projects.outline` may hold. */
  datatype Outline =
    | Missing
    | Raw(geometry: Geometry)
    | OneFeature(feature: Feature)
    | FeatureCollection(features: seq<Feature>)

  datatype BoxReply = BoxText(text: string) | NoGeometry | NoCoordinates

  /** Only the first feature of a collection counts, and a bare geometry
      collection, which has no coordinates of its own, is not recognised. */
  function ExtractGeometry(outline: Outline): Option<Geometry> {
    match outline
    case Missing => None
    case Raw(g) => if g.Collection? then None else Some(g)
    case OneFeature(f) => f.geometry
    case FeatureCollection(fs) => if fs == [] then None else fs[0].geometry
  }

  function BoxPieces(b: Box): seq<string> {
    [Decimals.Print(b.xmin), Decimals.Print(b.ymin), Decimals.Print(b.xmax), Decimals.Print(b.ymax)]
  }

  function OutlineToBbox(outline: Outline): BoxReply {
    ReplyFor(ExtractGeometry(outline))
  }

  function ReplyFor(geometry: Option<Geometry>): BoxReply {
    if geometry.None? then NoGeometry
    else
      var coords := Flatten(geometry.value);
      if coords == [] then NoCoordinates
      else BoxText(JavaRosa.Join(BoxPieces(BoxOf(coords)), ','))
  }

  /** How the imagery search reads the text back: `float` of each piece. */
  function ReadNumbers(text: string): seq<Option<Num>> {
    var pieces := JavaRosa.Split(text, ',');
    seq(|pieces|, i requires 0 <= i < |pieces| => Decimals.Parse(pieces[i]))
  }

  lemma PrintedHasNoComma(d: Num)
    ensures ',' !in Decimals.Print(d)
  {
    hide Decimals.Print;
  }

  /** Reading the printed box gives its four sides in order. */
  lemma BoxReadsBack(b: Box)
    ensures ReadNumbers(JavaRosa.Join(BoxPieces(b), ',')) == [Some(b.xmin), Some(b.ymin), Some(b.xmax), Some(b.ymax)]
  {
    hide Decimals.Print, Decimals.Parse, JavaRosa.Split, JavaRosa.Join;
    var sides := [b.xmin, b.ymin, b.xmax, b.ymax];
    forall i | 0 <= i < 4 ensures ',' !in BoxPieces(b)[i] && Decimals.Parse(BoxPieces(b)[i]) == Some(sides[i]) {
      PrintedHasNoComma(sides[i]);
      Decimals.ParsePrint(sides[i]);
    }
    JavaRosa.SplitJoin(BoxPieces(b), ',');
  }

  /** The geometry an outline stands for. */
  ghost predicate IsGeometryOf(outline: Outline, g: Geometry) {
    || (outline == Raw(g) && !g.Collection?)
    || (outline.OneFeature? && outline.feature.geometry == Some(g))
    || (outline.FeatureCollection? && |outline.features| > 0 && outline.features[0].geometry == Some(g))
  }

  /** The text is four numbers between commas, the tight box of the
      coordinates: west, south, east, north. */
  ghost predicate TellsBox(text: string, cs: seq<Coord>) {
    exists b: Box :: Tight(b, cs)
      && ReadNumbers(text) == [Some(b.xmin), Some(b.ymin), Some(b.xmax), Some(b.ymax)]
  }

  /** An outline without a geometry and a geometry without a coordinate each
      have their reply; any other outline gets the tight box of its geometry. */
  lemma BboxIsTight(outline: Outline)
    ensures OutlineToBbox(outline).NoGeometry? <==> forall g :: !IsGeometryOf(outline, g)
    ensures forall g :: IsGeometryOf(outline, g) ==>
      if Flatten(g) == [] then OutlineToBbox(outline).NoCoordinates?
      else OutlineToBbox(outline).BoxText? && TellsBox(OutlineToBbox(outline).text, Flatten(g))
  {
    hide Flatten, ReadNumbers, JavaRosa.Join, BoxPieces, BoxOf, Tight;
    GeometryIs(outline);
    var g := ExtractGeometry(outline);
    if g.Some? && Flatten(g.value) != [] {
      BoxIsTight(Flatten(g.value));
      BoxReadsBack(BoxOf(Flatten(g.value)));
    }
  }

  lemma GeometryIs(outline: Outline)
    ensures forall g :: IsGeometryOf(outline, g) <==> ExtractGeometry(outline) == Some(g)
  {
  }

  // ---- splitting the collection an outline is taken from ----

  lemma {:induction false} Pow10Adds(m: nat, n: nat)
    ensures Pow10(m + n) == Pow10(m) * Pow10(n)
  {
    hide Pow10;
    if m > 0 {
      Pow10Adds(m - 1, n);
      PowStep(m);
      PowStep(m + n);
      Regroup(10, Pow10(m - 1), Pow10(n));
    } else {
      PowStep(0);
      assert 1 * Pow10(n) == Pow10(n);
    }
  }

  lemma Cancel(x: int, y: int, p: nat)
    requires p > 0 && x * p == y * p
    ensures x == y
  {
    if x < y {
      Scaled(x + 1, y, p);
      Expand(x, p);
      assert false;
    } else if y < x {
      Scaled(y + 1, x, p);
      Expand(y, p);
      assert false;
    }
  }

  lemma SameScale(a: Num, b: Num)
    requires Signed(a) == Signed(b) && a.scale == b.scale
    ensures a == b
  {
  }

  lemma MultipleOfTen(b: Num, y: int)
    requires Signed(b) == 10 * y
    ensures b.scale == 0
  {
    assert b.mag == 10 * (if b.neg then 0 - y else y);
  }

  lemma OnOneScale(x: int, y: int, d: nat, scale: nat)
    requires x * Pow10(d + scale) == y * Pow10(scale)
    ensures x * Pow10(d) == y
  {
    hide Pow10;
    Pow10Adds(d, scale);
    Regroup(x, Pow10(d), Pow10(scale));
    Cancel(x * Pow10(d), y, Pow10(scale));
  }

  /** Numbers of one value are one number: the canonical form is unique. */
  lemma SameValue(a: Num, b: Num)
    requires Signed(a) * Pow10(b.scale) == Signed(b) * Pow10(a.scale) && a.scale <= b.scale
    ensures a == b
  {
    hide Pow10, Signed, Canonical;
    var d := b.scale - a.scale;
    OnOneScale(Signed(a), Signed(b), d, a.scale);
    if d > 0 {
      Tenfold(Signed(a), d);
      MultipleOfTen(b, Signed(a) * Pow10(d - 1));
    } else {
      PowStep(0);
      SameScale(a, b);
    }
  }

  lemma Tenfold(x: int, d: nat)
    requires d > 0
    ensures x * Pow10(d) == 10 * (x * Pow10(d - 1))
  {
  }

  lemma LeAntisymmetric(a: Num, b: Num)
    requires Le(a, b) && Le(b, a)
    ensures a == b
  {
    if a.scale <= b.scale { SameValue(a, b); } else { SameValue(b, a); }
  }

  /** More values leave the minimum where it is exactly when none is below. */
  lemma MinOfMore(a: seq<Num>, b: seq<Num>)
    requires a != []
    ensures Min(a + b) == Min(a) <==> forall i :: 0 <= i < |b| ==> Le(Min(a), b[i])
  {
    hide Le, Min;
    MinIsLeast(a);
    MinIsLeast(a + b);
    assert forall i :: 0 <= i < |b| ==> (a + b)[|a| + i] == b[i];
    var k :| 0 <= k < |a| && a[k] == Min(a);
    assert (a + b)[k] == Min(a);
    if forall i :: 0 <= i < |b| ==> Le(Min(a), b[i]) {
      var m :| 0 <= m < |a + b| && (a + b)[m] == Min(a + b);
      assert Le(Min(a), (a + b)[m]);
      LeAntisymmetric(Min(a), Min(a + b));
    }
  }

  lemma MaxOfMore(a: seq<Num>, b: seq<Num>)
    requires a != []
    ensures Max(a + b) == Max(a) <==> forall i :: 0 <= i < |b| ==> Le(b[i], Max(a))
  {
    hide Le, Max;
    MaxIsGreatest(a);
    MaxIsGreatest(a + b);
    assert forall i :: 0 <= i < |b| ==> (a + b)[|a| + i] == b[i];
    var k :| 0 <= k < |a| && a[k] == Max(a);
    assert (a + b)[k] == Max(a);
    if forall i :: 0 <= i < |b| ==> Le(b[i], Max(a)) {
      var m :| 0 <= m < |a + b| && (a + b)[m] == Max(a + b);
      assert Le((a + b)[m], Max(a));
      LeAntisymmetric(Max(a), Max(a + b));
    }
  }

  predicate AllInside(cs: seq<Coord>, b: Box) {
    forall i :: 0 <= i < |cs| ==> Inside(cs[i], b)
  }

  lemma BoxOfMore(a: seq<Coord>, b: seq<Coord>)
    requires a != []
    ensures BoxOf(a + b) == BoxOf(a) <==> AllInside(b, BoxOf(a))
  {
    hide Le, Min, Max;
    assert Lons(a + b) == Lons(a) + Lons(b) && Lats(a + b) == Lats(a) + Lats(b);
    MinOfMore(Lons(a), Lons(b));
    MinOfMore(Lats(a), Lats(b));
    MaxOfMore(Lons(a), Lons(b));
    MaxOfMore(Lats(a), Lats(b));
    forall i | 0 <= i < |b|
      ensures Lons(b)[i] == b[i].lon && Lats(b)[i] == b[i].lat
    {
    }
  }

  /** Two outlines get the same reply exactly when neither has a coordinate or
      both have the same box. */
  lemma SameReplyIff(g: Geometry, h: Geometry)
    ensures ReplyFor(Some(g)) == ReplyFor(Some(h)) <==>
      if Flatten(g) == [] || Flatten(h) == [] then Flatten(g) == Flatten(h)
      else BoxOf(Flatten(g)) == BoxOf(Flatten(h))
  {
    hide Flatten, BoxOf, BoxPieces, ReadNumbers, JavaRosa.Join;
    if Flatten(g) != [] && Flatten(h) != [] {
      BoxReadsBack(BoxOf(Flatten(g)));
      BoxReadsBack(BoxOf(Flatten(h)));
    }
  }

  lemma FirstPart(g: Geometry)
    requires Parts(g) != []
    ensures Flatten(g) == Flatten(Parts(g)[0]) + FlattenMembers(Parts(g)[1..])
  {
    hide Flatten, Parts;
    PartsKeepCoordinates(g);
  }

  /** The parts of a geometry after the first add nothing to its box. */
  predicate RestInside(g: Geometry)
    requires Parts(g) != []
  {
    var first, rest := Flatten(Parts(g)[0]), FlattenMembers(Parts(g)[1..]);
    if first == [] then rest == [] else AllInside(rest, BoxOf(first))
  }

  lemma FirstPartReply(g: Geometry)
    requires Parts(g) != []
    ensures ReplyFor(Some(Parts(g)[0])) == ReplyFor(Some(g)) <==> RestInside(g)
  {
    hide Flatten, FlattenMembers, Parts, BoxOf, ReplyFor, AllInside;
    FirstPart(g);
    SameReplyIff(Parts(g)[0], g);
    var first, rest := Flatten(Parts(g)[0]), FlattenMembers(Parts(g)[1..]);
    if first != [] { BoxOfMore(first, rest); }
  }

  /** What the first feature of a collection must be like for the outline's
      reply to survive a split: nothing but itself, without a geometry and
      nothing after it to take its place, a geometry whose further parts lie in
      the first part's box, or one without parts, followed by a geometry that
      has no coordinates either. */
  predicate OutlineSurvives(fs: seq<Feature>) {
    fs == [] ||
    match fs[0].geometry
    case None => SplitAll(fs[1..]) == []
    case Some(g) =>
      if Parts(g) != [] then RestInside(g)
      else
        var rest := SplitAll(fs[1..]);
        rest != [] && rest[0].geometry.Some? && Flatten(rest[0].geometry.value) == []
  }

  lemma {:induction false} SplitHasGeometries(fs: seq<Feature>)
    ensures forall i :: 0 <= i < |SplitAll(fs)| ==> SplitAll(fs)[i].geometry.Some?
  {
    hide Parts;
    if fs != [] { SplitHasGeometries(fs[1..]); }
  }

  lemma NoPartsNoCoordinates(g: Geometry)
    requires Parts(g) == []
    ensures Flatten(g) == []
  {
    PartsKeepCoordinates(g);
  }

  lemma FirstOfSplit(fs: seq<Feature>)
    requires fs != [] && fs[0].geometry.Some? && Parts(fs[0].geometry.value) != []
    ensures SplitAll(fs) != [] && SplitAll(fs)[0].geometry == Some(Parts(fs[0].geometry.value)[0])
  {
    hide Parts;
  }

  lemma RestOfSplit(fs: seq<Feature>)
    requires fs != [] && (fs[0].geometry.None? || Parts(fs[0].geometry.value) == [])
    ensures SplitAll(fs) == SplitAll(fs[1..])
  {
    hide Parts;
  }

  /** Splitting a collection, which loses no coordinate, changes the bounding
      box taken from it exactly when the first feature alone does not tell:
      the outline looks at nothing else. */
  lemma SplitKeepsOutlineIff(fs: seq<Feature>)
    ensures OutlineToBbox(FeatureCollection(SplitAll(fs))) == OutlineToBbox(FeatureCollection(fs))
            <==> OutlineSurvives(fs)
  {
    hide Parts, Flatten, SplitAll, RestInside, BoxOf, JavaRosa.Join, BoxPieces;
    if fs == [] {
      SplitNothing();
    } else if fs[0].geometry.Some? && Parts(fs[0].geometry.value) != [] {
      FirstOfSplit(fs);
      FirstPartReply(fs[0].geometry.value);
    } else {
      RestOfSplit(fs);
      SplitHasGeometries(fs[1..]);
      if fs[0].geometry.Some? { NoPartsNoCoordinates(fs[0].geometry.value); }
    }
  }

  /** Splitting keeps every coordinate, yet the outline's box can shrink. */
  lemma SplitCanShrinkOutline()
    ensures exists fs: seq<Feature> ::
      && FlattenAll(SplitAll(fs)) == FlattenAll(fs)
      && OutlineToBbox(FeatureCollection(fs)).BoxText?
      && OutlineToBbox(FeatureCollection(SplitAll(fs))).BoxText?
      && OutlineToBbox(FeatureCollection(SplitAll(fs))) != OutlineToBbox(FeatureCollection(fs))
  {
    hide BoxPieces, JavaRosa.Join, Decimals.Print;
    var one: Num := Decimal(false, 1, 0);
    var two: Num := Decimal(false, 2, 0);
    var near, far := Coord(one, one), Coord(two, two);
    var g := MultiPoint([near, far]);
    var fs := [Feature(Some(g), map[])];
    SplitKeepsCoordinates(fs);
    SplitKeepsOutlineIff(fs);
    FirstOfSplit(fs);
    var rest := FlattenMembers(Parts(g)[1..]);
    FirstPart(g);
    assert rest[0] == far by { assert Flatten(g)[1] == far; }
    assert BoxOf([near]) == Box(one, one, one, one);
    assert !Le(two, one);
    assert !Inside(rest[0], BoxOf([near]));
  }
}
