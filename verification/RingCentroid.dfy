/** The shoelace centroid of a polygon ring, over exact reals. */
module RingCentroid {
  import opened Text

  datatype Vec = Vec(x: real, y: real)

  type Ring = seq<Vec>

  const MIN_CENTROID_POINTS := 3
  const POLYGON_AREA_EPSILON := 0.0000000001

  function Plus(a: Vec, b: Vec): Vec {
    Vec(a.x + b.x, a.y + b.y)
  }

  // ---- the sums the loop accumulates ----

  function Cross(a: Vec, b: Vec): real {
    a.x * b.y - b.x * a.y
  }

  /** One edge's share of the first moments. */
  function EdgeX(a: Vec, b: Vec): real {
    (a.x + b.x) * Cross(a, b)
  }

  function EdgeY(a: Vec, b: Vec): real {
    (a.y + b.y) * Cross(a, b)
  }

  /** Twice the signed area under the first k edges. */
  function CrossSum(r: Ring, k: nat): real
    requires k < |r| || k == 0
  {
    if k == 0 then 0.0 else CrossSum(r, k - 1) + Cross(r[k - 1], r[k])
  }

  function MomentX(r: Ring, k: nat): real
    requires k < |r| || k == 0
  {
    if k == 0 then 0.0 else MomentX(r, k - 1) + EdgeX(r[k - 1], r[k])
  }

  function MomentY(r: Ring, k: nat): real
    requires k < |r| || k == 0
  {
    if k == 0 then 0.0 else MomentY(r, k - 1) + EdgeY(r[k - 1], r[k])
  }

  lemma OneEdge(r: Ring, i: nat, cross: real)
    requires i + 1 < |r|
    requires cross == r[i].x * r[i + 1].y - r[i + 1].x * r[i].y
    ensures CrossSum(r, i + 1) == CrossSum(r, i) + cross
    ensures MomentX(r, i + 1) == MomentX(r, i) + (r[i].x + r[i + 1].x) * cross
    ensures MomentY(r, i + 1) == MomentY(r, i) + (r[i].y + r[i + 1].y) * cross
  {
    assert cross == Cross(r[i], r[i + 1]);
  }

  function SumX(r: Ring, k: nat): real
    requires k <= |r|
  {
    if k == 0 then 0.0 else SumX(r, k - 1) + r[k - 1].x
  }

  function SumY(r: Ring, k: nat): real
    requires k <= |r|
  {
    if k == 0 then 0.0 else SumY(r, k - 1) + r[k - 1].y
  }

  // ---- the centroid ----

  function Average(r: Ring): Vec {
    if r == [] then Vec(0.0, 0.0)
    else Vec(SumX(r, |r|) / |r| as real, SumY(r, |r|) / |r| as real)
  }

  lemma NothingSummed(r: Ring)
    ensures CrossSum(r, 0) == MomentX(r, 0) == MomentY(r, 0) == 0.0
    ensures r == [] ==> Average(r) == Vec(0.0, 0.0)
  {
  }

  function Area(r: Ring): real
    requires r != []
  {
    CrossSum(r, |r| - 1) / 2.0
  }

  /** Too few points, or too little area to divide by. */
  predicate Degenerate(r: Ring) {
    |r| < MIN_CENTROID_POINTS || -POLYGON_AREA_EPSILON < Area(r) < POLYGON_AREA_EPSILON
  }

  function Centroid(r: Ring): Vec {
    if Degenerate(r) then Average(r)
    else Vec(MomentX(r, |r| - 1) / (6.0 * Area(r)), MomentY(r, |r| - 1) / (6.0 * Area(r)))
  }

  /** Only the outer ring counts. A missing coordinate list stands for one
      empty ring; an empty list has no first ring, which is an index error. */
  method PolygonToCentroid(coordinates: Option<seq<Ring>>) returns (c: Option<Vec>)
    ensures c.None? <==> coordinates == Some([])
    ensures coordinates.None? ==> c == Some(Vec(0.0, 0.0))
    ensures coordinates.Some? && coordinates.value != [] ==> c == Some(Centroid(coordinates.value[0]))
  {
    hide Cross, CrossSum, MomentX, MomentY, Average;
    if coordinates == Some([]) {
      return None;
    }
    var coords: Ring := if coordinates.None? then [] else coordinates.value[0];
    var n := |coords|;
    NothingSummed(coords);
    if n < MIN_CENTROID_POINTS {
      var mean := Mean(coords);
      return Some(mean);
    }
    var area, cx, cy := 0.0, 0.0, 0.0;
    for i := 0 to n - 1
      invariant area == CrossSum(coords, i) && cx == MomentX(coords, i) && cy == MomentY(coords, i)
    {
      var cross := coords[i].x * coords[i + 1].y - coords[i + 1].x * coords[i].y;
      OneEdge(coords, i, cross);
      area := area + cross;
      cx := cx + (coords[i].x + coords[i + 1].x) * cross;
      cy := cy + (coords[i].y + coords[i + 1].y) * cross;
    }
    area := area / 2.0;
    if -POLYGON_AREA_EPSILON < area < POLYGON_AREA_EPSILON {
      var mean := Mean(coords);
      return Some(mean);
    }
    c := Some(Vec(cx / (6.0 * area), cy / (6.0 * area)));
  }

  method Mean(r: Ring) returns (mean: Vec)
    ensures mean == Average(r)
  {
    var x, y := 0.0, 0.0;
    for i := 0 to |r|
      invariant x == SumX(r, i) && y == SumY(r, i)
    {
      x, y := x + r[i].x, y + r[i].y;
    }
    mean := if r == [] then Vec(0.0, 0.0) else Vec(x / |r| as real, y / |r| as real);
  }

  // ---- mirrored coordinates: every fact about x gives the one about y ----

  function Mirror(r: Ring): (m: Ring)
    ensures |m| == |r|
  {
    seq(|r|, i requires 0 <= i < |r| => Vec(r[i].y, r[i].x))
  }

  lemma MirrorEdge(a: Vec, b: Vec)
    ensures Cross(Vec(a.y, a.x), Vec(b.y, b.x)) == -Cross(a, b)
    ensures EdgeX(Vec(a.y, a.x), Vec(b.y, b.x)) == -EdgeY(a, b)
  {
    NegatedProduct(a.y + b.y, Cross(a, b));
  }

  lemma {:induction false} MirrorSums(r: Ring, k: nat)
    requires k < |r| || k == 0
    ensures CrossSum(Mirror(r), k) == -CrossSum(r, k)
    ensures MomentX(Mirror(r), k) == -MomentY(r, k)
  {
    hide Cross, EdgeX, EdgeY;
    if k > 0 {
      MirrorSums(r, k - 1);
      MirrorEdge(r[k - 1], r[k]);
    }
  }

  lemma MirrorCentroid(r: Ring)
    ensures Degenerate(Mirror(r)) <==> Degenerate(r)
    ensures !Degenerate(r) ==> Centroid(Mirror(r)) == Vec(Centroid(r).y, Centroid(r).x)
  {
    hide CrossSum, MomentX, MomentY, Mirror, Average;
    if r != [] {
      var last := |r| - 1;
      MirrorSums(r, last);
      MirrorSums(Mirror(r), last);
      MirrorTwice(r);
      if !Degenerate(r) {
        NegatedQuotient(MomentX(r, last), Area(r));
        NegatedQuotient(MomentY(r, last), Area(r));
      }
    }
  }

  lemma MirrorTwice(r: Ring)
    ensures Mirror(Mirror(r)) == r
  {
  }

  lemma NegatedProduct(a: real, b: real)
    ensures a * -b == -(a * b)
  {
  }

  // ---- translation ----

  function Translate(r: Ring, v: Vec): (t: Ring)
    ensures |t| == |r|
  {
    seq(|r|, i requires 0 <= i < |r| => Plus(r[i], v))
  }

  /** What a translation by v adds to the cross sums from a to b. */
  function Turn(v: Vec, a: Vec, b: Vec): real {
    v.x * (b.y - a.y) - v.y * (b.x - a.x)
  }

  lemma TurnsAdd(v: Vec, a: Vec, b: Vec, c: Vec)
    ensures Turn(v, a, b) + Turn(v, b, c) == Turn(v, a, c)
  {
    ProductsAdd(v.x, a.y, b.y, c.y);
    ProductsAdd(v.y, a.x, b.x, c.x);
  }

  lemma ProductsAdd(m: real, a: real, b: real, c: real)
    ensures m * (b - a) + m * (c - b) == m * (c - a)
  {
  }

  lemma Turns(v: Vec, a: Vec, b: Vec)
    ensures Turn(v, a, a) == 0.0
    ensures Turn(Vec(1.0, 0.0), a, b) == b.y - a.y
    ensures Turn(Vec(0.0, 1.0), a, b) == a.x - b.x
  {
    assert a.y - a.y == 0.0 && a.x - a.x == 0.0;
  }

  lemma CrossTranslated(a: Vec, b: Vec, v: Vec)
    ensures Cross(Plus(a, v), Plus(b, v)) == Cross(a, b) + Turn(v, a, b)
  {
    CrossPolynomial(a.x, a.y, b.x, b.y, v.x, v.y);
  }

  lemma CrossPolynomial(a: real, p: real, b: real, q: real, u: real, w: real)
    ensures (a + u) * (q + w) - (b + u) * (p + w) == a * q - b * p + (u * (q - p) - w * (b - a))
  {
  }

  lemma {:induction false} CrossSumTranslated(r: Ring, v: Vec, k: nat)
    requires k < |r|
    ensures CrossSum(Translate(r, v), k) == CrossSum(r, k) + Turn(v, r[0], r[k])
  {
    hide Cross, Turn, Plus;
    if k > 0 {
      CrossSumTranslated(r, v, k - 1);
      CrossTranslated(r[k - 1], r[k], v);
      TurnsAdd(v, r[0], r[k - 1], r[k]);
    } else {
      Turns(v, r[0], r[0]);
    }
  }

  /** What one edge's moment gains from a translation. */
  lemma MomentTranslated(a: Vec, b: Vec, v: Vec)
    ensures EdgeX(Plus(a, v), Plus(b, v)) == EdgeX(a, b) + Shear(v, Cross(a, b)) + (Drift(b, v) - Drift(a, v))
  {
    MomentPolynomial(a.x, a.y, b.x, b.y, v.x, v.y);
  }

  /** The part of the gain that cancels around a closed ring. */
  function Drift(p: Vec, v: Vec): real {
    v.x * (p.x * p.y) - v.y * (p.x * p.x) + 2.0 * v.x * (v.x * p.y - v.y * p.x)
  }

  lemma MomentPolynomial(a: real, p: real, b: real, q: real, u: real, w: real)
    ensures ((a + u) + (b + u)) * ((a + u) * (q + w) - (b + u) * (p + w))
      == (a + b) * (a * q - b * p) + 3.0 * u * (a * q - b * p)
         + (u * (b * q) - w * (b * b) + 2.0 * u * (u * q - w * b)
            - (u * (a * p) - w * (a * a) + 2.0 * u * (u * p - w * a)))
  {
  }

  lemma {:induction false} MomentXTranslated(r: Ring, v: Vec, k: nat)
    requires k < |r|
    ensures MomentX(Translate(r, v), k) == MomentX(r, k) + Shear(v, CrossSum(r, k)) + (Drift(r[k], v) - Drift(r[0], v))
  {
    hide Cross, EdgeX, Drift, Plus, Shear;
    ShearAdds(v, CrossSum(r, k - if k > 0 then 1 else 0), if k > 0 then Cross(r[k - 1], r[k]) else 0.0);
    if k > 0 {
      MomentXTranslated(r, v, k - 1);
      MomentTranslated(r[k - 1], r[k], v);
    }
  }

  /** What a translation adds to a first moment, by cross sum. */
  function Shear(v: Vec, cross: real): real {
    3.0 * v.x * cross
  }

  lemma ShearAdds(v: Vec, a: real, b: real)
    ensures Shear(v, a + b) == Shear(v, a) + Shear(v, b)
    ensures Shear(v, 0.0) == 0.0
  {
  }

  predicate Closed(r: Ring) {
    r != [] && r[0] == r[|r| - 1]
  }

  lemma Quotient(m: real, v: real, area: real)
    requires area != 0.0
    ensures (m + 3.0 * v * (2.0 * area)) / (6.0 * area) == m / (6.0 * area) + v
  {
    assert 3.0 * v * (2.0 * area) == v * (6.0 * area);
    assert (m + v * (6.0 * area)) / (6.0 * area) == m / (6.0 * area) + v;
  }

  lemma {:induction false} SumsTranslated(r: Ring, v: Vec, k: nat)
    requires k <= |r|
    ensures SumX(Translate(r, v), k) == SumX(r, k) + k as real * v.x
    ensures SumY(Translate(r, v), k) == SumY(r, k) + k as real * v.y
  {
    if k > 0 {
      SumsTranslated(r, v, k - 1);
      assert (k - 1) as real * v.x + v.x == k as real * v.x;
      assert (k - 1) as real * v.y + v.y == k as real * v.y;
    }
  }

  lemma AverageTranslated(r: Ring, v: Vec)
    requires r != []
    ensures Average(Translate(r, v)) == Plus(Average(r), v)
  {
    hide SumX, SumY;
    var t := Translate(r, v);
    assert t != [];
    SumsTranslated(r, v, |r|);
    Share(SumX(r, |r|), |r| as real, v.x);
    Share(SumY(r, |r|), |r| as real, v.y);
  }

  lemma Share(s: real, n: real, v: real)
    requires n != 0.0
    ensures (s + n * v) / n == s / n + v
  {
  }

  lemma MirrorTranslate(r: Ring, v: Vec)
    ensures Mirror(Translate(r, v)) == Translate(Mirror(r), Vec(v.y, v.x))
  {
  }

  lemma ClosedMoments(r: Ring, v: Vec)
    requires Closed(r)
    ensures Area(Translate(r, v)) == Area(r)
    ensures MomentX(Translate(r, v), |r| - 1) == MomentX(r, |r| - 1) + 3.0 * v.x * (2.0 * Area(r))
    ensures MomentY(Translate(r, v), |r| - 1) == MomentY(r, |r| - 1) + 3.0 * v.y * (2.0 * Area(r))
  {
    hide Cross, CrossSum, MomentX, MomentY, Translate, Mirror, Plus;
    var last := |r| - 1;
    CrossSumTranslated(r, v, last);
    Turns(v, r[0], r[0]);
    MomentXTranslated(r, v, last);
    ClosedMirror(r);
    MomentXTranslated(Mirror(r), Vec(v.y, v.x), last);
    MirrorTranslate(r, v);
    MirrorSums(r, last);
    MirrorSums(Translate(r, v), last);
    NegatedProduct(3.0 * v.y, CrossSum(r, last));
  }

  lemma ClosedMirror(r: Ring)
    requires Closed(r)
    ensures Closed(Mirror(r))
  {
  }

  /** Moving a closed ring moves its centroid along, on the same branch. */
  lemma CentroidTranslates(r: Ring, v: Vec)
    requires Closed(r)
    ensures Degenerate(Translate(r, v)) <==> Degenerate(r)
    ensures Centroid(Translate(r, v)) == Plus(Centroid(r), v)
  {
    hide CrossSum, MomentX, MomentY, Average, Translate;
    ClosedMoments(r, v);
    if Degenerate(r) {
      AverageTranslated(r, v);
    } else {
      Quotient(MomentX(r, |r| - 1), v.x, Area(r));
      Quotient(MomentY(r, |r| - 1), v.y, Area(r));
    }
  }

  /** The computed area survives every translation exactly when the ring is
      closed: on an open list the result depends on where the map's origin is. */
  lemma AreaTranslatesIffClosed(r: Ring)
    requires r != []
    ensures (forall v: Vec :: Area(Translate(r, v)) == Area(r)) <==> Closed(r)
  {
    hide Area, Translate, Turn;
    var first, last := r[0], r[|r| - 1];
    forall v: Vec ensures Area(Translate(r, v)) == Area(r) + Turn(v, first, last) / 2.0 {
      AreaTranslated(r, v);
    }
    if Closed(r) {
      forall v: Vec ensures Area(Translate(r, v)) == Area(r) {
        Turns(v, first, last);
      }
    } else {
      var v := if last.x != first.x then Vec(0.0, 1.0) else Vec(1.0, 0.0);
      Turns(v, first, last);
      assert Area(Translate(r, v)) != Area(r);
    }
  }

  lemma AreaTranslated(r: Ring, v: Vec)
    requires r != []
    ensures Area(Translate(r, v)) == Area(r) + Turn(v, r[0], r[|r| - 1]) / 2.0
  {
    hide CrossSum, Translate, Turn;
    CrossSumTranslated(r, v, |r| - 1);
  }

  // ---- reversal ----

  function Reverse(r: Ring): (b: Ring)
    ensures |b| == |r|
  {
    seq(|r|, i requires 0 <= i < |r| => r[|r| - 1 - i])
  }

  lemma {:induction false} ReversedSums(r: Ring, k: nat)
    requires k < |r|
    ensures CrossSum(Reverse(r), k) == CrossSum(r, |r| - 1 - k) - CrossSum(r, |r| - 1)
    ensures MomentX(Reverse(r), k) == MomentX(r, |r| - 1 - k) - MomentX(r, |r| - 1)
  {
    hide Cross, EdgeX;
    if k > 0 {
      ReversedSums(r, k - 1);
      var i := |r| - 1 - k;
      ReversedEdge(r[i], r[i + 1]);
      assert Reverse(r)[k - 1] == r[i + 1] && Reverse(r)[k] == r[i];
    }
  }

  lemma ReversedEdge(a: Vec, b: Vec)
    ensures Cross(b, a) == -Cross(a, b)
    ensures EdgeX(b, a) == -EdgeX(a, b)
  {
    NegatedProduct(a.x + b.x, Cross(a, b));
  }

  lemma {:induction false} ReversedTotals(r: Ring, k: nat)
    requires k <= |r|
    ensures SumX(Reverse(r), k) == SumX(r, |r|) - SumX(r, |r| - k)
    ensures SumY(Reverse(r), k) == SumY(r, |r|) - SumY(r, |r| - k)
  {
    if k > 0 {
      ReversedTotals(r, k - 1);
    }
  }

  lemma ReversedMoments(r: Ring)
    requires r != []
    ensures Area(Reverse(r)) == -Area(r)
    ensures MomentX(Reverse(r), |r| - 1) == -MomentX(r, |r| - 1)
    ensures MomentY(Reverse(r), |r| - 1) == -MomentY(r, |r| - 1)
  {
    hide Cross, Mirror, Reverse;
    ReversedSums(r, |r| - 1);
    ReversedSums(Mirror(r), |r| - 1);
    MirrorReverse(r);
    MirrorSums(r, |r| - 1);
    MirrorSums(Reverse(r), |r| - 1);
  }

  lemma MirrorReverse(r: Ring)
    ensures Mirror(Reverse(r)) == Reverse(Mirror(r))
  {
  }

  lemma NegatedQuotient(m: real, area: real)
    requires area != 0.0
    ensures -m / (6.0 * -area) == m / (6.0 * area)
  {
    var q := m / (6.0 * area);
    assert m == q * (6.0 * area);
    assert -m == q * (6.0 * -area);
  }

  /** The direction in which a ring is listed does not matter; this needs no
      closed ring. */
  lemma CentroidOfReverse(r: Ring)
    ensures Degenerate(Reverse(r)) <==> Degenerate(r)
    ensures Centroid(Reverse(r)) == Centroid(r)
  {
    hide CrossSum, MomentX, MomentY, Reverse;
    ReversedTotals(r, |r|);
    if r != [] {
      ReversedMoments(r);
      if !Degenerate(r) {
        NegatedQuotient(MomentX(r, |r| - 1), Area(r));
        NegatedQuotient(MomentY(r, |r| - 1), Area(r));
      }
    }
  }

  // ---- what the formula means ----

  /** Enough points and enough area for the shoelace formula. */
  ghost predicate RealArea(r: Ring) {
    |r| >= 3 && (Area(r) <= -0.0000000001 || 0.0000000001 <= Area(r))
  }

  /** Of fewer than three points the centroid is the mean. */
  lemma FewPoints(p: Vec, q: Vec)
    ensures Centroid([]) == Vec(0.0, 0.0) && Centroid([p]) == p
    ensures Centroid([p, q]) == Vec((p.x + q.x) / 2.0, (p.y + q.y) / 2.0)
  {
    assert SumX([p], 1) == SumX([p], 0) + p.x && SumY([p], 1) == SumY([p], 0) + p.y;
    var r := [p, q];
    assert SumX(r, 1) == SumX(r, 0) + p.x && SumY(r, 1) == SumY(r, 0) + p.y;
    assert SumX(r, 2) == SumX(r, 1) + q.x && SumY(r, 2) == SumY(r, 1) + q.y;
  }

  /** A triangle has the area half the cross product of two sides, and its
      centroid is the mean of the three corners; of a triangle without area it
      is the mean of the four points listed. */
  lemma TriangleCentroid(a: Vec, b: Vec, c: Vec)
    ensures var area := ((b.x - a.x) * (c.y - a.y) - (c.x - a.x) * (b.y - a.y)) / 2.0;
      Centroid([a, b, c, a]) ==
        if -0.0000000001 < area < 0.0000000001
        then Vec((a.x + b.x + c.x + a.x) / 4.0, (a.y + b.y + c.y + a.y) / 4.0)
        else Vec((a.x + b.x + c.x) / 3.0, (a.y + b.y + c.y) / 3.0)
  {
    hide CrossSum, MomentX, MomentY, Cross, Area, Average, SumX, SumY;
    TriangleArea(a, b, c);
    if Degenerate([a, b, c, a]) {
      FourPoints(a, b, c, a);
    } else {
      TriangleCorners(a, b, c);
    }
  }

  lemma TriangleArea(a: Vec, b: Vec, c: Vec)
    ensures Area([a, b, c, a]) == ((b.x - a.x) * (c.y - a.y) - (c.x - a.x) * (b.y - a.y)) / 2.0
  {
    var r := [a, b, c, a];
    assert CrossSum(r, 1) == CrossSum(r, 0) + Cross(a, b);
    assert CrossSum(r, 2) == CrossSum(r, 1) + Cross(b, c);
    assert CrossSum(r, 3) == CrossSum(r, 2) + Cross(c, a);
    AreaPolynomial(a.x, a.y, b.x, b.y, c.x, c.y);
  }

  lemma AreaPolynomial(a: real, p: real, b: real, q: real, c: real, r: real)
    ensures (a * q - b * p) + (b * r - c * q) + (c * p - a * r) == (b - a) * (r - p) - (c - a) * (q - p)
  {
  }

  lemma FourPoints(a: Vec, b: Vec, c: Vec, d: Vec)
    ensures Average([a, b, c, d]) == Vec((a.x + b.x + c.x + d.x) / 4.0, (a.y + b.y + c.y + d.y) / 4.0)
  {
    var r := [a, b, c, d];
    assert SumX(r, 1) == SumX(r, 0) + a.x && SumY(r, 1) == SumY(r, 0) + a.y;
    assert SumX(r, 2) == SumX(r, 1) + b.x && SumY(r, 2) == SumY(r, 1) + b.y;
    assert SumX(r, 3) == SumX(r, 2) + c.x && SumY(r, 3) == SumY(r, 2) + c.y;
    assert SumX(r, 4) == SumX(r, 3) + d.x && SumY(r, 4) == SumY(r, 3) + d.y;
  }

  lemma TriangleCorners(a: Vec, b: Vec, c: Vec)
    requires !Degenerate([a, b, c, a])
    ensures Centroid([a, b, c, a]) == Vec((a.x + b.x + c.x) / 3.0, (a.y + b.y + c.y) / 3.0)
  {
    hide CrossSum, MomentX, MomentY, Degenerate, Cross;
    var r := [a, b, c, a];
    AreaNotZero(r);
    MirrorTriangle(a, b, c);
    TriangleMoment(a, b, c);
    TriangleMoment(Vec(a.y, a.x), Vec(b.y, b.x), Vec(c.y, c.x));
    MirrorSums(r, 3);
    NegatedProduct(a.y + b.y + c.y, CrossSum(r, 3));
    Thirds(a.x + b.x + c.x, Area(r));
    Thirds(a.y + b.y + c.y, Area(r));
  }

  lemma AreaNotZero(r: Ring)
    requires !Degenerate(r)
    ensures r != [] && Area(r) != 0.0
  {
  }

  lemma MirrorTriangle(a: Vec, b: Vec, c: Vec)
    ensures Mirror([a, b, c, a]) == [Vec(a.y, a.x), Vec(b.y, b.x), Vec(c.y, c.x), Vec(a.y, a.x)]
  {
  }

  lemma TriangleMoment(a: Vec, b: Vec, c: Vec)
    ensures MomentX([a, b, c, a], 3) == (a.x + b.x + c.x) * CrossSum([a, b, c, a], 3)
  {
    var r := [a, b, c, a];
    assert CrossSum(r, 3) == Cross(a, b) + Cross(b, c) + Cross(c, a) by {
      assert CrossSum(r, 1) == Cross(a, b);
      assert CrossSum(r, 2) == Cross(a, b) + Cross(b, c);
    }
    assert MomentX(r, 3) == EdgeX(a, b) + EdgeX(b, c) + EdgeX(c, a) by {
      assert MomentX(r, 1) == EdgeX(a, b);
      assert MomentX(r, 2) == EdgeX(a, b) + EdgeX(b, c);
    }
    TrianglePolynomial(a.x, a.y, b.x, b.y, c.x, c.y);
  }

  lemma TrianglePolynomial(a: real, p: real, b: real, q: real, c: real, r: real)
    ensures (a + b) * (a * q - b * p) + (b + c) * (b * r - c * q) + (c + a) * (c * p - a * r)
      == (a + b + c) * ((a * q - b * p) + (b * r - c * q) + (c * p - a * r))
  {
  }

  lemma Thirds(s: real, area: real)
    requires area != 0.0
    ensures s * (2.0 * area) / (6.0 * area) == s / 3.0
  {
    assert s * (2.0 * area) == (s / 3.0) * (6.0 * area);
  }

  /** The two pieces a chord from the first point cuts a ring into. */
  function Before(r: Ring, k: nat): Ring
    requires k < |r|
  {
    r[..k + 1] + [r[0]]
  }

  function After(r: Ring, k: nat): Ring
    requires k < |r|
  {
    [r[0]] + r[k..]
  }

  lemma {:induction false} PrefixSums(r: Ring, s: Ring, k: nat)
    requires k < |r| && k < |s| && r[..k + 1] == s[..k + 1]
    ensures CrossSum(r, k) == CrossSum(s, k) && MomentX(r, k) == MomentX(s, k)
  {
    if k > 0 {
      assert r[..k] == r[..k + 1][..k] && s[..k] == s[..k + 1][..k];
      assert r[k] == r[..k + 1][k] && s[k] == s[..k + 1][k];
      assert r[k - 1] == r[..k + 1][k - 1] && s[k - 1] == s[..k + 1][k - 1];
      PrefixSums(r, s, k - 1);
    }
  }

  lemma {:induction false} AfterSums(r: Ring, k: nat, j: nat)
    requires k + j < |r|
    ensures CrossSum(After(r, k), j + 1) == Cross(r[0], r[k]) + CrossSum(r, k + j) - CrossSum(r, k)
    ensures MomentX(After(r, k), j + 1) == EdgeX(r[0], r[k]) + MomentX(r, k + j) - MomentX(r, k)
  {
    hide Cross, EdgeX;
    var s := After(r, k);
    assert s[j] == if j == 0 then r[0] else r[k + j - 1];
    assert s[j + 1] == r[k + j];
    if j > 0 {
      AfterSums(r, k, j - 1);
    } else {
      assert CrossSum(s, 0) == 0.0 && MomentX(s, 0) == 0.0;
    }
  }

  lemma BeforeSums(r: Ring, k: nat)
    requires k < |r|
    ensures CrossSum(Before(r, k), k + 1) == CrossSum(r, k) + Cross(r[k], r[0])
    ensures MomentX(Before(r, k), k + 1) == MomentX(r, k) + EdgeX(r[k], r[0])
  {
    hide Cross, EdgeX;
    var s := Before(r, k);
    assert s[..k + 1] == r[..k + 1];
    PrefixSums(r, s, k);
    assert s[k] == r[k] && s[k + 1] == r[0];
  }

  lemma CutAddsSums(r: Ring, k: nat)
    requires k < |r|
    ensures CrossSum(Before(r, k), k + 1) + CrossSum(After(r, k), |r| - k) == CrossSum(r, |r| - 1)
    ensures MomentX(Before(r, k), k + 1) + MomentX(After(r, k), |r| - k) == MomentX(r, |r| - 1)
  {
    hide Cross, EdgeX, CrossSum, MomentX, Before, After;
    Pieces(r, k);
    BeforeSums(r, k);
    AfterSums(r, k, |r| - 1 - k);
    ReversedEdge(r[0], r[k]);
  }

  lemma Undivide(m: real, area: real)
    requires area != 0.0
    ensures area * (m / (6.0 * area)) == m / 6.0
  {
    var q := m / (6.0 * area);
    assert m == q * (6.0 * area);
    assert area * q == m / 6.0;
  }

  lemma AreaTimesCentroid(r: Ring)
    requires !Degenerate(r)
    ensures Area(r) * Centroid(r).x == MomentX(r, |r| - 1) / 6.0
  {
    hide CrossSum, MomentX, MomentY;
    Undivide(MomentX(r, |r| - 1), Area(r));
  }

  lemma CutAddsX(r: Ring, k: nat)
    requires k < |r|
    requires !Degenerate(r) && !Degenerate(Before(r, k)) && !Degenerate(After(r, k))
    ensures Area(r) * Centroid(r).x
         == Area(Before(r, k)) * Centroid(Before(r, k)).x + Area(After(r, k)) * Centroid(After(r, k)).x
  {
    hide CrossSum, MomentX, MomentY, Before, After, Area, Centroid, Degenerate;
    Pieces(r, k);
    CutAddsSums(r, k);
    AreaTimesCentroid(r);
    AreaTimesCentroid(Before(r, k));
    AreaTimesCentroid(After(r, k));
  }

  lemma MirrorProduct(r: Ring)
    requires !Degenerate(r)
    ensures Mirror(r) != [] && !Degenerate(Mirror(r))
    ensures Area(Mirror(r)) * Centroid(Mirror(r)).x == -(Area(r) * Centroid(r).y)
  {
    hide CrossSum, MomentX, MomentY, Mirror, Centroid;
    MirrorCentroid(r);
    MirrorSums(r, |r| - 1);
    NegatedProduct(Centroid(r).y, Area(r));
  }

  lemma CutAddsY(r: Ring, k: nat)
    requires k < |r|
    requires !Degenerate(r) && !Degenerate(Before(r, k)) && !Degenerate(After(r, k))
    ensures Area(r) * Centroid(r).y
         == Area(Before(r, k)) * Centroid(Before(r, k)).y + Area(After(r, k)) * Centroid(After(r, k)).y
  {
    hide Area, Mirror, Before, After, Centroid, Degenerate;
    Pieces(r, k);
    MirrorProduct(r);
    MirrorProduct(Before(r, k));
    MirrorProduct(After(r, k));
    CutAddsX(Mirror(r), k);
  }

  /** Cutting a ring along a chord splits its area and, weighted by area, its
      centroid. Together with the triangle this fixes the formula. */
  lemma CutAddsCentroids(r: Ring, k: nat)
    requires k < |r|
    ensures Area(Before(r, k)) + Area(After(r, k)) == Area(r)
    ensures RealArea(r) && RealArea(Before(r, k)) && RealArea(After(r, k)) ==>
      && Area(r) * Centroid(r).x
         == Area(Before(r, k)) * Centroid(Before(r, k)).x + Area(After(r, k)) * Centroid(After(r, k)).x
      && Area(r) * Centroid(r).y
         == Area(Before(r, k)) * Centroid(Before(r, k)).y + Area(After(r, k)) * Centroid(After(r, k)).y
  {
    hide Area, Before, After, Centroid;
    CutAddsAreas(r, k);
    if RealArea(r) && RealArea(Before(r, k)) && RealArea(After(r, k)) {
      CutAddsX(r, k);
      CutAddsY(r, k);
    }
  }

  lemma CutAddsAreas(r: Ring, k: nat)
    requires k < |r|
    ensures Area(Before(r, k)) + Area(After(r, k)) == Area(r)
  {
    hide CrossSum, MomentX, MomentY, Before, After;
    Pieces(r, k);
    CutAddsSums(r, k);
  }

  lemma Pieces(r: Ring, k: nat)
    requires k < |r|
    ensures |Before(r, k)| == k + 2 && |After(r, k)| == |r| - k + 1
    ensures Mirror(Before(r, k)) == Before(Mirror(r), k) && Mirror(After(r, k)) == After(Mirror(r), k)
  {
  }
}
