/** GeoJSON geometries (section 3.1 of RFC 7946) and the coordinates they hold. */
module Geometry {
  import opened Decimals

  datatype Coord = Coord(lon: Num, lat: Num)

  datatype Geometry =
    | Point(at: Coord)
    | LineString(line: seq<Coord>)
    | MultiPoint(points: seq<Coord>)
    | Polygon(rings: seq<seq<Coord>>)
    | MultiLineString(lines: seq<seq<Coord>>)
    | MultiPolygon(polygons: seq<seq<seq<Coord>>>)
    | Collection(members: seq<Geometry>)

  function Concat<T>(ss: seq<seq<T>>): seq<T> {
    if ss == [] then [] else ss[0] + Concat(ss[1..])
  }

  lemma {:induction false} ConcatSplits<T>(a: seq<seq<T>>, b: seq<seq<T>>)
    ensures Concat(a + b) == Concat(a) + Concat(b)
  {
    if a == [] {
      assert a + b == b;
    } else {
      ConcatSplits(a[1..], b);
      assert (a + b)[1..] == a[1..] + b && (a + b)[0] == a[0];
      assert a[0] + (Concat(a[1..]) + Concat(b)) == (a[0] + Concat(a[1..])) + Concat(b);
    }
  }

  lemma ConcatOne<T>(s: seq<T>)
    ensures Concat([s]) == s
  {
    assert [s][1..] == [];
  }

  lemma {:induction false} ConcatTwice<T>(sss: seq<seq<seq<T>>>)
    ensures Concat(Concat(sss)) == ConcatEach(sss)
  {
    if sss != [] {
      ConcatTwice(sss[1..]);
      ConcatSplits(sss[0], Concat(sss[1..]));
    }
  }

  function ConcatEach<T>(sss: seq<seq<seq<T>>>): seq<T> {
    if sss == [] then [] else Concat(sss[0]) + ConcatEach(sss[1..])
  }

  /** Every coordinate of a geometry in document order, collections included. */
  function Flatten(g: Geometry): seq<Coord>
    decreases g, 0
  {
    match g
    case Point(at) => [at]
    case LineString(line) => line
    case MultiPoint(points) => points
    case Polygon(rings) => Concat(rings)
    case MultiLineString(lines) => Concat(lines)
    case MultiPolygon(polygons) => ConcatEach(polygons)
    case Collection(members) => FlattenMembers(members)
  }

  function FlattenMembers(members: seq<Geometry>): seq<Coord>
    decreases members, 1
  {
    if members == [] then [] else Flatten(members[0]) + FlattenMembers(members[1..])
  }
}
