/** The scenarios of the Polygon unit tests: rings built with a variable-size
    builder, polygons constructed from them, and point-wise equality. */
module PolygonExamples {
  import opened Wrappers
  import opened Coordinates
  import opened Geometries
  import opened Builders
  import opened GeometryEquality

  const p2d := Capability(false, false)

  /** A 2D position. */
  function P(x: real, y: real): Position { Position(x, y, None, None) }

  /** A variable-size builder of 2D positions fed one `add(x, y)` per pair. */
  method Sequence(coords: seq<seq<real>>) returns (ps: seq<Position>)
    requires forall i :: 0 <= i < |coords| ==> |coords[i]| == 2
    ensures |ps| == |coords|
    ensures forall i :: 0 <= i < |coords| ==> ps[i] == P(coords[i][0], coords[i][1])
  {
    var r := BuildVariable(p2d, coords);
    ps := r.value;
    forall i | 0 <= i < |coords|
      ensures ps[i] == P(coords[i][0], coords[i][1])
    {
      assert ps[i].Cap() == p2d && Ordinates(ps[i]) == coords[i];
    }
  }

  /** A closed 2D ring of five positions whose first and last pairs agree. */
  method Ring(crs: Crs, coords: seq<seq<real>>) returns (ring: Geometry)
    requires |coords| == 5 && forall i :: 0 <= i < 5 ==> |coords[i]| == 2
    requires coords[0] == coords[4]
    ensures ring.LinearRing? && ring.crs == crs && IsRing(ring.points) && ring.points != []
    ensures |ring.points| == 5
    ensures forall i :: 0 <= i < 5 ==> ring.points[i] == P(coords[i][0], coords[i][1])
  {
    var ps := Sequence(coords);
    ring := MakeLinearRing(crs, ps).value;
  }

  /** An empty shell, and a non-empty shell with an empty hole, are both refused. */
  lemma EmptyRingsRefused(crs: Crs, shell: seq<Position>)
    requires IsRing(shell) && shell != []
    ensures MakePolygon([LinearRing(crs, [])]) == Err(EmptyRing)
    ensures MakePolygon([LinearRing(crs, shell), LinearRing(crs, [])]) == Err(EmptyRing)
  {
    var rings := [LinearRing(crs, shell), LinearRing(crs, [])];
    assert rings[1].points == [];
  }

  /** The rings of the test's three polygons, built as the test builds them:
      the first two from identical coordinates, the third with another shell. */
  method TestRings(crs: Crs) returns (rings1: seq<Geometry>, rings2: seq<Geometry>, rings3: seq<Geometry>)
    ensures |rings1| == |rings2| == |rings3| == 2
    ensures forall i :: 0 <= i < 2 ==> rings1[i].LinearRing? && IsRing(rings1[i].points) && rings1[i].points != [] && rings1[i].crs == crs
    ensures forall i :: 0 <= i < 2 ==> rings2[i].LinearRing? && IsRing(rings2[i].points) && rings2[i].points != [] && rings2[i].crs == crs
    ensures forall i :: 0 <= i < 2 ==> rings3[i].LinearRing? && IsRing(rings3[i].points) && rings3[i].points != [] && rings3[i].crs == crs
    ensures forall i :: 0 <= i < 2 ==> rings1[i].points == rings2[i].points
    ensures RingsDifferAt(rings1, rings3, 0, 0)
  {
    var shellCoords := [[0.0, 0.0], [10.0, 0.0], [10.0, 10.0], [0.0, 10.0], [0.0, 0.0]];
    var innerCoords := [[1.0, 1.0], [9.0, 1.0], [9.0, 9.0], [1.0, 9.0], [1.0, 1.0]];
    var shell3Coords := [[1.0, 1.0], [10.0, 0.0], [10.0, 10.0], [0.0, 10.0], [1.0, 1.0]];
    var shell1 := Ring(crs, shellCoords);
    var inner1 := Ring(crs, innerCoords);
    var shell2 := Ring(crs, shellCoords);
    var inner2 := Ring(crs, innerCoords);
    var shell3 := Ring(crs, shell3Coords);
    assert shell1.points[0] == P(0.0, 0.0) && shell3.points[0] == P(1.0, 1.0);
    rings1, rings2, rings3 := [shell1, inner1], [shell2, inner2], [shell3, inner2];
  }

  /** The equality test: a polygon equals itself and one built from identical
      coordinates, in both directions; it differs from one whose shell starts
      elsewhere, from null and from a point; two nulls are equal. */
  method PolygonEquality(crs: Crs) returns (self: bool, nulls: bool, withNull: bool,
      oneTwo: bool, twoOne: bool, oneThree: bool, threeOne: bool, withPoint: bool)
    ensures self && nulls && !withNull
    ensures oneTwo && twoOne
    ensures !oneThree && !threeOne && !withPoint
  {
    var rings1, rings2, rings3 := TestRings(crs);
    var polygon1 := MakePolygon(rings1).value;
    var polygon2 := MakePolygon(rings2).value;
    var polygon3 := MakePolygon(rings3).value;

    self := PointEquals(Some(polygon1), Some(polygon1));
    nulls := PointEquals(None, None);
    withNull := PointEquals(Some(polygon1), None);

    PolygonEqualityFromRings(rings1, rings2);
    oneTwo := PointEquals(Some(polygon1), Some(polygon2));
    twoOne := PointEquals(Some(polygon2), Some(polygon1));

    PolygonEqualityFromRings(rings1, rings3);
    oneThree := PointEquals(Some(polygon1), Some(polygon3));
    threeOne := PointEquals(Some(polygon3), Some(polygon1));

    withPoint := PointEquals(Some(polygon1), Some(Point(crs, Some(P(1.0, 2.0)))));
  }
}
