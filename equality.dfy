/** GeometryPointEquality: two geometries are equal when they are the same variant,
    share a CRS and hold the same positions in the same order in every part. */
module GeometryEquality {
  import opened Wrappers
  import opened Coordinates
  import opened Geometries

  /** Two positions are point-wise equal when they have the same type and the same
      ordinates. */
  function SamePosition(p: Position, q: Position): (r: bool)
    ensures r <==> p == q
  {
    var a, b := Ordinates(p), Ordinates(q);
    var eq := p.Cap() == q.Cap() && a == b;
    assert eq ==> a[0] == b[0] && a[1] == b[1];
    assert eq && p.z.Some? ==> a[2] == b[2];
    assert eq && p.m.Some? ==> a[|a| - 1] == b[|b| - 1];
    eq
  }

  /** Position lists compared position by position, in order. */
  function SamePositions(s: seq<Position>, t: seq<Position>): (r: bool)
    ensures r <==> s == t
  {
    |s| == |t| && forall i :: 0 <= i < |s| ==> SamePosition(s[i], t[i])
  }

  /** Ring (or line) lists compared part by part, in order. */
  function SameParts(s: seq<seq<Position>>, t: seq<seq<Position>>): (r: bool)
    ensures r <==> s == t
  {
    |s| == |t| && forall i :: 0 <= i < |s| ==> SamePositions(s[i], t[i])
  }

  function SamePolygons(s: seq<seq<seq<Position>>>, t: seq<seq<seq<Position>>>): (r: bool)
    ensures r <==> s == t
  {
    |s| == |t| && forall i :: 0 <= i < |s| ==> SameParts(s[i], t[i])
  }

  /** Same variant, same CRS, and the same positions part by part. */
  function SameGeometry(g: Geometry, h: Geometry): (r: bool)
    ensures r <==> g == h
  {
    g.crs == h.crs &&
    match (g, h)
    case (Point(_, p), Point(_, q)) =>
      (p.None? && q.None?) || (p.Some? && q.Some? && SamePosition(p.value, q.value))
    case (LineString(_, s), LineString(_, t)) => SamePositions(s, t)
    case (LinearRing(_, s), LinearRing(_, t)) => SamePositions(s, t)
    case (Polygon(_, s), Polygon(_, t)) => SameParts(s, t)
    case (MultiPoint(_, s), MultiPoint(_, t)) => SamePositions(s, t)
    case (MultiLineString(_, s), MultiLineString(_, t)) => SameParts(s, t)
    case (MultiPolygon(_, s), MultiPolygon(_, t)) => SamePolygons(s, t)
    case _ => false
  }

  /** GeometryPointEquality.equals: two nulls are equal, a null never equals a
      geometry, and two geometries are compared point-wise. Point-wise equality
      coincides with structural equality of the geometry values. */
  function PointEquals(a: Option<Geometry>, b: Option<Geometry>): (r: bool)
    ensures r <==> a == b
  {
    match (a, b)
    case (None, None) => true
    case (Some(g), Some(h)) => SameGeometry(g, h)
    case _ => false
  }

  /** Point-wise equality is an equivalence relation. */
  lemma PointEqualsIsEquivalence(a: Option<Geometry>, b: Option<Geometry>, c: Option<Geometry>)
    ensures PointEquals(a, a)
    ensures PointEquals(a, b) == PointEquals(b, a)
    ensures PointEquals(a, b) && PointEquals(b, c) ==> PointEquals(a, c)
  {
  }

  /** A geometry is never equal to null, and a Polygon is never equal to a Point. */
  lemma NullAndVariantInequality(g: Geometry, pg: Geometry, pt: Geometry)
    requires pg.Polygon? && pt.Point?
    ensures !PointEquals(Some(g), None) && !PointEquals(None, Some(g))
    ensures !PointEquals(Some(pg), Some(pt)) && !PointEquals(Some(pt), Some(pg))
  {
  }

  /** Ring i of the two arrays holds different positions at index j. */
  predicate RingsDifferAt(rings1: seq<Geometry>, rings2: seq<Geometry>, i: int, j: int)
  {
    && 0 <= i < |rings1| && i < |rings2|
    && rings1[i].LinearRing? && rings2[i].LinearRing?
    && 0 <= j < |rings1[i].points| && j < |rings2[i].points|
    && rings1[i].points[j] != rings2[i].points[j]
  }

  /** Polygons built from rings with the same CRS and coordinate-identical position
      sequences are equal, in both directions; if some ring differs at some
      position, they are unequal in both directions. */
  lemma {:induction false} PolygonEqualityFromRings(rings1: seq<Geometry>, rings2: seq<Geometry>)
    requires forall i :: 0 <= i < |rings1| ==> rings1[i].LinearRing? && IsRing(rings1[i].points)
    requires forall i :: 0 <= i < |rings2| ==> rings2[i].LinearRing? && IsRing(rings2[i].points)
    requires MakePolygon(rings1).Ok? && MakePolygon(rings2).Ok?
    requires |rings1| == |rings2| && rings1[0].crs == rings2[0].crs
    ensures (forall i :: 0 <= i < |rings1| ==> rings1[i].points == rings2[i].points) ==>
      PointEquals(Some(MakePolygon(rings1).value), Some(MakePolygon(rings2).value)) &&
      PointEquals(Some(MakePolygon(rings2).value), Some(MakePolygon(rings1).value))
    ensures forall i, j :: RingsDifferAt(rings1, rings2, i, j) ==>
      !PointEquals(Some(MakePolygon(rings1).value), Some(MakePolygon(rings2).value)) &&
      !PointEquals(Some(MakePolygon(rings2).value), Some(MakePolygon(rings1).value))
  {
    var p1, p2 := MakePolygon(rings1).value, MakePolygon(rings2).value;
    if forall i :: 0 <= i < |rings1| ==> rings1[i].points == rings2[i].points {
      assert p1.rings == p2.rings;
    }
    forall i, j | RingsDifferAt(rings1, rings2, i, j)
      ensures p1 != p2
    {
      assert p1.rings[i][j] != p2.rings[i][j];
    }
  }
}
