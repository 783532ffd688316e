/** The geometry variants, their structural invariants and their envelopes. */
module Geometries {
  import opened Wrappers
  import opened Coordinates

  /** The closed set of geometry variants. Every variant carries the CRS shared by
      all its parts; a Polygon's first ring is its shell, the others are its holes. */
  datatype Geometry =
    | Point(crs: Crs, position: Option<Position>)
    | LineString(crs: Crs, points: seq<Position>)
    | LinearRing(crs: Crs, points: seq<Position>)
    | Polygon(crs: Crs, rings: seq<seq<Position>>)
    | MultiPoint(crs: Crs, points: seq<Position>)
    | MultiLineString(crs: Crs, lines: seq<seq<Position>>)
    | MultiPolygon(crs: Crs, polygons: seq<seq<seq<Position>>>)

  /** Concatenation of position lists, in order. */
  function Flatten(parts: seq<seq<Position>>): seq<Position>
  {
    if parts == [] then [] else parts[0] + Flatten(parts[1..])
  }

  /** Every position of a flattened list comes from one of the parts, and back. */
  lemma {:induction false} FlattenMembership(parts: seq<seq<Position>>, p: Position)
    ensures p in Flatten(parts) <==> exists k :: 0 <= k < |parts| && p in parts[k]
  {
    if parts != [] {
      FlattenMembership(parts[1..], p);
      if p in Flatten(parts[1..]) {
        var k :| 0 <= k < |parts[1..]| && p in parts[1..][k];
        assert p in parts[k + 1];
      }
      if exists k :: 0 <= k < |parts| && p in parts[k] {
        var k :| 0 <= k < |parts| && p in parts[k];
        if k > 0 { assert p in parts[1..][k - 1]; }
      }
    }
  }

  /** The position lists of a geometry in traversal order: one list per line or
      ring, the points of a MultiPoint as one list, a Point as at most one list. */
  function Parts(g: Geometry): seq<seq<Position>>
  {
    match g
    case Point(_, p) => if p.Some? then [[p.value]] else []
    case LineString(_, ps) => [ps]
    case LinearRing(_, ps) => [ps]
    case Polygon(_, rs) => rs
    case MultiPoint(_, ps) => [ps]
    case MultiLineString(_, ls) => ls
    case MultiPolygon(_, pgs) => FlattenRings(pgs)
  }

  function FlattenRings(pgs: seq<seq<seq<Position>>>): seq<seq<Position>>
  {
    if pgs == [] then [] else pgs[0] + FlattenRings(pgs[1..])
  }

  /** All positions of a geometry, in traversal order. */
  function Positions(g: Geometry): seq<Position>
  {
    Flatten(Parts(g))
  }

  predicate IsEmpty(g: Geometry) { Positions(g) == [] }

  predicate IsLineal(g: Geometry) { g.LineString? || g.LinearRing? || g.MultiLineString? }

  /** Every position has the position type of the geometry's CRS (the library's
      generic parameter P guarantees this statically). */
  predicate WellTyped(g: Geometry)
  {
    forall p :: p in Positions(g) ==> p.Cap() == g.crs.Cap()
  }

  /** Every position carries a measure (the library's `P extends Measured`). */
  predicate Measured(g: Geometry)
  {
    forall p :: p in Positions(g) ==> p.m.Some?
  }

  /** A LinearRing is empty, or closed with at least four positions. */
  predicate IsRing(ps: seq<Position>)
  {
    ps == [] || (|ps| >= 4 && ps[0] == ps[|ps| - 1])
  }

  /** The LinearRing constructor: refuses a non-empty open or too-short sequence. */
  function MakeLinearRing(crs: Crs, ps: seq<Position>): (r: Result<Geometry>)
    ensures r.Ok? <==> IsRing(ps)
    ensures r.Ok? ==> r.value.LinearRing? && r.value.crs == crs && r.value.points == ps
    ensures r.Err? ==> r.error == InvalidRing
  {
    if IsRing(ps) then Ok(LinearRing(crs, ps)) else Err(InvalidRing)
  }

  /** The Polygon invariant: a non-empty shell, non-empty holes, all rings closed. */
  predicate ValidPolygon(g: Geometry)
  {
    g.Polygon? && |g.rings| > 0 && forall i :: 0 <= i < |g.rings| ==> g.rings[i] != [] && IsRing(g.rings[i])
  }

  /** The Polygon constructor over an array of LinearRings (shell first). An empty
      shell, a missing shell or an empty hole is refused; so are rings whose CRS
      differs from the shell's. */
  function MakePolygon(rings: seq<Geometry>): (r: Result<Geometry>)
    requires forall i :: 0 <= i < |rings| ==> rings[i].LinearRing? && IsRing(rings[i].points)
    ensures r.Ok? <==>
      && |rings| > 0
      && (forall i :: 0 <= i < |rings| ==> rings[i].points != [])
      && (forall i :: 0 <= i < |rings| ==> rings[i].crs == rings[0].crs)
    ensures (|rings| == 0 || exists i :: 0 <= i < |rings| && rings[i].points == []) ==> r == Err(EmptyRing)
    ensures r.Ok? ==> ValidPolygon(r.value) && r.value.crs == rings[0].crs
    ensures r.Ok? ==> |r.value.rings| == |rings|
    ensures r.Ok? ==> forall i :: 0 <= i < |rings| ==> r.value.rings[i] == rings[i].points
  {
    if |rings| == 0 || rings[0].points == [] then Err(EmptyRing)
    else if exists i :: 1 <= i < |rings| && rings[i].points == [] then Err(EmptyRing)
    else if exists i :: 1 <= i < |rings| && rings[i].crs != rings[0].crs then Err(CrsMismatch)
    else Ok(Polygon(rings[0].crs, seq(|rings|, i requires 0 <= i < |rings| => rings[i].points)))
  }

  /** The bounding box of a non-empty position list: it contains every position,
      and each of its four edges is touched by some position. */
  function Bounds(ps: seq<Position>, crs: Crs): (r: Envelope)
    requires |ps| > 0
    ensures r.crs == crs && r.WellFormed()
    ensures forall i :: 0 <= i < |ps| ==> r.Contains(ps[i])
    ensures exists i :: 0 <= i < |ps| && ps[i].x == r.minX
    ensures exists i :: 0 <= i < |ps| && ps[i].y == r.minY
    ensures exists i :: 0 <= i < |ps| && ps[i].x == r.maxX
    ensures exists i :: 0 <= i < |ps| && ps[i].y == r.maxY
  {
    if |ps| == 1 then Envelope(ps[0].x, ps[0].y, ps[0].x, ps[0].y, crs)
    else
      var b := Bounds(ps[1..], crs);
      var r := Envelope(Min(ps[0].x, b.minX), Min(ps[0].y, b.minY),
                        Max(ps[0].x, b.maxX), Max(ps[0].y, b.maxY), crs);
      assert forall i :: 1 <= i < |ps| ==> ps[i] == ps[1..][i - 1];
      r
  }

  function Min(a: real, b: real): real { if a <= b then a else b }
  function Max(a: real, b: real): real { if a >= b then a else b }

  /** The envelope of a non-empty geometry. */
  function BoundingBox(g: Geometry): (r: Envelope)
    requires !IsEmpty(g)
    ensures r.crs == g.crs && r.WellFormed()
    ensures forall p :: p in Positions(g) ==> r.Contains(p)
    ensures forall e: Envelope :: r.Within(e) <==> forall p :: p in Positions(g) ==> e.Contains(p)
  {
    var ps := Positions(g);
    var r := Bounds(ps, g.crs);
    assert forall e: Envelope :: (forall p :: p in ps ==> e.Contains(p)) ==> r.Within(e) by {
      forall e: Envelope | forall p :: p in ps ==> e.Contains(p)
        ensures r.Within(e)
      {
        var i0 :| 0 <= i0 < |ps| && ps[i0].x == r.minX;
        var i1 :| 0 <= i1 < |ps| && ps[i1].y == r.minY;
        var i2 :| 0 <= i2 < |ps| && ps[i2].x == r.maxX;
        var i3 :| 0 <= i3 < |ps| && ps[i3].y == r.maxY;
        assert e.Contains(ps[i0]) && e.Contains(ps[i1]) && e.Contains(ps[i2]) && e.Contains(ps[i3]);
      }
    }
    r
  }
}
