/** The fixtures of the measure unit tests, evaluated on the model. */
module MeasureExamples {
  import opened Wrappers
  import opened Coordinates
  import opened Geometries
  import opened Segments
  import opened Measures

  function Abs(a: real): real { if a < 0.0 then -a else a }

  /** On segments parallel to an axis, as all segments of these fixtures are, the
      planar Euclidean length is |dx| + |dy|. */
  function AxisLength(p: Position, q: Position): (r: real)
    ensures 0.0 <= r
    ensures p == q ==> r == 0.0
  {
    Abs(q.x - p.x) + Abs(q.y - p.y)
  }

  const axisLength: Distance := (p: Position, q: Position) => AxisLength(p, q)

  const crs := Crs(-1, false, false)
  const crsM := Crs(-1, false, true)

  function P(x: real, y: real): Position { Position(x, y, None, None) }
  function PM(x: real, y: real, m: real): Position { Position(x, y, None, Some(m)) }

  /** The fixture line (0,0) (1,0) (1,1) (2,1), unmeasured. */
  predicate IsFixtureLine(ps: seq<Position>)
  {
    ps == [P(0.0, 0.0), P(1.0, 0.0), P(1.0, 1.0), P(2.0, 1.0)]
  }

  /** Along a path of unit steps, the path length up to position i is i. */
  lemma {:induction false} UnitSteps(dist: Distance, s: seq<Position>, i: nat)
    requires i < |s|
    requires forall j :: 0 < j < |s| ==> dist(s[j - 1], s[j]) == 1.0
    ensures PathLength(dist, s[..i + 1]) == i as real
  {
    PathLengthStep(dist, s, i);
    if i > 0 {
      UnitSteps(dist, s, i - 1);
    }
  }

  /** The fixture line has unit steps. */
  lemma LineSteps(ps: seq<Position>)
    requires IsFixtureLine(ps)
    ensures forall j :: 0 < j < |ps| ==> axisLength(ps[j - 1], ps[j]) == 1.0
  {
    assert forall j :: 0 < j < |ps| ==> AxisLength(ps[j - 1], ps[j]) == 1.0;
  }

  /** measureOnLength on a LineString of unit steps: position i gets seed + i. */
  lemma UnitStepMeasures(dist: Distance, ps: seq<Position>, c: Crs, target: MeasuredType, keep: bool, i: nat)
    requires MeasureOnLength(dist, Some(LineString(c, ps)), target, keep).Ok?
    requires i < |ps|
    requires forall j :: 0 < j < |ps| ==> dist(ps[j - 1], ps[j]) == 1.0
    ensures var out := MeasureOnLength(dist, Some(LineString(c, ps)), target, keep).value;
      && Parts(out) != [] && i < |Parts(out)[0]|
      && Parts(out)[0][i] == WithMeasure(ps[i], Seed(LineString(c, ps), keep) + i as real)
  {
    var line := LineString(c, ps);
    assert Parts(line) == [ps] && Parts(line)[..0] == [];
    assert Positions(line) == ps by { assert Flatten([ps]) == ps + Flatten([]); }
    UnitSteps(dist, ps, i);
    MeasureOnLengthValues(dist, line, target, keep, 0, i);
  }

  /** measureOnLength on a non-empty LineString of unit steps is the LineString
      whose position i is position i of the input with measure seed + i. */
  lemma UnitStepLine(dist: Distance, ps: seq<Position>, c: Crs, target: MeasuredType, keep: bool, ms: seq<Position>)
    requires target.Vertical() == c.vertical && ps != []
    requires forall j :: 0 < j < |ps| ==> dist(ps[j - 1], ps[j]) == 1.0
    requires |ms| == |ps| && forall i :: 0 <= i < |ps| ==> ms[i] == WithMeasure(ps[i], Seed(LineString(c, ps), keep) + i as real)
    ensures MeasureOnLength(dist, Some(LineString(c, ps)), target, keep) == Ok(LineString(MeasuredCrs(c), ms))
  {
    var line := LineString(c, ps);
    assert !IsEmpty(line) by { assert ps[0] in Positions(line); }
    var out := MeasureOnLength(dist, Some(line), target, keep).value;
    forall i | 0 <= i < |ps|
      ensures out.points[i] == ms[i]
    {
      UnitStepMeasures(dist, ps, c, target, keep, i);
    }
    assert out.points == ms;
  }

  /** The fixture line measured: (0,0 m0) (1,0 m1) (1,1 m2) (2,1 m3). */
  predicate IsMeasuredLine(ms: seq<Position>)
  {
    ms == [PM(0.0, 0.0, 0.0), PM(1.0, 0.0, 1.0), PM(1.0, 1.0, 2.0), PM(2.0, 1.0, 3.0)]
  }

  /** measureOnLength on the line (0,0) (1,0) (1,1) (2,1): measures 0, 1, 2, 3, in
      the measured CRS. */
  lemma MeasuredLine(ps: seq<Position>, ms: seq<Position>)
    requires IsFixtureLine(ps) && IsMeasuredLine(ms)
    ensures MeasureOnLength(axisLength, Some(LineString(crs, ps)), MeasuredType.P2DM, false) == Ok(LineString(crsM, ms))
  {
    LineSteps(ps);
    assert Seed(LineString(crs, ps), false) == 0.0;
    UnitStepLine(axisLength, ps, crs, MeasuredType.P2DM, false, ms);
  }

  /** The seed, the length of the first component and the measure of position i
      of the second one, for two components of unit steps. */
  lemma SecondComponentMeasure(dist: Distance, ps: seq<Position>, qs: seq<Position>, seed: real, i: nat)
    requires ps != [] && i < |qs|
    requires forall j :: 0 < j < |ps| ==> dist(ps[j - 1], ps[j]) == 1.0
    requires forall j :: 0 < j < |qs| ==> dist(qs[j - 1], qs[j]) == 1.0
    ensures seed + TotalLength(dist, [ps, qs][..1]) + PathLength(dist, qs[..i + 1]) == seed + (|ps| - 1 + i) as real
  {
    assert [ps, qs][..1] == [ps] && [ps][1..] == [];
    assert TotalLength(dist, [ps]) == PathLength(dist, ps) by {
      assert TotalLength(dist, [ps]) == PathLength(dist, [ps][0]) + TotalLength(dist, [ps][1..]);
    }
    assert PathLength(dist, ps) == (|ps| - 1) as real by {
      UnitSteps(dist, ps, |ps| - 1);
      assert ps[..|ps|] == ps;
    }
    UnitSteps(dist, qs, i);
  }

  /** measureOnLength on a MultiLineString of two components of unit steps: the
      second component starts from the length of the first; the gap adds nothing. */
  lemma TwoUnitLines(dist: Distance, ps: seq<Position>, qs: seq<Position>, c: Crs, target: MeasuredType, keep: bool,
                     seed: real, ms: seq<Position>, ns: seq<Position>)
    requires target.Vertical() == c.vertical && ps != []
    requires Seed(MultiLineString(c, [ps, qs]), keep) == seed
    requires forall j :: 0 < j < |ps| ==> dist(ps[j - 1], ps[j]) == 1.0
    requires forall j :: 0 < j < |qs| ==> dist(qs[j - 1], qs[j]) == 1.0
    requires |ms| == |ps| && forall i :: 0 <= i < |ps| ==> ms[i] == WithMeasure(ps[i], seed + i as real)
    requires |ns| == |qs| && forall i :: 0 <= i < |qs| ==> ns[i] == WithMeasure(qs[i], seed + (|ps| - 1 + i) as real)
    ensures MeasureOnLength(dist, Some(MultiLineString(c, [ps, qs])), target, keep) == Ok(MultiLineString(MeasuredCrs(c), [ms, ns]))
  {
    var g := MultiLineString(c, [ps, qs]);
    assert !IsEmpty(g) by {
      assert Positions(g) == ps + Flatten([qs]);
    }
    var out := MeasureOnLength(dist, Some(g), target, keep).value;
    FirstComponent(dist, ps, qs, c, target, keep, seed, ms);
    SecondComponent(dist, ps, qs, c, target, keep, seed, ns);
    assert out.lines == [ms, ns];
  }

  lemma FirstComponent(dist: Distance, ps: seq<Position>, qs: seq<Position>, c: Crs, target: MeasuredType, keep: bool,
                       seed: real, ms: seq<Position>)
    requires target.Vertical() == c.vertical && ps != []
    requires Seed(MultiLineString(c, [ps, qs]), keep) == seed
    requires forall j :: 0 < j < |ps| ==> dist(ps[j - 1], ps[j]) == 1.0
    requires |ms| == |ps| && forall i :: 0 <= i < |ps| ==> ms[i] == WithMeasure(ps[i], seed + i as real)
    ensures MeasureOnLength(dist, Some(MultiLineString(c, [ps, qs])), target, keep).Ok?
    ensures MeasureOnLength(dist, Some(MultiLineString(c, [ps, qs])), target, keep).value.lines[0] == ms
  {
    var g := MultiLineString(c, [ps, qs]);
    assert !IsEmpty(g) by {
      assert Positions(g) == ps + Flatten([qs]);
    }
    var out := MeasureOnLength(dist, Some(g), target, keep).value;
    forall i | 0 <= i < |ps|
      ensures out.lines[0][i] == ms[i]
    {
      assert Parts(g)[..0] == [];
      UnitSteps(dist, ps, i);
      MeasureOnLengthValues(dist, g, target, keep, 0, i);
    }
  }

  lemma SecondComponent(dist: Distance, ps: seq<Position>, qs: seq<Position>, c: Crs, target: MeasuredType, keep: bool,
                        seed: real, ns: seq<Position>)
    requires target.Vertical() == c.vertical && ps != []
    requires Seed(MultiLineString(c, [ps, qs]), keep) == seed
    requires forall j :: 0 < j < |ps| ==> dist(ps[j - 1], ps[j]) == 1.0
    requires forall j :: 0 < j < |qs| ==> dist(qs[j - 1], qs[j]) == 1.0
    requires |ns| == |qs| && forall i :: 0 <= i < |qs| ==> ns[i] == WithMeasure(qs[i], seed + (|ps| - 1 + i) as real)
    ensures MeasureOnLength(dist, Some(MultiLineString(c, [ps, qs])), target, keep).Ok?
    ensures MeasureOnLength(dist, Some(MultiLineString(c, [ps, qs])), target, keep).value.lines[1] == ns
  {
    var g := MultiLineString(c, [ps, qs]);
    assert !IsEmpty(g) by {
      assert Positions(g) == ps + Flatten([qs]);
    }
    var out := MeasureOnLength(dist, Some(g), target, keep).value;
    forall i | 0 <= i < |qs|
      ensures out.lines[1][i] == ns[i]
    {
      SecondComponentMeasure(dist, ps, qs, seed, i);
      MeasureOnLengthValues(dist, g, target, keep, 1, i);
    }
  }

  /** The second component of the fixture multi-line, (3,1) (4,1) (5,1), and its
      measured form, which continues from 3. */
  predicate IsSecondLine(qs: seq<Position>) { qs == [P(3.0, 1.0), P(4.0, 1.0), P(5.0, 1.0)] }

  predicate IsMeasuredSecondLine(ns: seq<Position>)
  {
    ns == [PM(3.0, 1.0, 3.0), PM(4.0, 1.0, 4.0), PM(5.0, 1.0, 5.0)]
  }

  lemma SecondLineSteps(qs: seq<Position>)
    requires IsSecondLine(qs)
    ensures forall j :: 0 < j < |qs| ==> axisLength(qs[j - 1], qs[j]) == 1.0
  {
    assert forall j :: 0 < j < |qs| ==> AxisLength(qs[j - 1], qs[j]) == 1.0;
  }

  /** measureOnLength on the multi-line: measures 0, 1, 2, 3, then 3, 4, 5 across
      the gap from (2,1) to (3,1). */
  lemma MeasuredMultiLine(ps: seq<Position>, qs: seq<Position>, ms: seq<Position>, ns: seq<Position>)
    requires IsFixtureLine(ps) && IsSecondLine(qs) && IsMeasuredLine(ms) && IsMeasuredSecondLine(ns)
    ensures MeasureOnLength(axisLength, Some(MultiLineString(crs, [ps, qs])), MeasuredType.P2DM, false)
      == Ok(MultiLineString(crsM, [ms, ns]))
  {
    LineSteps(ps);
    SecondLineSteps(qs);
    LineMeasures(ps, ms);
    SecondLineMeasures(qs, ns);
    TwoUnitLines(axisLength, ps, qs, crs, MeasuredType.P2DM, false, 0.0, ms, ns);
  }

  lemma LineMeasures(ps: seq<Position>, ms: seq<Position>)
    requires IsFixtureLine(ps) && IsMeasuredLine(ms)
    ensures |ms| == |ps| && forall i :: 0 <= i < |ps| ==> ms[i] == WithMeasure(ps[i], 0.0 + i as real)
  {
  }

  lemma SecondLineMeasures(qs: seq<Position>, ns: seq<Position>)
    requires IsSecondLine(qs) && IsMeasuredSecondLine(ns)
    ensures |ns| == |qs| && forall i :: 0 <= i < |qs| ==> ns[i] == WithMeasure(qs[i], 0.0 + (4 - 1 + i) as real)
  {
  }

  /** The CRSs with a vertical axis, without and with a measure axis. */
  const crsZ := Crs(-1, true, false)
  const crsZM := Crs(-1, true, true)

  function PZM(x: real, y: real, z: real, m: real): Position { Position(x, y, Some(z), Some(m)) }

  /** measureOnLength refuses a null geometry, a target type whose vertical axis
      disagrees with the CRS, and a non-empty Point; the empty LineString comes
      back as the empty LineString of the measured CRS. */
  lemma MeasureOnLengthRefusals()
    ensures MeasureOnLength(axisLength, None, MeasuredType.P2DM, false) == Err(NullArgument)
    ensures MeasureOnLength(axisLength, Some(LineString(crs, [P(1.0, 2.0), P(3.0, 4.0)])), MeasuredType.P3DM, false)
      == Err(TypeMismatch)
    ensures MeasureOnLength(axisLength, Some(Point(crs, Some(P(3.0, 4.0)))), MeasuredType.P2DM, false) == Err(NotLineal)
    ensures MeasureOnLength(axisLength, Some(LineString(crs, [])), MeasuredType.P2DM, false) == Ok(LineString(crsM, []))
  {
    assert Positions(Point(crs, Some(P(3.0, 4.0)))) == [P(3.0, 4.0)] by {
      assert Flatten([[P(3.0, 4.0)]]) == [P(3.0, 4.0)] + Flatten([]);
    }
    assert Positions(LineString(crs, [])) == [] by {
      assert Flatten([[]]) == [] + Flatten([]);
    }
  }

  /** The positions of a LineString are its points. */
  lemma LinePositions(c: Crs, ps: seq<Position>)
    ensures Positions(LineString(c, ps)) == ps
  {
    assert Flatten([ps]) == ps + Flatten([]);
  }

  /** The 3DM fixture line: the planar fixture path with altitudes, and measures
      5, 10, 20, 30. */
  predicate IsLine3DM(zs: seq<Position>)
  {
    zs == [PZM(0.0, 0.0, 1.0, 5.0), PZM(1.0, 0.0, 2.0, 10.0), PZM(1.0, 1.0, 3.0, 20.0), PZM(2.0, 1.0, 4.0, 30.0)]
  }

  /** The 3DM fixture line measured from its first measure. */
  predicate IsRemeasured3DM(ws: seq<Position>)
  {
    ws == [PZM(0.0, 0.0, 1.0, 5.0), PZM(1.0, 0.0, 2.0, 6.0), PZM(1.0, 1.0, 3.0, 7.0), PZM(2.0, 1.0, 4.0, 8.0)]
  }

  /** With keepBeginMeasure the running length starts at the first position's
      measure, 5, and the altitudes are kept: 5, 6, 7, 8. */
  lemma KeepBeginMeasure(zs: seq<Position>, ws: seq<Position>)
    requires IsLine3DM(zs) && IsRemeasured3DM(ws)
    ensures MeasureOnLength(axisLength, Some(LineString(crsZM, zs)), MeasuredType.P3DM, true) == Ok(LineString(crsZM, ws))
  {
    Line3DMSteps(zs);
    Line3DMSeed(zs);
    Remeasured3DM(zs, ws);
    UnitStepLine(axisLength, zs, crsZM, MeasuredType.P3DM, true, ws);
  }

  lemma Line3DMSteps(zs: seq<Position>)
    requires IsLine3DM(zs)
    ensures forall j :: 0 < j < |zs| ==> axisLength(zs[j - 1], zs[j]) == 1.0
  {
    assert forall j :: 0 < j < |zs| ==> AxisLength(zs[j - 1], zs[j]) == 1.0;
  }

  lemma Line3DMSeed(zs: seq<Position>)
    requires IsLine3DM(zs)
    ensures Seed(LineString(crsZM, zs), true) == 5.0
  {
    LinePositions(crsZM, zs);
  }

  lemma Remeasured3DM(zs: seq<Position>, ws: seq<Position>)
    requires IsLine3DM(zs) && IsRemeasured3DM(ws)
    ensures |ws| == |zs| && forall i :: 0 <= i < |zs| ==> ws[i] == WithMeasure(zs[i], 5.0 + i as real)
  {
  }

  /** measureAt on a lineal geometry when the i-th segment is the first one holding
      the position: the measure interpolated on that segment. */
  lemma FirstSegmentMeasure(g: Geometry, p: Position, i: nat)
    requires Measured(g) && IsLineal(g)
    requires i < |SegmentsOf(Parts(g))| && OnSegment(SegmentsOf(Parts(g))[i], p)
    requires forall j :: 0 <= j < i ==> !OnSegment(SegmentsOf(Parts(g))[j], p)
    ensures MeasuredSegment(SegmentsOf(Parts(g))[i])
    ensures MeasureAt(Some(g), Some(p)) == Ok(Some(Interpolate(SegmentsOf(Parts(g))[i], p)))
  {
    var segs := SegmentsOf(Parts(g));
    var r := MeasureAt(Some(g), Some(p));
    assert segs[i] in segs;
    var w :| 0 <= w < |segs| && OnSegment(segs[w], p) && (forall j :: 0 <= j < w ==> !OnSegment(segs[j], p))
      && MeasuredSegment(segs[w]) && r.value.value == Interpolate(segs[w], p);
    assert w == i;
  }

  /** measureAt on a lineal geometry none of whose segments holds the position:
      not found. */
  lemma NoSegmentMeasure(g: Geometry, p: Position)
    requires Measured(g) && IsLineal(g)
    requires forall j :: 0 <= j < |SegmentsOf(Parts(g))| ==> !OnSegment(SegmentsOf(Parts(g))[j], p)
    ensures MeasureAt(Some(g), Some(p)) == Ok(None)
  {
    var segs := SegmentsOf(Parts(g));
    forall seg | seg in segs
      ensures !OnSegment(seg, p)
    {
      var j :| 0 <= j < |segs| && segs[j] == seg;
    }
  }

  /** On a segment parallel to the x axis, the exact test asks for the segment's y
      and a fraction in [0, 1], the fraction being measured along x. */
  lemma OnHorizontal(seg: LineSegment, p: Position)
    requires seg.start.y == seg.end.y && seg.start.x != seg.end.x
    ensures Fraction(seg, p) == (p.x - seg.start.x) / (seg.end.x - seg.start.x)
    ensures OnSegment(seg, p) <==> p.y == seg.start.y && 0.0 <= Fraction(seg, p) <= 1.0
  {
    var dx := seg.end.x - seg.start.x;
    var vx, vy := p.x - seg.start.x, p.y - seg.start.y;
    assert Cross(seg, p) == vx * 0.0 - vy * dx;
    if vy * dx == 0.0 {
      Cancel(vy, 0.0, dx);
    }
  }

  /** On a segment parallel to the y axis, the exact test asks for the segment's x
      and a fraction in [0, 1], the fraction being measured along y. */
  lemma OnVertical(seg: LineSegment, p: Position)
    requires seg.start.x == seg.end.x && seg.start.y != seg.end.y
    ensures Fraction(seg, p) == (p.y - seg.start.y) / (seg.end.y - seg.start.y)
    ensures OnSegment(seg, p) <==> p.x == seg.start.x && 0.0 <= Fraction(seg, p) <= 1.0
  {
    var dy := seg.end.y - seg.start.y;
    var vx, vy := p.x - seg.start.x, p.y - seg.start.y;
    assert Cross(seg, p) == vx * dy - vy * 0.0;
    if vx * dy == 0.0 {
      Cancel(vx, 0.0, dy);
    }
  }

  /** The segments of the measured fixture line. */
  lemma MeasuredLineSegments(ms: seq<Position>)
    requires IsMeasuredLine(ms)
    ensures Measured(LineString(crsM, ms))
    ensures SegmentsOf(Parts(LineString(crsM, ms)))
      == [LineSegment(PM(0.0, 0.0, 0.0), PM(1.0, 0.0, 1.0)), LineSegment(PM(1.0, 0.0, 1.0), PM(1.0, 1.0, 2.0)),
          LineSegment(PM(1.0, 1.0, 2.0), PM(2.0, 1.0, 3.0))]
  {
    LinePositions(crsM, ms);
    assert SegmentsOf([ms]) == Pairs(ms) + SegmentsOf([]);
    MeasuredLinePairs(ms);
  }

  lemma MeasuredLinePairs(ms: seq<Position>)
    requires IsMeasuredLine(ms)
    ensures Pairs(ms)
      == [LineSegment(PM(0.0, 0.0, 0.0), PM(1.0, 0.0, 1.0)), LineSegment(PM(1.0, 0.0, 1.0), PM(1.0, 1.0, 2.0)),
          LineSegment(PM(1.0, 1.0, 2.0), PM(2.0, 1.0, 3.0))]
  {
    var r := Pairs(ms);
    assert |r| == 3 && r[0] == LineSegment(ms[0], ms[1]) && r[1] == LineSegment(ms[1], ms[2]) && r[2] == LineSegment(ms[2], ms[3]);
  }

  lemma MeasuredSecondLinePairs(ns: seq<Position>)
    requires IsMeasuredSecondLine(ns)
    ensures Pairs(ns) == [LineSegment(PM(3.0, 1.0, 3.0), PM(4.0, 1.0, 4.0)), LineSegment(PM(4.0, 1.0, 4.0), PM(5.0, 1.0, 5.0))]
  {
    var r := Pairs(ns);
    assert |r| == 2 && r[0] == LineSegment(ns[0], ns[1]) && r[1] == LineSegment(ns[1], ns[2]);
  }

  lemma MeasuredRingPairs(rs: seq<Position>)
    requires IsMeasuredRing(rs)
    ensures Pairs(rs)
      == [LineSegment(PM(0.0, 0.0, 0.0), PM(1.0, 0.0, 1.0)), LineSegment(PM(1.0, 0.0, 1.0), PM(1.0, 1.0, 2.0)),
          LineSegment(PM(1.0, 1.0, 2.0), PM(0.0, 1.0, 3.0)), LineSegment(PM(0.0, 1.0, 3.0), PM(0.0, 0.0, 4.0))]
  {
    var r := Pairs(rs);
    assert |r| == 4 && r[0] == LineSegment(rs[0], rs[1]) && r[1] == LineSegment(rs[1], rs[2]);
    assert r[2] == LineSegment(rs[2], rs[3]) && r[3] == LineSegment(rs[3], rs[4]);
  }

  /** measureAt on the measured line: (1.5, 1) gets 2.5; (5, 5) is not found. */
  lemma MeasureAtOnLine(ms: seq<Position>)
    requires IsMeasuredLine(ms)
    ensures Measured(LineString(crsM, ms))
    ensures MeasureAt(Some(LineString(crsM, ms)), Some(PM(1.5, 1.0, 0.0))) == Ok(Some(2.5))
    ensures MeasureAt(Some(LineString(crsM, ms)), Some(PM(5.0, 5.0, 0.0))) == Ok(None)
  {
    MeasuredLineSegments(ms);
    var segs := SegmentsOf(Parts(LineString(crsM, ms)));
    OnHorizontal(segs[0], PM(1.5, 1.0, 0.0));
    OnVertical(segs[1], PM(1.5, 1.0, 0.0));
    OnHorizontal(segs[2], PM(1.5, 1.0, 0.0));
    OnHorizontal(segs[0], PM(5.0, 5.0, 0.0));
    OnVertical(segs[1], PM(5.0, 5.0, 0.0));
    OnHorizontal(segs[2], PM(5.0, 5.0, 0.0));
    FirstSegmentMeasure(LineString(crsM, ms), PM(1.5, 1.0, 0.0), 2);
    NoSegmentMeasure(LineString(crsM, ms), PM(5.0, 5.0, 0.0));
  }

  /** The segments of the measured fixture multi-line: three in the first
      component, two in the second, none across the gap. */
  lemma MeasuredMultiLineSegments(ms: seq<Position>, ns: seq<Position>)
    requires IsMeasuredLine(ms) && IsMeasuredSecondLine(ns)
    ensures Measured(MultiLineString(crsM, [ms, ns]))
    ensures SegmentsOf(Parts(MultiLineString(crsM, [ms, ns])))
      == [LineSegment(PM(0.0, 0.0, 0.0), PM(1.0, 0.0, 1.0)), LineSegment(PM(1.0, 0.0, 1.0), PM(1.0, 1.0, 2.0)),
          LineSegment(PM(1.0, 1.0, 2.0), PM(2.0, 1.0, 3.0)),
          LineSegment(PM(3.0, 1.0, 3.0), PM(4.0, 1.0, 4.0)), LineSegment(PM(4.0, 1.0, 4.0), PM(5.0, 1.0, 5.0))]
  {
    assert Positions(MultiLineString(crsM, [ms, ns])) == ms + ns by {
      assert Flatten([ms, ns]) == ms + Flatten([ns]) && Flatten([ns]) == ns + Flatten([]);
    }
    assert SegmentsOf([ms, ns]) == Pairs(ms) + SegmentsOf([ns]);
    assert SegmentsOf([ns]) == Pairs(ns) + SegmentsOf([]);
    MeasuredLinePairs(ms);
    MeasuredSecondLinePairs(ns);
  }

  /** measureAt on the measured multi-line: (4.5, 1) gets 4.5; (2.5, 1), in the
      gap, is not found. */
  lemma MeasureAtOnMultiLine(ms: seq<Position>, ns: seq<Position>)
    requires IsMeasuredLine(ms) && IsMeasuredSecondLine(ns)
    ensures Measured(MultiLineString(crsM, [ms, ns]))
    ensures MeasureAt(Some(MultiLineString(crsM, [ms, ns])), Some(PM(4.5, 1.0, 0.0))) == Ok(Some(4.5))
    ensures MeasureAt(Some(MultiLineString(crsM, [ms, ns])), Some(PM(2.5, 1.0, 0.0))) == Ok(None)
  {
    MeasuredMultiLineSegments(ms, ns);
    var segs := SegmentsOf(Parts(MultiLineString(crsM, [ms, ns])));
    OnHorizontal(segs[0], PM(4.5, 1.0, 0.0));
    OnVertical(segs[1], PM(4.5, 1.0, 0.0));
    OnHorizontal(segs[2], PM(4.5, 1.0, 0.0));
    OnHorizontal(segs[3], PM(4.5, 1.0, 0.0));
    OnHorizontal(segs[4], PM(4.5, 1.0, 0.0));
    OnHorizontal(segs[0], PM(2.5, 1.0, 0.0));
    OnVertical(segs[1], PM(2.5, 1.0, 0.0));
    OnHorizontal(segs[2], PM(2.5, 1.0, 0.0));
    OnHorizontal(segs[3], PM(2.5, 1.0, 0.0));
    OnHorizontal(segs[4], PM(2.5, 1.0, 0.0));
    FirstSegmentMeasure(MultiLineString(crsM, [ms, ns]), PM(4.5, 1.0, 0.0), 4);
    NoSegmentMeasure(MultiLineString(crsM, [ms, ns]), PM(2.5, 1.0, 0.0));
  }

  /** The measured unit square ring (0,0) (1,0) (1,1) (0,1) (0,0), measures 0 to 4. */
  predicate IsMeasuredRing(rs: seq<Position>)
  {
    rs == [PM(0.0, 0.0, 0.0), PM(1.0, 0.0, 1.0), PM(1.0, 1.0, 2.0), PM(0.0, 1.0, 3.0), PM(0.0, 0.0, 4.0)]
  }

  /** The positions and the segments of the measured ring. */
  lemma MeasuredRingSegments(rs: seq<Position>)
    requires IsMeasuredRing(rs)
    ensures Positions(LinearRing(crsM, rs)) == rs && Measured(LinearRing(crsM, rs))
    ensures SegmentsOf(Parts(LinearRing(crsM, rs)))
      == [LineSegment(PM(0.0, 0.0, 0.0), PM(1.0, 0.0, 1.0)), LineSegment(PM(1.0, 0.0, 1.0), PM(1.0, 1.0, 2.0)),
          LineSegment(PM(1.0, 1.0, 2.0), PM(0.0, 1.0, 3.0)), LineSegment(PM(0.0, 1.0, 3.0), PM(0.0, 0.0, 4.0))]
  {
    assert Flatten([rs]) == rs + Flatten([]);
    assert SegmentsOf([rs]) == Pairs(rs) + SegmentsOf([]);
    MeasuredRingPairs(rs);
  }

  /** measureAt on the measured ring: (0, 0.5) gets 3.5. */
  lemma MeasureAtOnRing(rs: seq<Position>)
    requires IsMeasuredRing(rs)
    ensures Measured(LinearRing(crsM, rs))
    ensures MeasureAt(Some(LinearRing(crsM, rs)), Some(PM(0.0, 0.5, 0.0))) == Ok(Some(3.5))
  {
    MeasuredRingSegments(rs);
    var segs := SegmentsOf(Parts(LinearRing(crsM, rs)));
    var p := PM(0.0, 0.5, 0.0);
    OnHorizontal(segs[0], p);
    OnVertical(segs[1], p);
    OnHorizontal(segs[2], p);
    OnVertical(segs[3], p);
    FirstSegmentMeasure(LinearRing(crsM, rs), PM(0.0, 0.5, 0.0), 3);
  }

  /** measureAt on a MultiPoint: the measure of the point at (1, 2). */
  lemma MeasureAtOnMultiPoint()
    ensures MeasureAt(Some(MultiPoint(crsM, [PM(0.0, 0.0, 1.0), PM(1.0, 2.0, 2.0)])), Some(PM(1.0, 2.0, 0.0))) == Ok(Some(2.0))
  {
    var ps := [PM(0.0, 0.0, 1.0), PM(1.0, 2.0, 2.0)];
    assert Positions(MultiPoint(crsM, ps)) == ps by { assert Flatten([ps]) == ps + Flatten([]); }
    assert !SameXY(ps[0], PM(1.0, 2.0, 0.0)) && SameXY(ps[1], PM(1.0, 2.0, 0.0));
  }

  /** measureAt refuses a null geometry and a null position; on an empty geometry
      nothing is found. */
  lemma MeasureAtRefusals(ms: seq<Position>)
    requires IsMeasuredLine(ms)
    ensures MeasureAt(None, Some(PM(1.0, 2.0, 0.0))) == Err(NullArgument)
    ensures Measured(LineString(crsM, ms)) && MeasureAt(Some(LineString(crsM, ms)), None) == Err(NullArgument)
    ensures Measured(LineString(crsM, [])) && MeasureAt(Some(LineString(crsM, [])), Some(PM(1.0, 2.0, 0.0))) == Ok(None)
  {
    LinePositions(crsM, ms);
    LinePositions(crsM, []);
  }

  /** minimumMeasure and maximumMeasure on the 3DM line: 5 and 30. */
  lemma LineExtremes(zs: seq<Position>)
    requires IsLine3DM(zs)
    ensures Measured(LineString(crsZM, zs))
    ensures MinimumMeasure(Some(LineString(crsZM, zs))) == Ok(Some(5.0))
    ensures MaximumMeasure(Some(LineString(crsZM, zs))) == Ok(Some(30.0))
  {
    Line3DMRange(zs);
    Line3DMMinimum(zs);
    Line3DMMaximum(zs);
  }

  lemma Line3DMMinimum(zs: seq<Position>)
    requires IsLine3DM(zs) && forall q :: q in zs ==> q.m.Some? && 5.0 <= q.m.value <= 30.0
    ensures Measured(LineString(crsZM, zs)) && MinimumMeasure(Some(LineString(crsZM, zs))) == Ok(Some(5.0))
  {
    LinePositions(crsZM, zs);
    assert zs[0] in zs;
  }

  lemma Line3DMMaximum(zs: seq<Position>)
    requires IsLine3DM(zs) && forall q :: q in zs ==> q.m.Some? && 5.0 <= q.m.value <= 30.0
    ensures Measured(LineString(crsZM, zs)) && MaximumMeasure(Some(LineString(crsZM, zs))) == Ok(Some(30.0))
  {
    LinePositions(crsZM, zs);
    assert zs[3] in zs;
  }

  lemma Line3DMRange(zs: seq<Position>)
    requires IsLine3DM(zs)
    ensures forall q :: q in zs ==> q.m.Some? && 5.0 <= q.m.value <= 30.0
  {
    forall q | q in zs
      ensures q.m.Some? && 5.0 <= q.m.value <= 30.0
    {
      var i :| 0 <= i < |zs| && zs[i] == q;
    }
  }

  /** minimumMeasure and maximumMeasure on the fixture caseD1A: 0 and 4. The
      fixture's geometry is not shown; the measured unit-square ring, whose
      measures span [0, 4], stands in for it. */
  lemma RingExtremes(rs: seq<Position>)
    requires IsMeasuredRing(rs)
    ensures Measured(LinearRing(crsM, rs))
    ensures MinimumMeasure(Some(LinearRing(crsM, rs))) == Ok(Some(0.0))
    ensures MaximumMeasure(Some(LinearRing(crsM, rs))) == Ok(Some(4.0))
  {
    RingRange(rs);
    RingMinimum(rs);
    RingMaximum(rs);
  }

  lemma RingMinimum(rs: seq<Position>)
    requires IsMeasuredRing(rs) && forall q :: q in rs ==> q.m.Some? && 0.0 <= q.m.value <= 4.0
    ensures Measured(LinearRing(crsM, rs)) && MinimumMeasure(Some(LinearRing(crsM, rs))) == Ok(Some(0.0))
  {
    RingPositions(rs);
    assert rs[0] in rs;
  }

  lemma RingMaximum(rs: seq<Position>)
    requires IsMeasuredRing(rs) && forall q :: q in rs ==> q.m.Some? && 0.0 <= q.m.value <= 4.0
    ensures Measured(LinearRing(crsM, rs)) && MaximumMeasure(Some(LinearRing(crsM, rs))) == Ok(Some(4.0))
  {
    RingPositions(rs);
    assert rs[4] in rs;
  }

  /** The positions of a LinearRing are its points. */
  lemma RingPositions(rs: seq<Position>)
    ensures Positions(LinearRing(crsM, rs)) == rs
  {
    assert Flatten([rs]) == rs + Flatten([]);
  }

  lemma RingRange(rs: seq<Position>)
    requires IsMeasuredRing(rs)
    ensures forall q :: q in rs ==> q.m.Some? && 0.0 <= q.m.value <= 4.0
  {
    forall q | q in rs
      ensures q.m.Some? && 0.0 <= q.m.value <= 4.0
    {
      var i :| 0 <= i < |rs| && rs[i] == q;
    }
  }

  /** minimumMeasure and maximumMeasure on the empty measured line: not found; a
      null geometry is refused. */
  lemma EmptyExtremes()
    ensures Measured(LineString(crsM, []))
    ensures MinimumMeasure(Some(LineString(crsM, []))) == Ok(None)
    ensures MaximumMeasure(Some(LineString(crsM, []))) == Ok(None)
    ensures MinimumMeasure(None) == Err(NullArgument)
  {
    LinePositions(crsM, []);
  }
}
