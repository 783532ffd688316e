/** The linear-referencing (measure) engine: measureOnLength, measureAt,
    minimumMeasure and maximumMeasure. */
module Measures {
  import opened Wrappers
  import opened Coordinates
  import opened Geometries
  import opened Segments

  /** The planar length of the segment between two positions. The kernel uses the
      Euclidean distance of x and y; the model takes it as a parameter and asks
      only that it is never negative and is zero from a position to itself. */
  type Distance = d: (Position, Position) -> real | (forall p, q :: 0.0 <= d(p, q)) && (forall p :: d(p, p) == 0.0)
    witness (p: Position, q: Position) => 0.0

  /** The length of the path through s: the sum of its segment lengths. */
  function PathLength(dist: Distance, s: seq<Position>): (r: real)
    ensures 0.0 <= r
    decreases |s|
  {
    if |s| < 2 then 0.0 else PathLength(dist, s[..|s| - 1]) + dist(s[|s| - 2], s[|s| - 1])
  }

  /** A longer prefix of a path is never shorter. */
  lemma {:induction false} PathLengthPrefix(dist: Distance, s: seq<Position>, i: nat, j: nat)
    requires i <= j <= |s|
    ensures PathLength(dist, s[..i]) <= PathLength(dist, s[..j])
    decreases j - i
  {
    if i < j {
      PathLengthPrefix(dist, s, i, j - 1);
      assert s[..j][..j - 1] == s[..j - 1];
    }
  }

  /** The summed path lengths of the components of a multi-line, gaps between
      components excluded. */
  function TotalLength(dist: Distance, lines: seq<seq<Position>>): (r: real)
    ensures 0.0 <= r
    decreases |lines|
  {
    if lines == [] then 0.0 else PathLength(dist, lines[0]) + TotalLength(dist, lines[1..])
  }

  /** Appending a component adds its own length and nothing for the gap. */
  lemma {:induction false} TotalLengthAppend(dist: Distance, lines: seq<seq<Position>>, line: seq<Position>)
    ensures TotalLength(dist, lines + [line]) == TotalLength(dist, lines) + PathLength(dist, line)
    decreases |lines|
  {
    if lines == [] {
      assert [] + [line] == [line];
      assert [line][1..] == [];
    } else {
      assert (lines + [line])[1..] == lines[1..] + [line];
      TotalLengthAppend(dist, lines[1..], line);
    }
  }

  /** The length of the first k components is that of the first one plus that of
      the next k - 1. */
  lemma TotalLengthShift(dist: Distance, lines: seq<seq<Position>>, k: nat)
    requires 0 < k <= |lines|
    ensures TotalLength(dist, lines[..k]) == PathLength(dist, lines[0]) + TotalLength(dist, lines[1..][..k - 1])
  {
    assert lines[..k][0] == lines[0];
    assert lines[..k][1..] == lines[1..][..k - 1];
  }

  /** A longer prefix of the components is never shorter. */
  lemma {:induction false} TotalLengthPrefix(dist: Distance, lines: seq<seq<Position>>, i: nat, j: nat)
    requires i <= j <= |lines|
    ensures TotalLength(dist, lines[..i]) <= TotalLength(dist, lines[..j])
    decreases j - i
  {
    if i < j {
      TotalLengthPrefix(dist, lines, i, j - 1);
      assert lines[..j] == lines[..j - 1] + [lines[j - 1]];
      TotalLengthAppend(dist, lines[..j - 1], lines[j - 1]);
    }
  }

  /** The position with its measure set to m; every other ordinate is kept. */
  function WithMeasure(p: Position, m: real): (r: Position)
    ensures r.x == p.x && r.y == p.y && r.z == p.z && r.m == Some(m)
  {
    p.(m := Some(m))
  }

  /** The running-total loop over one component. Each position gets the total so
      far; the total grows by the length of the segment from the previous position
      of the same component (prev), and not at all for the first one. */
  function MeasureFrom(dist: Distance, s: seq<Position>, prev: Option<Position>, total: real): (r: seq<Position>)
    ensures |r| == |s|
    ensures forall i :: 0 <= i < |r| ==> r[i].m.Some?
    decreases |s|
  {
    if s == [] then []
    else
      var t := if prev.Some? then total + dist(prev.value, s[0]) else total;
      [WithMeasure(s[0], t)] + MeasureFrom(dist, s[1..], Some(s[0]), t)
  }

  /** Extending a path by one position adds the length of the last segment. */
  lemma PathLengthStep(dist: Distance, s: seq<Position>, j: nat)
    requires j < |s|
    ensures PathLength(dist, s[..j + 1]) == if j == 0 then 0.0 else PathLength(dist, s[..j]) + dist(s[j - 1], s[j])
  {
    assert s[..j + 1][..j] == s[..j];
  }

  /** The previous position the loop has seen when it reaches position j. */
  function PrevAt(s: seq<Position>, j: nat): Option<Position>
    requires j <= |s|
  {
    if j == 0 then None else Some(s[j - 1])
  }

  /** The loop resumed at position j of s, with the total reached there, gives a
      later position i the seed plus the path length up to i. */
  lemma {:induction false} MeasureFromAt(dist: Distance, s: seq<Position>, j: nat, seed: real, i: nat)
    requires j <= i < |s|
    ensures MeasureFrom(dist, s[j..], PrevAt(s, j), seed + PathLength(dist, s[..j]))[i - j]
      == WithMeasure(s[i], seed + PathLength(dist, s[..i + 1]))
    decreases i - j
  {
    var t := seed + PathLength(dist, s[..j + 1]);
    PathLengthStep(dist, s, j);
    assert s[j..][1..] == s[j + 1..] && s[j..][0] == s[j];
    var rest := MeasureFrom(dist, s[j + 1..], Some(s[j]), t);
    assert MeasureFrom(dist, s[j..], PrevAt(s, j), seed + PathLength(dist, s[..j])) == [WithMeasure(s[j], t)] + rest;
    if j < i {
      MeasureFromAt(dist, s, j + 1, seed, i);
    }
  }

  /** measureOnLength on one component seeded with seed: position i gets the seed
      plus the length of the path from position 0 to position i. */
  function MeasureLine(dist: Distance, s: seq<Position>, seed: real): (r: seq<Position>)
    ensures |r| == |s|
    ensures forall i :: 0 <= i < |s| ==> r[i] == WithMeasure(s[i], seed + PathLength(dist, s[..i + 1]))
  {
    assert s[0..] == s && s[..0] == [];
    assert forall i :: 0 <= i < |s| ==> MeasureFrom(dist, s, None, seed)[i] == WithMeasure(s[i], seed + PathLength(dist, s[..i + 1])) by {
      forall i | 0 <= i < |s|
        ensures MeasureFrom(dist, s, None, seed)[i] == WithMeasure(s[i], seed + PathLength(dist, s[..i + 1]))
      {
        MeasureFromAt(dist, s, 0, seed, i);
      }
    }
    MeasureFrom(dist, s, None, seed)
  }

  /** The total carried out of a component: the measure of its last position, or
      the incoming total when the component is empty. */
  function Carried(line: seq<Position>, total: real): real
    requires forall i :: 0 <= i < |line| ==> line[i].m.Some?
  {
    if line == [] then total else line[|line| - 1].m.value
  }

  /** measureOnLength across the components of a multi-line: the running total is
      carried from one component into the next, while the previous position is
      forgotten, so the gap between components adds nothing. */
  function MeasureLines(dist: Distance, lines: seq<seq<Position>>, total: real): (r: seq<seq<Position>>)
    ensures |r| == |lines|
    ensures forall k :: 0 <= k < |lines| ==> |r[k]| == |lines[k]|
    ensures forall k, i :: 0 <= k < |lines| && 0 <= i < |lines[k]| ==> r[k][i].m.Some?
    decreases |lines|
  {
    if lines == [] then []
    else
      var first := MeasureFrom(dist, lines[0], None, total);
      [first] + MeasureLines(dist, lines[1..], Carried(first, total))
  }

  /** A component carries out the incoming total plus its own path length. */
  lemma CarriedTotal(dist: Distance, line: seq<Position>, total: real)
    ensures Carried(MeasureFrom(dist, line, None, total), total) == total + PathLength(dist, line)
  {
    if line != [] {
      MeasureFromAt(dist, line, 0, total, |line| - 1);
      assert line[0..] == line && line[..0] == [];
      assert line[..|line|] == line;
    }
  }

  /** The first component is measured from the incoming total. */
  lemma MeasureLinesFirst(dist: Distance, lines: seq<seq<Position>>, total: real, i: nat)
    requires 0 < |lines| && i < |lines[0]|
    ensures MeasureLines(dist, lines, total)[0][i] == WithMeasure(lines[0][i], total + PathLength(dist, lines[0][..i + 1]))
  {
    MeasureFromAt(dist, lines[0], 0, total, i);
    assert lines[0][0..] == lines[0] && lines[0][..0] == [];
  }

  /** Every later component is measured as in the remaining components, from the
      incoming total plus the first component's length. */
  lemma MeasureLinesRest(dist: Distance, lines: seq<seq<Position>>, total: real, k: nat)
    requires 0 < k < |lines|
    ensures MeasureLines(dist, lines, total)[k] == MeasureLines(dist, lines[1..], total + PathLength(dist, lines[0]))[k - 1]
  {
    CarriedTotal(dist, lines[0], total);
  }

  /** The closed form of the measures, as MeasureLinesValue states it. */
  ghost predicate ValueAt(dist: Distance, lines: seq<seq<Position>>, total: real, k: nat, i: nat)
    requires k < |lines| && i < |lines[k]|
  {
    MeasureLines(dist, lines, total)[k][i]
      == WithMeasure(lines[k][i], total + TotalLength(dist, lines[..k]) + PathLength(dist, lines[k][..i + 1]))
  }

  /** The closed form for a later component k, from that for component k - 1 of
      the remaining components. */
  lemma {:induction false} ValueStep(dist: Distance, lines: seq<seq<Position>>, total: real, k: nat, i: nat)
    requires 0 < k < |lines| && i < |lines[k]|
    ensures ValueAt(dist, lines, total, k, i)
    decreases k, 0
  {
    var next := total + PathLength(dist, lines[0]);
    ValueInduction(dist, lines[1..], next, k - 1, i);
    var rest := MeasureLines(dist, lines[1..], next);
    var before := TotalLength(dist, lines[1..][..k - 1]);
    assert MeasureLines(dist, lines, total)[k][i] == rest[k - 1][i] by {
      MeasureLinesRest(dist, lines, total, k);
    }
    assert lines[1..][k - 1] == lines[k];
    assert TotalLength(dist, lines[..k]) == PathLength(dist, lines[0]) + before by {
      TotalLengthShift(dist, lines, k);
    }
  }

  /** The closed form for the first component. */
  lemma ValueFirst(dist: Distance, lines: seq<seq<Position>>, total: real, i: nat)
    requires 0 < |lines| && i < |lines[0]|
    ensures ValueAt(dist, lines, total, 0, i)
  {
    MeasureLinesFirst(dist, lines, total, i);
    assert lines[..0] == [];
  }

  lemma {:induction false} ValueInduction(dist: Distance, lines: seq<seq<Position>>, total: real, k: nat, i: nat)
    requires k < |lines| && i < |lines[k]|
    ensures ValueAt(dist, lines, total, k, i)
    decreases k, 1
  {
    if k == 0 {
      ValueFirst(dist, lines, total, i);
    } else {
      ValueStep(dist, lines, total, k, i);
    }
  }

  /** The value the loop gives: position i of component k gets the seed plus the
      lengths of the earlier components plus its own path length in component k. */
  lemma MeasureLinesValue(dist: Distance, lines: seq<seq<Position>>, total: real, k: nat, i: nat)
    requires k < |lines| && i < |lines[k]|
    ensures MeasureLines(dist, lines, total)[k][i]
      == WithMeasure(lines[k][i], total + TotalLength(dist, lines[..k]) + PathLength(dist, lines[k][..i + 1]))
  {
    ValueInduction(dist, lines, total, k, i);
  }

  /** Across a component boundary the measure does not jump: the first position of
      a component carries the measure of the last position of the one before. */
  lemma ComponentsJoin(dist: Distance, lines: seq<seq<Position>>, total: real, k: nat)
    requires k + 1 < |lines| && lines[k] != [] && lines[k + 1] != []
    ensures var r := MeasureLines(dist, lines, total);
      r[k + 1][0].m == r[k][|r[k]| - 1].m
  {
    MeasureLinesValue(dist, lines, total, k, |lines[k]| - 1);
    MeasureLinesValue(dist, lines, total, k + 1, 0);
    assert lines[..k + 1] == lines[..k] + [lines[k]];
    TotalLengthAppend(dist, lines[..k], lines[k]);
    assert lines[k][..|lines[k]|] == lines[k];
  }

  /** The length up to position i of component k is at most the length of the
      components up to and including k. */
  lemma LengthUpTo(dist: Distance, lines: seq<seq<Position>>, k: nat, i: nat)
    requires k < |lines| && i < |lines[k]|
    ensures TotalLength(dist, lines[..k]) + PathLength(dist, lines[k][..i + 1]) <= TotalLength(dist, lines[..k + 1])
  {
    PathLengthPrefix(dist, lines[k], i + 1, |lines[k]|);
    assert lines[k][..|lines[k]|] == lines[k];
    assert lines[..k + 1] == lines[..k] + [lines[k]];
    TotalLengthAppend(dist, lines[..k], lines[k]);
  }

  /** Measures never decrease along the traversal: position i of component k comes
      no later than position j of component l in traversal order, and carries no
      larger a measure. */
  lemma MeasuresIncrease(dist: Distance, lines: seq<seq<Position>>, total: real, k: nat, i: nat, l: nat, j: nat)
    requires k <= l < |lines| && i < |lines[k]| && j < |lines[l]|
    requires k == l ==> i <= j
    ensures var r := MeasureLines(dist, lines, total);
      r[k][i].m.value <= r[l][j].m.value
  {
    MeasureValue(dist, lines, total, k, i);
    MeasureValue(dist, lines, total, l, j);
    LengthOrdered(dist, lines, k, i, l, j);
  }

  /** The measure alone, as MeasureLinesValue gives it. */
  lemma MeasureValue(dist: Distance, lines: seq<seq<Position>>, total: real, k: nat, i: nat)
    requires k < |lines| && i < |lines[k]|
    ensures MeasureLines(dist, lines, total)[k][i].m.value
      == total + TotalLength(dist, lines[..k]) + PathLength(dist, lines[k][..i + 1])
  {
    MeasureLinesValue(dist, lines, total, k, i);
  }

  /** The length up to a position grows along the traversal. */
  lemma LengthOrdered(dist: Distance, lines: seq<seq<Position>>, k: nat, i: nat, l: nat, j: nat)
    requires k <= l < |lines| && i < |lines[k]| && j < |lines[l]|
    requires k == l ==> i <= j
    ensures TotalLength(dist, lines[..k]) + PathLength(dist, lines[k][..i + 1])
      <= TotalLength(dist, lines[..l]) + PathLength(dist, lines[l][..j + 1])
  {
    if k == l {
      PathLengthPrefix(dist, lines[k], i + 1, j + 1);
    } else {
      LengthUpTo(dist, lines, k, i);
      TotalLengthPrefix(dist, lines, k + 1, l);
    }
  }

  /** A repeated position adds nothing: it carries the measure of the position
      before it. */
  lemma RepeatedPosition(dist: Distance, lines: seq<seq<Position>>, total: real, k: nat, i: nat)
    requires k < |lines| && i + 1 < |lines[k]| && lines[k][i] == lines[k][i + 1]
    ensures var r := MeasureLines(dist, lines, total);
      r[k][i + 1].m == r[k][i].m
  {
    MeasureLinesValue(dist, lines, total, k, i);
    MeasureLinesValue(dist, lines, total, k, i + 1);
    PathLengthStep(dist, lines[k], i + 1);
  }

  /** Every measure lies between the seed and the seed plus the total length. */
  lemma MeasuresBounded(dist: Distance, lines: seq<seq<Position>>, total: real, k: nat, i: nat)
    requires k < |lines| && i < |lines[k]|
    ensures var r := MeasureLines(dist, lines, total);
      total <= r[k][i].m.value <= total + TotalLength(dist, lines)
  {
    MeasureLinesValue(dist, lines, total, k, i);
    LengthUpTo(dist, lines, k, i);
    TotalLengthPrefix(dist, lines, k + 1, |lines|);
    assert lines[..|lines|] == lines;
  }

  /** The measured position types measureOnLength can be asked to produce. */
  datatype MeasuredType = P2DM | P3DM
  {
    predicate Vertical() { this == P3DM }
  }

  /** The CRS with a measure axis added; its SRID and vertical axis are kept. */
  function MeasuredCrs(crs: Crs): (r: Crs)
    ensures r.srid == crs.srid && r.vertical == crs.vertical && r.measured
  {
    crs.(measured := true)
  }

  /** The starting total: with keepBeginMeasure, the original measure of the first
      position when it has one; otherwise 0. */
  function Seed(g: Geometry, keepBeginMeasure: bool): real
  {
    var ps := Positions(g);
    if keepBeginMeasure && ps != [] && ps[0].m.Some? then ps[0].m.value else 0.0
  }

  predicate SameVariant(a: Geometry, b: Geometry)
  {
    && (a.LineString? <==> b.LineString?)
    && (a.LinearRing? <==> b.LinearRing?)
    && (a.MultiLineString? <==> b.MultiLineString?)
  }

  /** measureOnLength: a new geometry whose positions carry the running length as
      their measure. Refused for a null geometry, for a target type whose vertical
      axis disagrees with the geometry's, and for a non-empty geometry that is not a
      LineString, LinearRing or MultiLineString. An empty geometry comes back as is,
      in the measured CRS. Otherwise the variant and the component structure are
      kept, and position i of component k keeps x, y and z and gets the measure
      seed + (length of the earlier components) + (path length up to i). */
  function MeasureOnLength(dist: Distance, g: Option<Geometry>, target: MeasuredType, keepBeginMeasure: bool): (r: Result<Geometry>)
    ensures g.None? ==> r == Err(NullArgument)
    ensures g.Some? && target.Vertical() != g.value.crs.vertical ==> r == Err(TypeMismatch)
    ensures r.Ok? <==> g.Some? && target.Vertical() == g.value.crs.vertical && (IsEmpty(g.value) || IsLineal(g.value))
    ensures r.Err? && g.Some? && target.Vertical() == g.value.crs.vertical ==> r.error == NotLineal
    ensures r.Ok? ==> r.value.crs == MeasuredCrs(g.value.crs)
    ensures r.Ok? && IsEmpty(g.value) ==> r.value == g.value.(crs := MeasuredCrs(g.value.crs))
    ensures r.Ok? && !IsEmpty(g.value) ==>
      && SameVariant(r.value, g.value)
      && Parts(r.value) == MeasureLines(dist, Parts(g.value), Seed(g.value, keepBeginMeasure))
  {
    if g.None? then Err(NullArgument)
    else if target.Vertical() != g.value.crs.vertical then Err(TypeMismatch)
    else if IsEmpty(g.value) then Ok(g.value.(crs := MeasuredCrs(g.value.crs)))
    else if !IsLineal(g.value) then Err(NotLineal)
    else
      var gv := g.value;
      var crs := MeasuredCrs(gv.crs);
      var seed := Seed(gv, keepBeginMeasure);
      var lines := MeasureLines(dist, Parts(gv), seed);
      var out := if gv.LineString? then LineString(crs, lines[0])
                 else if gv.LinearRing? then LinearRing(crs, lines[0])
                 else MultiLineString(crs, lines);
      assert Parts(out) == lines;
      Ok(out)
  }

  /** The measures measureOnLength assigns: the component structure is kept, and
      position i of component k keeps x, y and z and gets the measure
      seed + (length of the earlier components) + (path length up to i). */
  lemma MeasureOnLengthValues(dist: Distance, g: Geometry, target: MeasuredType, keepBeginMeasure: bool, k: nat, i: nat)
    requires MeasureOnLength(dist, Some(g), target, keepBeginMeasure).Ok? && !IsEmpty(g)
    requires k < |Parts(g)| && i < |Parts(g)[k]|
    ensures var out := MeasureOnLength(dist, Some(g), target, keepBeginMeasure).value;
      && |Parts(out)| == |Parts(g)|
      && |Parts(out)[k]| == |Parts(g)[k]|
      && Parts(out)[k][i] == WithMeasure(Parts(g)[k][i],
           Seed(g, keepBeginMeasure) + TotalLength(dist, Parts(g)[..k]) + PathLength(dist, Parts(g)[k][..i + 1]))
  {
    var out := MeasureOnLength(dist, Some(g), target, keepBeginMeasure).value;
    assert Parts(out) == MeasureLines(dist, Parts(g), Seed(g, keepBeginMeasure));
    MeasureLinesValue(dist, Parts(g), Seed(g, keepBeginMeasure), k, i);
  }

  /** The output of measureOnLength is measured throughout, and a geometry whose
      positions had its CRS's type gets positions of the measured CRS's type. */
  lemma MeasuredOutput(dist: Distance, g: Geometry, target: MeasuredType, keepBeginMeasure: bool)
    requires MeasureOnLength(dist, Some(g), target, keepBeginMeasure).Ok?
    ensures var out := MeasureOnLength(dist, Some(g), target, keepBeginMeasure).value;
      Measured(out) && (WellTyped(g) ==> WellTyped(out))
  {
    if IsEmpty(g) {
      PartsIgnoreCrs(g, MeasuredCrs(g.crs));
    } else {
      var out := MeasureOnLength(dist, Some(g), target, keepBeginMeasure).value;
      forall p | p in Positions(out)
        ensures p.m.Some? && (WellTyped(g) ==> p.Cap() == out.crs.Cap())
      {
        MeasuredPosition(dist, g, target, keepBeginMeasure, p);
      }
    }
  }

  lemma PartsIgnoreCrs(g: Geometry, crs: Crs)
    ensures Parts(g.(crs := crs)) == Parts(g)
  {
  }

  /** A position of a non-empty output is an input position with a measure added. */
  lemma MeasuredPosition(dist: Distance, g: Geometry, target: MeasuredType, keepBeginMeasure: bool, p: Position)
    requires MeasureOnLength(dist, Some(g), target, keepBeginMeasure).Ok? && !IsEmpty(g)
    requires p in Positions(MeasureOnLength(dist, Some(g), target, keepBeginMeasure).value)
    ensures exists q :: q in Positions(g) && p == q.(m := p.m)
    ensures p.m.Some?
  {
    var out := MeasureOnLength(dist, Some(g), target, keepBeginMeasure).value;
    FlattenMembership(Parts(out), p);
    var k :| 0 <= k < |Parts(out)| && p in Parts(out)[k];
    var i :| 0 <= i < |Parts(out)[k]| && Parts(out)[k][i] == p;
    MeasureOnLengthValues(dist, g, target, keepBeginMeasure, k, i);
    var q := Parts(g)[k][i];
    assert q in Positions(g) by {
      FlattenMembership(Parts(g), q);
    }
    assert p == q.(m := p.m);
  }

  /** The first position of the output carries the seed: 0, or with
      keepBeginMeasure the input's own first measure. */
  lemma FirstMeasureIsSeed(dist: Distance, g: Geometry, target: MeasuredType, keepBeginMeasure: bool)
    requires MeasureOnLength(dist, Some(g), target, keepBeginMeasure).Ok?
    requires Parts(g) != [] && Parts(g)[0] != []
    ensures var out := MeasureOnLength(dist, Some(g), target, keepBeginMeasure).value;
      && Positions(out) != []
      && Positions(out)[0].m == Some(Seed(g, keepBeginMeasure))
      && (keepBeginMeasure && Positions(g)[0].m.Some? ==> Positions(out)[0].m == Positions(g)[0].m)
      && (!keepBeginMeasure ==> Positions(out)[0].m == Some(0.0))
  {
    var out := MeasureOnLength(dist, Some(g), target, keepBeginMeasure).value;
    assert Positions(g) == Parts(g)[0] + Flatten(Parts(g)[1..]);
    assert !IsEmpty(g);
    assert Positions(out) == Parts(out)[0] + Flatten(Parts(out)[1..]);
    MeasureOnLengthValues(dist, g, target, keepBeginMeasure, 0, 0);
    assert Parts(g)[..0] == [];
    assert Parts(g)[0][..1] == [Parts(g)[0][0]];
  }

  /** Every measure of a non-empty output lies between the seed and the seed plus
      the summed length of the components. */
  lemma MeasureRange(dist: Distance, g: Geometry, target: MeasuredType, keepBeginMeasure: bool, p: Position)
    requires MeasureOnLength(dist, Some(g), target, keepBeginMeasure).Ok? && !IsEmpty(g)
    requires p in Positions(MeasureOnLength(dist, Some(g), target, keepBeginMeasure).value)
    ensures p.m.Some?
    ensures Seed(g, keepBeginMeasure) <= p.m.value <= Seed(g, keepBeginMeasure) + TotalLength(dist, Parts(g))
  {
    var out := MeasureOnLength(dist, Some(g), target, keepBeginMeasure).value;
    FlattenMembership(Parts(out), p);
    var k :| 0 <= k < |Parts(out)| && p in Parts(out)[k];
    var i :| 0 <= i < |Parts(out)[k]| && Parts(out)[k][i] == p;
    MeasureOnLengthValues(dist, g, target, keepBeginMeasure, k, i);
    MeasuresBounded(dist, Parts(g), Seed(g, keepBeginMeasure), k, i);
  }

  /** The index of the first element of s satisfying f, if any. */
  function FirstIndex<T>(s: seq<T>, f: T -> bool): (r: Option<nat>)
    ensures r.Some? ==> r.value < |s| && f(s[r.value])
    ensures r.Some? ==> forall j :: 0 <= j < r.value ==> !f(s[j])
    ensures r.None? <==> forall j :: 0 <= j < |s| ==> !f(s[j])
    decreases |s|
  {
    if s == [] then None
    else if f(s[0]) then Some(0)
    else
      match FirstIndex(s[1..], f)
      case None =>
        assert forall j :: 1 <= j < |s| ==> s[j] == s[1..][j - 1];
        None
      case Some(i) =>
        assert forall j :: 1 <= j < |s| ==> s[j] == s[1..][j - 1];
        Some(i + 1)
  }

  /** The segments of the components of a lineal geometry, component after
      component. No segment joins one component to the next. */
  function SegmentsOf(lines: seq<seq<Position>>): seq<LineSegment>
    decreases |lines|
  {
    if lines == [] then [] else Pairs(lines[0]) + SegmentsOf(lines[1..])
  }

  /** A segment of a multi-line is a segment of one of its components, and back. */
  lemma {:induction false} SegmentsOfMembership(lines: seq<seq<Position>>, seg: LineSegment)
    ensures seg in SegmentsOf(lines) <==> exists k :: 0 <= k < |lines| && seg in Pairs(lines[k])
    decreases |lines|
  {
    if lines != [] {
      SegmentsOfMembership(lines[1..], seg);
      if seg in SegmentsOf(lines[1..]) {
        var k :| 0 <= k < |lines[1..]| && seg in Pairs(lines[1..][k]);
        assert seg in Pairs(lines[k + 1]);
      }
      if exists k :: 0 <= k < |lines| && seg in Pairs(lines[k]) {
        var k :| 0 <= k < |lines| && seg in Pairs(lines[k]);
        if k > 0 {
          assert seg in Pairs(lines[1..][k - 1]);
        }
      }
    }
  }

  /** The end points of a segment of a sequence are positions of it. */
  lemma PairEnds(s: seq<Position>, seg: LineSegment)
    requires seg in Pairs(s)
    ensures seg.start in s && seg.end in s
  {
    var i :| 0 <= i < |Pairs(s)| && Pairs(s)[i] == seg;
    assert seg == LineSegment(s[i], s[i + 1]);
  }

  /** The end points of every segment of a geometry are positions of it. */
  lemma SegmentEnds(g: Geometry, seg: LineSegment)
    requires seg in SegmentsOf(Parts(g))
    ensures seg.start in Positions(g) && seg.end in Positions(g)
  {
    SegmentsOfMembership(Parts(g), seg);
    var k :| 0 <= k < |Parts(g)| && seg in Pairs(Parts(g)[k]);
    PairEnds(Parts(g)[k], seg);
    FlattenMembership(Parts(g), seg.start);
    FlattenMembership(Parts(g), seg.end);
  }

  /** An empty geometry has no segments. */
  lemma NoSegmentsWhenEmpty(g: Geometry)
    requires IsEmpty(g)
    ensures SegmentsOf(Parts(g)) == []
  {
    if SegmentsOf(Parts(g)) != [] {
      SegmentEnds(g, SegmentsOf(Parts(g))[0]);
      assert false;
    }
  }

  /** The cross product of v and d: zero exactly when v is parallel to d. */
  function CrossOf(vx: real, vy: real, dx: real, dy: real): real { vx * dy - vy * dx }

  /** The ratio of a vector v parallel to d over d, taken along the first axis on
      which d is non-zero; 0 for a zero d. */
  function Ratio(vx: real, vy: real, dx: real, dy: real): real
  {
    if dx != 0.0 then vx / dx else if dy != 0.0 then vy / dy else 0.0
  }

  // Arithmetic helpers for the ratio proofs (RatioLocates, RatioOfMultiple).

  lemma DivMul(x: real, d: real)
    requires d != 0.0
    ensures (x / d) * d == x
  {
  }

  lemma MulDiv(t: real, d: real)
    requires d != 0.0
    ensures (t * d) / d == t
  {
  }

  lemma Cancel(a: real, b: real, c: real)
    requires c != 0.0 && a * c == b * c
    ensures a == b
  {
    assert (a - b) * c == 0.0;
    MulDiv(a - b, c);
  }

  lemma MulNonNeg(x: real, y: real)
    requires 0.0 <= x && 0.0 <= y
    ensures 0.0 <= x * y
  {
  }

  /** A vector parallel to a non-zero d is its ratio times d. */
  lemma RatioLocates(vx: real, vy: real, dx: real, dy: real)
    requires dx != 0.0 || dy != 0.0
    requires CrossOf(vx, vy, dx, dy) == 0.0
    ensures vx == Ratio(vx, vy, dx, dy) * dx && vy == Ratio(vx, vy, dx, dy) * dy
  {
    var t := Ratio(vx, vy, dx, dy);
    if dx != 0.0 {
      DivMul(vx, dx);
      assert t * dx == vx;
      assert t * dy * dx == vy * dx;
      Cancel(t * dy, vy, dx);
    } else {
      DivMul(vy, dy);
      assert t * dy == vy;
      assert t * dx * dy == vx * dy;
      Cancel(t * dx, vx, dy);
    }
  }

  /** t times a non-zero d is parallel to d, and its ratio over d is t. */
  lemma RatioOfMultiple(dx: real, dy: real, t: real)
    requires dx != 0.0 || dy != 0.0
    ensures CrossOf(t * dx, t * dy, dx, dy) == 0.0
    ensures Ratio(t * dx, t * dy, dx, dy) == t
  {
    assert t * dx * dy == t * dy * dx;
    if dx != 0.0 { MulDiv(t, dx); } else { MulDiv(t, dy); }
  }

  /** A point of the interval between m0 and m1 lies between them. */
  lemma Scale(t: real, m0: real, m1: real)
    requires 0.0 <= t <= 1.0
    ensures Min(m0, m1) <= m0 + t * (m1 - m0) <= Max(m0, m1)
  {
    if m0 <= m1 {
      MulNonNeg(t, m1 - m0);
      MulNonNeg(1.0 - t, m1 - m0);
    } else {
      MulNonNeg(t, m0 - m1);
      MulNonNeg(1.0 - t, m0 - m1);
    }
  }

  /** Two positions at the same planar location. */
  predicate SameXY(q: Position, p: Position) { q.x == p.x && q.y == p.y }

  /** The cross product of p - start with end - start. */
  function Cross(seg: LineSegment, p: Position): real
  {
    CrossOf(p.x - seg.start.x, p.y - seg.start.y, seg.end.x - seg.start.x, seg.end.y - seg.start.y)
  }

  /** How far along the segment p lies, as a fraction of the segment: for a
      position on it, its distance from the start over the segment's length. */
  function Fraction(seg: LineSegment, p: Position): real
  {
    Ratio(p.x - seg.start.x, p.y - seg.start.y, seg.end.x - seg.start.x, seg.end.y - seg.start.y)
  }

  /** The exact on-segment test: p lies on the closed segment. A degenerate
      segment holds only its own point. Only x and y take part. */
  predicate OnSegment(seg: LineSegment, p: Position)
  {
    if SameXY(seg.start, seg.end) then SameXY(p, seg.start)
    else Cross(seg, p) == 0.0 && 0.0 <= Fraction(seg, p) <= 1.0
  }

  /** p is start + t * (end - start) in the plane. */
  predicate Along(seg: LineSegment, t: real, p: Position)
  {
    && p.x - seg.start.x == t * (seg.end.x - seg.start.x)
    && p.y - seg.start.y == t * (seg.end.y - seg.start.y)
  }

  /** The geometric meaning of lying on a segment: p is start + t * (end - start)
      for some t in [0, 1]. */
  ghost predicate Between(seg: LineSegment, p: Position)
  {
    exists t: real :: 0.0 <= t <= 1.0 && Along(seg, t, p)
  }

  /** On a segment, the fraction is the parameter t in [0, 1] that locates p. */
  lemma FractionLocates(seg: LineSegment, p: Position)
    requires OnSegment(seg, p)
    ensures 0.0 <= Fraction(seg, p) <= 1.0 && Along(seg, Fraction(seg, p), p)
  {
    var dx, dy := seg.end.x - seg.start.x, seg.end.y - seg.start.y;
    var vx, vy := p.x - seg.start.x, p.y - seg.start.y;
    if SameXY(seg.start, seg.end) {
      assert Fraction(seg, p) == 0.0;
    } else {
      RatioLocates(vx, vy, dx, dy);
    }
  }

  /** The exact test is the geometric definition, in both directions. */
  lemma OnSegmentIsBetween(seg: LineSegment, p: Position)
    ensures OnSegment(seg, p) <==> Between(seg, p)
  {
    if OnSegment(seg, p) {
      FractionLocates(seg, p);
    }
    if Between(seg, p) {
      var t: real :| 0.0 <= t <= 1.0 && Along(seg, t, p);
      var dx, dy := seg.end.x - seg.start.x, seg.end.y - seg.start.y;
      var vx, vy := p.x - seg.start.x, p.y - seg.start.y;
      assert vx == t * dx && vy == t * dy;
      if SameXY(seg.start, seg.end) {
        assert dx == 0.0 && dy == 0.0;
        assert t * 0.0 == 0.0;
      } else {
        RatioOfMultiple(dx, dy, t);
        assert Cross(seg, p) == CrossOf(t * dx, t * dy, dx, dy);
        assert Fraction(seg, p) == Ratio(t * dx, t * dy, dx, dy);
      }
    }
  }

  predicate MeasuredSegment(seg: LineSegment) { seg.start.m.Some? && seg.end.m.Some? }

  /** The measure at p by linear interpolation between the segment's end measures,
      in proportion to the distance from the start. On the segment it lies between
      the two end measures; it is the start's measure at the start and the end's
      measure at the end of a non-degenerate segment. */
  function Interpolate(seg: LineSegment, p: Position): (r: real)
    requires MeasuredSegment(seg)
    ensures OnSegment(seg, p) ==> Min(seg.start.m.value, seg.end.m.value) <= r <= Max(seg.start.m.value, seg.end.m.value)
    ensures SameXY(p, seg.start) ==> r == seg.start.m.value
    ensures SameXY(p, seg.end) && !SameXY(seg.start, seg.end) ==> r == seg.end.m.value
  {
    InterpolationBounds(seg, p, seg.start.m.value, seg.end.m.value);
    seg.start.m.value + Fraction(seg, p) * (seg.end.m.value - seg.start.m.value)
  }

  lemma InterpolationBounds(seg: LineSegment, p: Position, m0: real, m1: real)
    ensures var r := m0 + Fraction(seg, p) * (m1 - m0);
      && (OnSegment(seg, p) ==> Min(m0, m1) <= r <= Max(m0, m1))
      && (SameXY(p, seg.start) ==> r == m0)
      && (SameXY(p, seg.end) && !SameXY(seg.start, seg.end) ==> r == m1)
  {
    if OnSegment(seg, p) {
      FractionLocates(seg, p);
      Scale(Fraction(seg, p), m0, m1);
    }
    if SameXY(p, seg.start) {
      FractionAtStart(seg, p);
      assert Fraction(seg, p) * (m1 - m0) == 0.0;
    }
    if SameXY(p, seg.end) && !SameXY(seg.start, seg.end) {
      FractionAtEnd(seg, p);
      assert Fraction(seg, p) * (m1 - m0) == m1 - m0;
    }
  }

  /** The start of a segment lies at fraction 0. */
  lemma FractionAtStart(seg: LineSegment, p: Position)
    requires SameXY(p, seg.start)
    ensures Fraction(seg, p) == 0.0
  {
    var dx, dy := seg.end.x - seg.start.x, seg.end.y - seg.start.y;
    assert Fraction(seg, p) == Ratio(0.0, 0.0, dx, dy);
  }

  /** The end of a non-degenerate segment lies at fraction 1. */
  lemma FractionAtEnd(seg: LineSegment, p: Position)
    requires SameXY(p, seg.end) && !SameXY(seg.start, seg.end)
    ensures Fraction(seg, p) == 1.0
  {
    var dx, dy := seg.end.x - seg.start.x, seg.end.y - seg.start.y;
    assert 1.0 * dx == dx && 1.0 * dy == dy;
    RatioOfMultiple(dx, dy, 1.0);
    assert Fraction(seg, p) == Ratio(1.0 * dx, 1.0 * dy, dx, dy);
  }


  /** measureAt: the measure of the geometry at a position. Refused for a null
      geometry or position, and for a non-empty Polygon or MultiPolygon. Not found
      (None) on an empty geometry. On a Point or MultiPoint the position must
      coincide in x and y with one of its points; the first such gives its own
      measure. On a lineal geometry the position must lie on a segment of one of
      the components; the first such segment in traversal order gives the
      interpolated measure. */
  function MeasureAt(g: Option<Geometry>, p: Option<Position>): (r: Result<Option<real>>)
    requires g.Some? ==> Measured(g.value)
    ensures g.None? || p.None? ==> r == Err(NullArgument)
    ensures r.Ok? <==> g.Some? && p.Some? && (IsEmpty(g.value) || !(g.value.Polygon? || g.value.MultiPolygon?))
    ensures r.Err? && g.Some? && p.Some? ==> r.error == NotLineal
    ensures r.Ok? && IsEmpty(g.value) ==> r.value.None?
    ensures r.Ok? && (g.value.Point? || g.value.MultiPoint?) ==>
      (r.value.Some? <==> exists q :: q in Positions(g.value) && SameXY(q, p.value))
    ensures r.Ok? && r.value.Some? && (g.value.Point? || g.value.MultiPoint?) ==>
      var ps := Positions(g.value);
      exists i :: 0 <= i < |ps| && SameXY(ps[i], p.value) && (forall j :: 0 <= j < i ==> !SameXY(ps[j], p.value))
        && ps[i].m == Some(r.value.value)
    ensures r.Ok? && IsLineal(g.value) ==>
      (r.value.Some? <==> exists seg :: seg in SegmentsOf(Parts(g.value)) && OnSegment(seg, p.value))
    ensures r.Ok? && r.value.Some? && IsLineal(g.value) ==>
      var segs := SegmentsOf(Parts(g.value));
      exists i :: 0 <= i < |segs| && OnSegment(segs[i], p.value) && (forall j :: 0 <= j < i ==> !OnSegment(segs[j], p.value))
        && MeasuredSegment(segs[i]) && r.value.value == Interpolate(segs[i], p.value)
  {
    if g.None? || p.None? then Err(NullArgument)
    else if IsEmpty(g.value) then
      NoSegmentsWhenEmpty(g.value);
      Ok(None)
    else if g.value.Polygon? || g.value.MultiPolygon? then Err(NotLineal)
    else if g.value.Point? || g.value.MultiPoint? then
      var ps := Positions(g.value);
      match FirstIndex(ps, (q: Position) => SameXY(q, p.value))
      case None => Ok(None)
      case Some(i) => Ok(Some(ps[i].m.value))
    else
      var segs := SegmentsOf(Parts(g.value));
      match FirstIndex(segs, (seg: LineSegment) => OnSegment(seg, p.value))
      case None => Ok(None)
      case Some(i) =>
        SegmentEnds(g.value, segs[i]);
        Ok(Some(Interpolate(segs[i], p.value)))
  }

  /** The smallest of the measures of a non-empty list of measured positions. */
  function MinMeasureOf(ps: seq<Position>): (r: real)
    requires ps != [] && forall q :: q in ps ==> q.m.Some?
    ensures exists q :: q in ps && q.m == Some(r)
    ensures forall q :: q in ps ==> r <= q.m.value
    decreases |ps|
  {
    if |ps| == 1 then ps[0].m.value
    else
      var rest := MinMeasureOf(ps[1..]);
      assert forall q :: q in ps ==> q == ps[0] || q in ps[1..];
      Min(ps[0].m.value, rest)
  }

  /** The largest of the measures of a non-empty list of measured positions. */
  function MaxMeasureOf(ps: seq<Position>): (r: real)
    requires ps != [] && forall q :: q in ps ==> q.m.Some?
    ensures exists q :: q in ps && q.m == Some(r)
    ensures forall q :: q in ps ==> q.m.value <= r
    decreases |ps|
  {
    if |ps| == 1 then ps[0].m.value
    else
      var rest := MaxMeasureOf(ps[1..]);
      assert forall q :: q in ps ==> q == ps[0] || q in ps[1..];
      Max(ps[0].m.value, rest)
  }

  /** minimumMeasure: refused for a null geometry; not found on an empty one;
      otherwise a measure some position carries and no position goes below. */
  function MinimumMeasure(g: Option<Geometry>): (r: Result<Option<real>>)
    requires g.Some? ==> Measured(g.value)
    ensures g.None? ==> r == Err(NullArgument)
    ensures g.Some? ==> r.Ok? && (r.value.None? <==> IsEmpty(g.value))
    ensures r.Ok? && r.value.Some? ==>
      && (exists q :: q in Positions(g.value) && q.m == r.value)
      && forall q :: q in Positions(g.value) ==> r.value.value <= q.m.value
  {
    if g.None? then Err(NullArgument)
    else if IsEmpty(g.value) then Ok(None)
    else Ok(Some(MinMeasureOf(Positions(g.value))))
  }

  /** maximumMeasure: refused for a null geometry; not found on an empty one;
      otherwise a measure some position carries and no position goes above. */
  function MaximumMeasure(g: Option<Geometry>): (r: Result<Option<real>>)
    requires g.Some? ==> Measured(g.value)
    ensures g.None? ==> r == Err(NullArgument)
    ensures g.Some? ==> r.Ok? && (r.value.None? <==> IsEmpty(g.value))
    ensures r.Ok? && r.value.Some? ==>
      && (exists q :: q in Positions(g.value) && q.m == r.value)
      && forall q :: q in Positions(g.value) ==> q.m.value <= r.value.value
  {
    if g.None? then Err(NullArgument)
    else if IsEmpty(g.value) then Ok(None)
    else Ok(Some(MaxMeasureOf(Positions(g.value))))
  }
}
