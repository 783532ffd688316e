/** The quadtree of the unit tests: extent (0,0)-(100,100), depth 1 and 2. */
module MortonExamples {
  import opened Wrappers
  import opened Coordinates
  import opened Geometries
  import opened Morton

  const crs := Crs(31370, false, false)
  const extent := Envelope(0.0, 0.0, 100.0, 100.0, crs)
  const level1 := MortonContext(extent, 1)
  const level2 := MortonContext(extent, 2)

  function P(x: real, y: real): Position { Position(x, y, None, None) }

  /** Depth 1: midpoints go to the upper half, the far corner to quadrant 3. */
  lemma LevelOneCodes()
    ensures OfPosition(level1, P(0.0, 0.0)) == Ok("0")
    ensures OfPosition(level1, P(10.0, 49.0)) == Ok("0")
    ensures OfPosition(level1, P(0.0, 50.0)) == Ok("1")
    ensures OfPosition(level1, P(49.0, 50.0)) == Ok("1")
    ensures OfPosition(level1, P(50.0, 0.0)) == Ok("2")
    ensures OfPosition(level1, P(99.0, 49.0)) == Ok("2")
    ensures OfPosition(level1, P(50.0, 50.0)) == Ok("3")
    ensures OfPosition(level1, P(100.0, 100.0)) == Ok("3")
  {
    assert Show([0]) == "0" && Show([1]) == "1" && Show([2]) == "2" && Show([3]) == "3";
  }

  /** Depth 2: the second digit is taken within the child the first one chose. */
  lemma LevelTwoCodes()
    ensures OfPosition(level2, P(10.0, 55.0)) == Ok("10")
    ensures OfPosition(level2, P(49.0, 55.0)) == Ok("12")
    ensures OfPosition(level2, P(76.0, 24.0)) == Ok("22")
    ensures OfPosition(level2, P(76.0, 79.0)) == Ok("33")
  {
    QuadrantOneCodes();
    QuadrantTwoAndThreeCodes();
  }

  /** Two points of the cell labelled 1. */
  lemma QuadrantOneCodes()
    ensures OfPosition(level2, P(10.0, 55.0)) == Ok("10")
    ensures OfPosition(level2, P(49.0, 55.0)) == Ok("12")
  {
    assert Child(extent, 1) == Envelope(0.0, 50.0, 50.0, 100.0, crs);
    TwoDigits(10.0, 55.0, 1, 0);
    TwoDigits(49.0, 55.0, 1, 2);
    assert Show([1, 0]) == "10" && Show([1, 2]) == "12";
  }

  /** A point of the cell labelled 2 and one of the cell labelled 3. */
  lemma QuadrantTwoAndThreeCodes()
    ensures OfPosition(level2, P(76.0, 24.0)) == Ok("22")
    ensures OfPosition(level2, P(76.0, 79.0)) == Ok("33")
  {
    assert Child(extent, 2) == Envelope(50.0, 0.0, 100.0, 50.0, crs);
    assert Child(extent, 3) == Envelope(50.0, 50.0, 100.0, 100.0, crs);
    TwoDigits(76.0, 24.0, 2, 2);
    TwoDigits(76.0, 79.0, 3, 3);
    assert Show([2, 2]) == "22" && Show([3, 3]) == "33";
  }

  /** A point of the extent whose labels at depth 1 and 2 are q1 and q2 has code q1 q2. */
  lemma TwoDigits(x: real, y: real, q1: Quadrant, q2: Quadrant)
    requires 0.0 <= x <= 100.0 && 0.0 <= y <= 100.0
    requires QuadrantOf(extent, x, y) == q1 && QuadrantOf(Child(extent, q1), x, y) == q2
    ensures OfPosition(level2, P(x, y)) == Ok(Show([q1, q2]))
  {
    DescendTwo(x, y, q1, q2);
    assert P(x, y).Cap() == level2.extent.crs.Cap() && extent.Contains(P(x, y));
  }

  lemma DescendTwo(x: real, y: real, q1: Quadrant, q2: Quadrant)
    requires QuadrantOf(extent, x, y) == q1 && QuadrantOf(Child(extent, q1), x, y) == q2
    ensures Descend(extent, x, y, 2) == [q1, q2]
  {
    var c := Child(extent, q1);
    assert Descend(c, x, y, 1) == [q2] + Descend(Child(c, q2), x, y, 0);
  }

  /** The refusals: a position of another type, a position outside the extent,
      a geometry in another CRS. */
  lemma RefusedArguments()
    ensures OfPosition(level1, Position(1.0, 1.0, None, Some(3.0))) == Err(CrsMismatch)
    ensures OfPosition(level1, P(101.0, 101.0)) == Err(OutOfExtent)
    ensures OfGeometry(level1, Point(Crs(27562, false, false), Some(P(1.0, 1.0)))) == Err(CrsMismatch)
  {
  }

  /** envelopeOf at depth 2, and its refusals. */
  lemma CellsOfCodes()
    ensures EnvelopeOf(level2, Some("")) == Ok(extent)
    ensures EnvelopeOf(level2, Some("2")) == Ok(Envelope(50.0, 0.0, 100.0, 50.0, crs))
    ensures EnvelopeOf(level2, Some("12")) == Ok(Envelope(25.0, 50.0, 50.0, 75.0, crs))
    ensures EnvelopeOf(level2, Some("33")) == Ok(Envelope(75.0, 75.0, 100.0, 100.0, crs))
    ensures EnvelopeOf(level2, None) == Err(NullArgument)
    ensures EnvelopeOf(level2, Some("123")) == Err(CodeTooLong)
    ensures EnvelopeOf(level2, Some("42")) == Err(InvalidDigit)
  {
    assert Show([2]) == "2" && Show([1, 2]) == "12" && Show([3, 3]) == "33";
    ParseShow([2]);
    ParseShow([1, 2]);
    ParseShow([3, 3]);
    assert Child(extent, 1) == Envelope(0.0, 50.0, 50.0, 100.0, crs);
    assert Child(extent, 3) == Envelope(50.0, 50.0, 100.0, 100.0, crs);
  }

  /** The polygon whose single ring is the square [lo, hi]^2. */
  function Square(lo: real, hi: real): Geometry
  {
    Polygon(crs, [[P(lo, lo), P(lo, hi), P(hi, hi), P(hi, lo), P(lo, lo)]])
  }

  /** ofGeometry at depth 2 for the three squares of the unit test: a square in
      quadrant 0, one in quadrant 3, and one straddling the centre. */
  lemma SquareCodes()
    ensures OfGeometry(level2, Square(10.0, 40.0)) == Ok("0")
    ensures OfGeometry(level2, Square(60.0, 90.0)) == Ok("3")
    ensures OfGeometry(level2, Square(10.0, 90.0)) == Ok("")
  {
    SquareCode(10.0, 40.0);
    SquareCode(60.0, 90.0);
    SquareCode(10.0, 90.0);
    LowSquare();
    HighSquare();
    assert Classify(extent, Envelope(10.0, 10.0, 90.0, 90.0, crs), 2) == [];
    assert Show([0]) == "0" && Show([3]) == "3";
  }

  lemma LowSquare()
    ensures Classify(extent, Envelope(10.0, 10.0, 40.0, 40.0, crs), 2) == [0]
  {
    var box := Envelope(10.0, 10.0, 40.0, 40.0, crs);
    var c := Child(extent, 0);
    assert c == Envelope(0.0, 0.0, 50.0, 50.0, crs);
    assert Classify(c, box, 1) == [];
  }

  lemma HighSquare()
    ensures Classify(extent, Envelope(60.0, 60.0, 90.0, 90.0, crs), 2) == [3]
  {
    var box := Envelope(60.0, 60.0, 90.0, 90.0, crs);
    var c := Child(extent, 3);
    assert c == Envelope(50.0, 50.0, 100.0, 100.0, crs);
    assert Classify(c, box, 1) == [];
  }

  /** A square of the extent is coded by the classification of its own box. */
  lemma SquareCode(lo: real, hi: real)
    requires 0.0 <= lo <= hi <= 100.0
    ensures OfGeometry(level2, Square(lo, hi)) == Ok(Show(Classify(extent, Envelope(lo, lo, hi, hi, crs), 2)))
  {
    SquareBox(lo, hi);
    var g := Square(lo, hi);
    assert BoundingBox(g).Within(extent);
  }

  /** The envelope of the closed square ring [lo, hi]^2. */
  lemma SquareBox(lo: real, hi: real)
    requires lo <= hi
    ensures !IsEmpty(Square(lo, hi)) && BoundingBox(Square(lo, hi)) == Envelope(lo, lo, hi, hi, crs)
  {
    var ring := [P(lo, lo), P(lo, hi), P(hi, hi), P(hi, lo), P(lo, lo)];
    var g := Square(lo, hi);
    assert Parts(g) == [ring];
    assert [ring][1..] == [] && ring + [] == ring;
    assert Flatten([ring][1..]) == [];
    assert Flatten([ring]) == ring + Flatten([ring][1..]);
    assert Positions(g) == ring;
    var b := BoundingBox(g);
    assert b.Contains(P(lo, lo)) && b.Contains(P(hi, hi));
  }
}
