# geolatte-geom kernel: Morton codes, measures, segments, polygons

A Dafny model of four parts of the geolatte-geom geometry library:

- **Morton quadtree addressing.** A `MortonContext` is an extent and a depth. `ofPosition` gives the full-depth quadtree code of a position. `ofGeometry` gives the code of the smallest cell that wholly contains a geometry's envelope. `envelopeOf` rebuilds the cell of a code. `getMaxLength` gives the depth (`morton.dfy`).
- **The linear-referencing engine** (`DefaultMeasureGeometryOperations`). `measureOnLength` sets every M ordinate to the running path length. `measureAt` interpolates the measure at a position on the geometry. `minimumMeasure` and `maximumMeasure` give the extreme measures (`measures.dfy`).
- **Segment iteration and builders.** `LineSegments` iterates over the adjacent pairs of a position sequence (`segments.dfy`). The fixed-size and variable-size position-sequence builders are classes with the state the library mutates: an array and a fill count, or a growing sequence (`builders.dfy`).
- **Polygon construction and point-wise equality.** `LinearRing` and `Polygon` refuse empty and open rings. `GeometryPointEquality` compares two geometries variant by variant and position by position (`geometries.dfy`, `equality.dfy`).

Positions are values `Position(x, y, z, m)`. Their z and m are optional, and which of them is present is the position's type (P2D, P3D, P2DM, P3DM). A CRS is its SRID plus two axis flags. A null argument is `None`. An `IllegalArgumentException` is an `Err` carrying the reason. A NaN result ("not found") is `Ok(None)`.

The implementation classes are known only through their unit tests. The model therefore does what those tests assert. The examples modules (`morton_examples.dfy`, `measure_examples.dfy`, `segment_examples.dfy`, `polygon_examples.dfy`) restate each test's assertions as lemmas or methods about the model. The general lemmas give the properties behind them: round trips, containment, monotonicity, bounds and first-match behaviour.

## Model

| member | source | states |
|---|---|---|
| Coordinates.FromOrdinates | src/test/java/org/geolatte/geom/LineSegmentsTest.java:43-45 | an `add(ordinates...)` call with as many ordinates as the type has builds a position of that type whose ordinates are exactly those given; any other count is refused with WrongArity |
| Coordinates.OrdinatesRoundTrip | src/test/java/org/geolatte/geom/LineSegmentsTest.java:43-45 | building a position from its own type and ordinates gives the position back |
| Geometries.FlattenMembership | src/test/java/org/geolatte/geom/TestDefaultMeasureGeometryOperations.java:124-133 | a position of the flattened positions of a multi-part geometry is a position of one of its parts, and back |
| Geometries.MakeLinearRing | src/test/java/org/geolatte/geom/PolygonTest.java:55-62 | a LinearRing is built exactly when its sequence is empty or closed with at least four positions; otherwise InvalidRing; the ring keeps the sequence and CRS |
| Geometries.MakePolygon | src/test/java/org/geolatte/geom/PolygonTest.java:52-66 | a Polygon is built exactly when there is a shell, no ring is empty and all rings share the shell's CRS; an empty shell or an empty inner ring is refused with EmptyRing; the result is a valid polygon holding the rings' sequences in order |
| Geometries.Bounds | src/test/java/org/geolatte/geom/curve/MortonCodeTest.java:88-98 | the bounding box of a non-empty position list contains every position, and each of its four edges is touched by a position |
| Geometries.BoundingBox | src/test/java/org/geolatte/geom/curve/MortonCodeTest.java:88-98 | the envelope of a non-empty geometry contains all its positions, and it lies within an envelope exactly when every position does |
| GeometryEquality.SamePosition | src/test/java/org/geolatte/geom/PolygonTest.java:82-92 | comparing type and ordinates is exactly value equality of positions |
| GeometryEquality.SamePositions | src/test/java/org/geolatte/geom/PolygonTest.java:82-92 | comparing two sequences position by position is exactly sequence equality |
| GeometryEquality.SameParts | src/test/java/org/geolatte/geom/PolygonTest.java:82-92 | comparing rings or components part by part is exactly equality |
| GeometryEquality.SamePolygons | src/test/java/org/geolatte/geom/PolygonTest.java:82-92 | comparing the polygons of a multi-polygon part by part is exactly equality |
| GeometryEquality.SameGeometry | src/test/java/org/geolatte/geom/PolygonTest.java:82-92 | same variant, same CRS and point-wise equal parts holds exactly when the geometries are equal |
| GeometryEquality.PointEquals | src/test/java/org/geolatte/geom/PolygonTest.java:82-92 | two nulls are equal, a null never equals a geometry, and two geometries are point-wise equal exactly when they are equal |
| GeometryEquality.PointEqualsIsEquivalence | src/test/java/org/geolatte/geom/PolygonTest.java:82-87 | point-wise equality is reflexive, symmetric and transitive |
| GeometryEquality.NullAndVariantInequality | src/test/java/org/geolatte/geom/PolygonTest.java:83-92 | a geometry never equals null in either order, and a Polygon never equals a Point in either order |
| GeometryEquality.PolygonEqualityFromRings | src/test/java/org/geolatte/geom/PolygonTest.java:70-90 | polygons built from rings with identical sequences are equal in both directions; if some ring differs at some position, they are unequal in both directions |
| Builders.PositionsOf | src/test/java/org/geolatte/geom/LineSegmentsTest.java:42-46 | a list of `add` calls makes positions exactly when every call has the type's arity, one position per call, in order, each of the builder's type with the given ordinates |
| Builders.FixedSizeBuilder.constructor | src/test/java/org/geolatte/geom/LineSegmentsTest.java:42 | a fresh builder with a buffer of the declared capacity, nothing added, not yet finalised |
| Builders.FixedSizeBuilder.Add | src/test/java/org/geolatte/geom/LineSegmentsTest.java:43-45 | appends the position when there is room and the arity is right; refuses with Consumed after finalisation, WrongArity or CapacityExceeded, leaving the contents unchanged |
| Builders.FixedSizeBuilder.ToPositionSequence | src/test/java/org/geolatte/geom/LineSegmentsTest.java:46 | finalises exactly when the buffer is full and not yet finalised, returning the positions in insertion order; a partly filled builder is refused with NotFilled |
| Builders.BuildFixed | src/test/java/org/geolatte/geom/LineSegmentsTest.java:42-46 | filling a builder of capacity n with a list of calls and finalising succeeds exactly when there are n calls of the right arity, and gives those positions in order; capacity 0 with no calls gives the empty sequence |
| Builders.PositionsOfAppend | src/test/java/org/geolatte/geom/LineSegmentsTest.java:43-46 | one more `add` call appends one position at the end |
| Builders.VariableSizeBuilder.constructor | src/test/java/org/geolatte/geom/PolygonTest.java:43 | a fresh builder holding no positions, not yet finalised |
| Builders.VariableSizeBuilder.Add | src/test/java/org/geolatte/geom/PolygonTest.java:43 | appends the position when the arity is right; refuses after finalisation or on a wrong arity, leaving the positions unchanged |
| Builders.VariableSizeBuilder.ToPositionSequence | src/test/java/org/geolatte/geom/PolygonTest.java:43 | the first call returns everything added, in order; later calls are refused with Consumed |
| Builders.BuildVariable | src/test/java/org/geolatte/geom/PolygonTest.java:43-49 | a chain of `add` calls finalised succeeds exactly when every call has the right arity, and gives those positions in order |
| Segments.Pairs | src/test/java/org/geolatte/geom/LineSegmentsTest.java:47-54 | n positions give n - 1 segments (none for fewer than two), segment i running from position i to position i + 1 |
| Segments.SegmentsChain | src/test/java/org/geolatte/geom/LineSegmentsTest.java:47-53 | the first segment starts at position 0 and each segment starts where the previous one ends |
| Segments.LineSegments.constructor | src/test/java/org/geolatte/geom/LineSegmentsTest.java:49 | a fresh iterator over the sequence whose remaining segments are all of its adjacent pairs |
| Segments.LineSegments.Next | src/test/java/org/geolatte/geom/LineSegmentsTest.java:49-53 | while segments remain, returns the next adjacent pair and drops it from the remaining ones; afterwards returns None and changes nothing |
| Segments.CollectSegments | src/test/java/org/geolatte/geom/LineSegmentsTest.java:49-53 | draining the iterator yields exactly the adjacent pairs, in order |
| Segments.WalkSegments | src/test/java/org/geolatte/geom/LineSegmentsTest.java:47-54 | the test's loop counts exactly the adjacent pairs, and each segment starts at the x where the previous one ended (the first at position 0) |
| SegmentExamples.ThreePositions | src/test/java/org/geolatte/geom/LineSegmentsTest.java:40-55 | three 3D positions added to a builder of capacity 3 finalise to a sequence starting at x = 1 and ending at x = 3, whose walk counts 2 chained segments |
| SegmentExamples.NoPositions | src/test/java/org/geolatte/geom/LineSegmentsTest.java:57-64 | a builder of capacity 0 finalises to the empty sequence, which has no segments |
| PolygonExamples.Sequence | src/test/java/org/geolatte/geom/PolygonTest.java:43-49 | a variable-size builder fed `add(x, y)` pairs gives those 2D positions in order |
| PolygonExamples.Ring | src/test/java/org/geolatte/geom/PolygonTest.java:70-78 | a closed five-position coordinate list gives a non-empty LinearRing of those positions |
| PolygonExamples.EmptyRingsRefused | src/test/java/org/geolatte/geom/PolygonTest.java:52-66 | a polygon with an empty shell, and one with a closed shell and an empty inner ring, are both refused |
| PolygonExamples.TestRings | src/test/java/org/geolatte/geom/PolygonTest.java:43-79 | the rings of the test: the first two polygons' rings have identical sequences, and the third's shell differs from the first's at position 0 |
| PolygonExamples.PolygonEquality | src/test/java/org/geolatte/geom/PolygonTest.java:68-94 | every equality assertion of the test: reflexive, two nulls equal, not equal to null, equal to the identical polygon both ways, unequal to the polygon with another shell both ways, unequal to a point |
| Morton.Child | src/test/java/org/geolatte/geom/curve/MortonCodeTest.java:147-153 | a child cell is well formed, lies within its parent, has the parent's CRS and half its width and height |
| Morton.ChildContains | src/test/java/org/geolatte/geom/curve/MortonCodeTest.java:65-85 | the child chosen for a point of a cell contains that point |
| Morton.HalfOpenChildQuadrant | src/test/java/org/geolatte/geom/curve/MortonCodeTest.java:53-61 | a point of child q, upper edges excluded, is labelled q: lower edges of the upper halves belong to the upper halves |
| Morton.Replay | src/test/java/org/geolatte/geom/curve/MortonCodeTest.java:147-162 | the cell of a digit sequence is well formed and lies within the extent |
| Morton.ReplayHalves | src/test/java/org/geolatte/geom/curve/MortonCodeTest.java:156-162 | each digit halves the cell along both axes |
| Morton.Descend | src/test/java/org/geolatte/geom/curve/MortonCodeTest.java:65-85 | the descent gives exactly n digits, and a point of the cell stays in the cell its digits select |
| Morton.Classify | src/test/java/org/geolatte/geom/curve/MortonCodeTest.java:88-98 | at most n digits; a box within the extent lies within the cell of the digits emitted; when fewer than n are emitted, the box fits in no child of that cell |
| Morton.ClassifyIsCommonPrefix | src/test/java/org/geolatte/geom/curve/MortonCodeTest.java:88-98 | ofGeometry's classification is the longest common prefix of the descents of the box's lower-left and upper-right corners |
| Morton.ClassifyPoint | src/test/java/org/geolatte/geom/curve/MortonCodeTest.java:101-118 | for a box that is a single point, the classification is that point's full descent |
| Morton.Show | src/test/java/org/geolatte/geom/curve/MortonCodeTest.java:164-177 | a code string has one character per digit, each in 0..3 |
| Morton.Parse | src/test/java/org/geolatte/geom/curve/MortonCodeTest.java:164-177 | a string parses exactly when every character is 0..3, and the parse shows back as the string |
| Morton.ParseShow | src/test/java/org/geolatte/geom/curve/MortonCodeTest.java:164-177 | parsing the string of a digit sequence gives the sequence back |
| Morton.OfPosition | src/test/java/org/geolatte/geom/curve/MortonCodeTest.java:52-139 | refused with CrsMismatch for a position of another type, otherwise with OutOfExtent for a position outside the extent; otherwise exactly `levels` digits whose cell contains the position |
| Morton.OfGeometry | src/test/java/org/geolatte/geom/curve/MortonCodeTest.java:88-139 | refused with CrsMismatch for another CRS, otherwise with OutOfExtent unless the geometry is non-empty and inside the extent; otherwise at most `levels` digits whose cell contains every position |
| Morton.EnvelopeOf | src/test/java/org/geolatte/geom/curve/MortonCodeTest.java:147-177 | refused for a null code, a code longer than `levels` (CodeTooLong) or a character outside 0..3 (InvalidDigit); otherwise a cell within the extent whose sides are the extent's halved once per digit |
| Morton.MaxLength | src/test/java/org/geolatte/geom/curve/MortonCodeTest.java:141-145 | the depth bounds every code: each position code has exactly that length, each geometry code at most that, and longer codes are refused by envelopeOf |
| Morton.DescendThroughCell | src/test/java/org/geolatte/geom/curve/MortonCodeTest.java:73 | a point of a code's cell, upper edges excluded, descends through that code |
| Morton.CodeRoundTrip | src/test/java/org/geolatte/geom/curve/MortonCodeTest.java:73 | every position of the cell of a code, upper edges excluded, gets a code extending it |
| Morton.DescendUpperCorner | src/test/java/org/geolatte/geom/curve/MortonCodeTest.java:61 | the extent's upper-right corner descends through quadrant 3 at every level |
| Morton.UpperCornerCode | src/test/java/org/geolatte/geom/curve/MortonCodeTest.java:61 | a position on the extent's upper-right corner is inside, and its code is all 3s |
| Morton.PointGeometryCode | src/test/java/org/geolatte/geom/curve/MortonCodeTest.java:101-118 | ofGeometry of a Point equals ofPosition of its position |
| Morton.OfGeometryIsCommonPrefix | src/test/java/org/geolatte/geom/curve/MortonCodeTest.java:88-98 | ofGeometry's code is the longest common prefix of the codes of its envelope's corners |
| Morton.SpanningGeometryCode | src/test/java/org/geolatte/geom/curve/MortonCodeTest.java:96-97 | a geometry with two positions in different top-level quadrants gets the empty code |
| MortonExamples.LevelOneCodes | src/test/java/org/geolatte/geom/curve/MortonCodeTest.java:52-62 | the depth-1 codes of the test, with midpoints going to the upper half and (100,100) to quadrant 3 |
| MortonExamples.LevelTwoCodes | src/test/java/org/geolatte/geom/curve/MortonCodeTest.java:64-86 | the depth-2 codes 10, 12, 22 and 33 of the test |
| MortonExamples.QuadrantOneCodes | src/test/java/org/geolatte/geom/curve/MortonCodeTest.java:71-73 | (10,55) gets 10 and (49,55) gets 12 |
| MortonExamples.QuadrantTwoAndThreeCodes | src/test/java/org/geolatte/geom/curve/MortonCodeTest.java:78-84 | (76,24) gets 22 and (76,79) gets 33 |
| MortonExamples.TwoDigits | src/test/java/org/geolatte/geom/curve/MortonCodeTest.java:64-86 | a point of the extent whose labels at depth 1 and 2 are q1 and q2 has the code q1 q2 |
| MortonExamples.DescendTwo | src/test/java/org/geolatte/geom/curve/MortonCodeTest.java:64-86 | the two-level descent is the label in the extent followed by the label in the chosen child |
| MortonExamples.RefusedArguments | src/test/java/org/geolatte/geom/curve/MortonCodeTest.java:120-139 | a P2DM position and a geometry in EPSG 27562 are refused with CrsMismatch; (101,101) is refused with OutOfExtent |
| MortonExamples.CellsOfCodes | src/test/java/org/geolatte/geom/curve/MortonCodeTest.java:147-177 | the cells of "", "2", "12" and "33", and the refusals of null, "123" and "42" |
| MortonExamples.SquareCodes | src/test/java/org/geolatte/geom/curve/MortonCodeTest.java:88-99 | the squares [10,40]², [60,90]² and [10,90]² get the codes "0", "3" and "" |
| MortonExamples.LowSquare | src/test/java/org/geolatte/geom/curve/MortonCodeTest.java:90-91 | [10,40]² fits in quadrant 0 but in none of its children |
| MortonExamples.HighSquare | src/test/java/org/geolatte/geom/curve/MortonCodeTest.java:93-94 | [60,90]² fits in quadrant 3 but in none of its children |
| MortonExamples.SquareCode | src/test/java/org/geolatte/geom/curve/MortonCodeTest.java:88-99 | a square polygon in the extent gets the code of the classification of its own box |
| MortonExamples.SquareBox | src/test/java/org/geolatte/geom/curve/MortonCodeTest.java:90-96 | the envelope of the closed square ring [lo,hi]² is [lo,hi]² |
| Measures.PathLength | src/test/java/org/geolatte/geom/TestDefaultMeasureGeometryOperations.java:69-75 | the length of a path is never negative |
| Measures.PathLengthPrefix | src/test/java/org/geolatte/geom/TestDefaultMeasureGeometryOperations.java:69-75 | a longer prefix of a path is never shorter |
| Measures.TotalLength | src/test/java/org/geolatte/geom/TestDefaultMeasureGeometryOperations.java:77-86 | the summed lengths of the components of a multi-line are never negative |
| Measures.TotalLengthAppend | src/test/java/org/geolatte/geom/TestDefaultMeasureGeometryOperations.java:77-86 | appending a component adds its own length and nothing for the gap before it |
| Measures.TotalLengthShift | src/test/java/org/geolatte/geom/TestDefaultMeasureGeometryOperations.java:77-86 | the length of the first k components is the first one's length plus that of the next k - 1 |
| Measures.TotalLengthPrefix | src/test/java/org/geolatte/geom/TestDefaultMeasureGeometryOperations.java:77-86 | more components are never shorter |
| Measures.WithMeasure | src/test/java/org/geolatte/geom/TestDefaultMeasureGeometryOperations.java:112-134 | setting the measure keeps x, y and z |
| Measures.MeasureFrom | src/test/java/org/geolatte/geom/TestDefaultMeasureGeometryOperations.java:69-75 | the running-total loop keeps the length of the component and measures every position |
| Measures.PathLengthStep | src/test/java/org/geolatte/geom/TestDefaultMeasureGeometryOperations.java:69-75 | extending a path by one position adds the length of the last segment |
| Measures.MeasureFromAt | src/test/java/org/geolatte/geom/TestDefaultMeasureGeometryOperations.java:69-75 | the loop resumed at position j with the total reached there gives each later position the seed plus its path length |
| Measures.MeasureLine | src/test/java/org/geolatte/geom/TestDefaultMeasureGeometryOperations.java:69-75 | on one component, position i gets the seed plus the path length up to i, every other ordinate kept |
| Measures.MeasureLines | src/test/java/org/geolatte/geom/TestDefaultMeasureGeometryOperations.java:77-86 | across components the structure is kept and every position gets a measure |
| Measures.CarriedTotal | src/test/java/org/geolatte/geom/TestDefaultMeasureGeometryOperations.java:77-86 | a component hands on the incoming total plus its own length |
| Measures.MeasureLinesFirst | src/test/java/org/geolatte/geom/TestDefaultMeasureGeometryOperations.java:77-86 | the first component is measured from the incoming total |
| Measures.MeasureLinesRest | src/test/java/org/geolatte/geom/TestDefaultMeasureGeometryOperations.java:77-86 | each later component is measured as among the remaining components, from the total after the first |
| Measures.ValueFirst | src/test/java/org/geolatte/geom/TestDefaultMeasureGeometryOperations.java:77-86 | the closed form of the measures holds on the first component |
| Measures.ValueStep | src/test/java/org/geolatte/geom/TestDefaultMeasureGeometryOperations.java:77-86 | the closed form carries over from component k - 1 to component k |
| Measures.ValueInduction | src/test/java/org/geolatte/geom/TestDefaultMeasureGeometryOperations.java:77-86 | the closed form holds on every component |
| Measures.MeasureLinesValue | src/test/java/org/geolatte/geom/TestDefaultMeasureGeometryOperations.java:77-86 | position i of component k gets the seed plus the lengths of the earlier components plus its own path length, every other ordinate kept |
| Measures.MeasureValue | src/test/java/org/geolatte/geom/TestDefaultMeasureGeometryOperations.java:77-86 | the same closed form, for the measure alone |
| Measures.ComponentsJoin | src/test/java/org/geolatte/geom/TestDefaultMeasureGeometryOperations.java:82-83 | accumulation does not reset: the first position of a component carries the measure of the last position of the previous one |
| Measures.LengthUpTo | src/test/java/org/geolatte/geom/TestDefaultMeasureGeometryOperations.java:77-86 | the length up to a position of a component is at most the length up to the end of that component |
| Measures.LengthOrdered | src/test/java/org/geolatte/geom/TestDefaultMeasureGeometryOperations.java:77-86 | the length up to a position grows along the traversal |
| Measures.MeasuresIncrease | src/test/java/org/geolatte/geom/TestDefaultMeasureGeometryOperations.java:77-86 | measures never decrease along the traversal, across component boundaries too |
| Measures.RepeatedPosition | src/test/java/org/geolatte/geom/TestDefaultMeasureGeometryOperations.java:82-83 | a repeated position adds nothing: it carries the measure of the position before it |
| Measures.MeasuresBounded | src/test/java/org/geolatte/geom/TestDefaultMeasureGeometryOperations.java:77-86 | every measure lies between the seed and the seed plus the total length |
| Measures.MeasuredCrs | src/test/java/org/geolatte/geom/TestDefaultMeasureGeometryOperations.java:97-110 | adding the measure axis keeps the SRID and the vertical axis |
| Measures.MeasureOnLength | src/test/java/org/geolatte/geom/TestDefaultMeasureGeometryOperations.java:53-122 | refused for null (NullArgument), a target type whose vertical axis disagrees (TypeMismatch), or a non-empty non-lineal geometry (NotLineal); an empty geometry comes back empty in the measured CRS; otherwise the same variant in the measured CRS, with the running-length measures of MeasureLines from the seed |
| Measures.MeasureOnLengthValues | src/test/java/org/geolatte/geom/TestDefaultMeasureGeometryOperations.java:69-95 | output position i of component k is the input position with measure seed + earlier components' lengths + its path length |
| Measures.MeasuredOutput | src/test/java/org/geolatte/geom/TestDefaultMeasureGeometryOperations.java:97-116 | the output is measured throughout and, for a well-typed input, every position has the output CRS's type |
| Measures.MeasuredPosition | src/test/java/org/geolatte/geom/TestDefaultMeasureGeometryOperations.java:112-134 | every output position is an input position with only its M changed |
| Measures.FirstMeasureIsSeed | src/test/java/org/geolatte/geom/TestDefaultMeasureGeometryOperations.java:88-95 | the first output position carries the seed: 0, or with keepBeginMeasure the input's first measure |
| Measures.MeasureRange | src/test/java/org/geolatte/geom/TestDefaultMeasureGeometryOperations.java:69-95 | every output measure lies between the seed and the seed plus the total length |
| Measures.FirstIndex | src/test/java/org/geolatte/geom/TestDefaultMeasureGeometryOperations.java:182-186 | the first element satisfying the test, or None exactly when none does |
| Measures.SegmentsOfMembership | src/test/java/org/geolatte/geom/TestDefaultMeasureGeometryOperations.java:166-174 | a segment of a multi-line is a segment of one of its components, and back, so no segment spans the gap between components |
| Measures.PairEnds | src/test/java/org/geolatte/geom/TestDefaultMeasureGeometryOperations.java:154-164 | the end points of a segment of a sequence are positions of the sequence |
| Measures.SegmentEnds | src/test/java/org/geolatte/geom/TestDefaultMeasureGeometryOperations.java:154-164 | the end points of a segment of a geometry are positions of the geometry |
| Measures.NoSegmentsWhenEmpty | src/test/java/org/geolatte/geom/TestDefaultMeasureGeometryOperations.java:148-152 | an empty geometry has no segments |
| Measures.RatioLocates | src/test/java/org/geolatte/geom/TestDefaultMeasureGeometryOperations.java:160-180 | a vector parallel to a non-zero direction is its ratio times that direction |
| Measures.RatioOfMultiple | src/test/java/org/geolatte/geom/TestDefaultMeasureGeometryOperations.java:160-180 | a multiple t of a non-zero direction is parallel to it, and its ratio is t |
| Measures.Scale | src/test/java/org/geolatte/geom/TestDefaultMeasureGeometryOperations.java:160-180 | a point of the interval between two measures lies between them |
| Measures.FractionLocates | src/test/java/org/geolatte/geom/TestDefaultMeasureGeometryOperations.java:154-164 | on a segment, the fraction is the parameter in [0, 1] that locates the position |
| Measures.OnSegmentIsBetween | src/test/java/org/geolatte/geom/TestDefaultMeasureGeometryOperations.java:154-164 | the exact on-segment test holds exactly when the position is start + t(end - start) for some t in [0, 1] |
| Measures.Interpolate | src/test/java/org/geolatte/geom/TestDefaultMeasureGeometryOperations.java:160-180 | on a segment, the interpolated measure lies between the end measures; it is the start's measure at the start and the end's at the end |
| Measures.InterpolationBounds | src/test/java/org/geolatte/geom/TestDefaultMeasureGeometryOperations.java:160-180 | the interpolation formula is bounded by the end measures on the segment, and meets them at the ends |
| Measures.FractionAtStart | src/test/java/org/geolatte/geom/TestDefaultMeasureGeometryOperations.java:160-164 | the start of a segment lies at fraction 0 |
| Measures.FractionAtEnd | src/test/java/org/geolatte/geom/TestDefaultMeasureGeometryOperations.java:160-164 | the end of a non-degenerate segment lies at fraction 1 |
| Measures.MeasureAt | src/test/java/org/geolatte/geom/TestDefaultMeasureGeometryOperations.java:136-186 | refused for a null geometry or position; not found on an empty geometry; on a Point or MultiPoint, found exactly when some point matches in x and y, giving the first such point's measure; on a lineal geometry, found exactly when some segment holds the position, giving the interpolation on the first such segment |
| Measures.MinMeasureOf | src/test/java/org/geolatte/geom/TestDefaultMeasureGeometryOperations.java:188-199 | a measure some position carries and no position goes below |
| Measures.MaxMeasureOf | src/test/java/org/geolatte/geom/TestDefaultMeasureGeometryOperations.java:201-211 | a measure some position carries and no position goes above |
| Measures.MinimumMeasure | src/test/java/org/geolatte/geom/TestDefaultMeasureGeometryOperations.java:188-216 | refused for null; not found exactly on an empty geometry; otherwise a measure some position carries and no position goes below |
| Measures.MaximumMeasure | src/test/java/org/geolatte/geom/TestDefaultMeasureGeometryOperations.java:201-211 | refused for null; not found exactly on an empty geometry; otherwise a measure some position carries and no position goes above |
| MeasureExamples.AxisLength | src/test/java/org/geolatte/geom/TestDefaultMeasureGeometryOperations.java:69-75 | the axis-parallel length used by the fixtures is non-negative and zero between equal positions |
| MeasureExamples.UnitSteps | src/test/java/org/geolatte/geom/TestDefaultMeasureGeometryOperations.java:69-75 | along a path of unit steps, the length up to position i is i |
| MeasureExamples.LineSteps | src/test/java/org/geolatte/geom/TestDefaultMeasureGeometryOperations.java:69-75 | the fixture line (0,0) (1,0) (1,1) (2,1) has unit steps |
| MeasureExamples.UnitStepMeasures | src/test/java/org/geolatte/geom/TestDefaultMeasureGeometryOperations.java:69-75 | on a LineString of unit steps, output position i gets the seed plus i |
| MeasureExamples.UnitStepLine | src/test/java/org/geolatte/geom/TestDefaultMeasureGeometryOperations.java:69-75 | measureOnLength on a LineString of unit steps is the LineString of those positions measured seed, seed + 1, ... |
| MeasureExamples.MeasuredLine | src/test/java/org/geolatte/geom/TestDefaultMeasureGeometryOperations.java:69-75 | the fixture line gets the measures 0, 1, 2, 3 |
| MeasureExamples.SecondComponentMeasure | src/test/java/org/geolatte/geom/TestDefaultMeasureGeometryOperations.java:77-86 | position i of the second unit-step component is at length (length of the first) + i |
| MeasureExamples.TwoUnitLines | src/test/java/org/geolatte/geom/TestDefaultMeasureGeometryOperations.java:77-86 | on a two-component MultiLineString of unit steps, the second component continues from the last measure of the first |
| MeasureExamples.FirstComponent | src/test/java/org/geolatte/geom/TestDefaultMeasureGeometryOperations.java:79-82 | the first component of that output |
| MeasureExamples.SecondComponent | src/test/java/org/geolatte/geom/TestDefaultMeasureGeometryOperations.java:83-85 | the second component of that output |
| MeasureExamples.SecondLineSteps | src/test/java/org/geolatte/geom/TestDefaultMeasureGeometryOperations.java:77-86 | the second fixture component (3,1) (4,1) (5,1) has unit steps |
| MeasureExamples.MeasuredMultiLine | src/test/java/org/geolatte/geom/TestDefaultMeasureGeometryOperations.java:77-86 | the fixture multi-line gets 0, 1, 2, 3 and then 3, 4, 5: no reset, and nothing for the gap |
| MeasureExamples.LineMeasures | src/test/java/org/geolatte/geom/TestDefaultMeasureGeometryOperations.java:69-75 | the measured fixture line is the fixture line measured 0, 1, 2, 3 |
| MeasureExamples.SecondLineMeasures | src/test/java/org/geolatte/geom/TestDefaultMeasureGeometryOperations.java:83-85 | the measured second component is measured 3, 4, 5 |
| MeasureExamples.MeasureOnLengthRefusals | src/test/java/org/geolatte/geom/TestDefaultMeasureGeometryOperations.java:53-67 | null, a 2D line asked for P3DM, and a Point are refused; the empty LineString gives the empty measured LineString |
| MeasureExamples.LinePositions | src/test/java/org/geolatte/geom/TestDefaultMeasureGeometryOperations.java:124-133 | the positions of a LineString are its points |
| MeasureExamples.KeepBeginMeasure | src/test/java/org/geolatte/geom/TestDefaultMeasureGeometryOperations.java:88-95 | with keepBeginMeasure the 3DM line measured 5, 10, 20, 30 is remeasured 5, 6, 7, 8 |
| MeasureExamples.Line3DMSteps | src/test/java/org/geolatte/geom/TestDefaultMeasureGeometryOperations.java:88-95 | the 3DM fixture line has unit steps |
| MeasureExamples.Line3DMSeed | src/test/java/org/geolatte/geom/TestDefaultMeasureGeometryOperations.java:88-95 | the seed of the 3DM line with keepBeginMeasure is its first measure, 5 |
| MeasureExamples.Remeasured3DM | src/test/java/org/geolatte/geom/TestDefaultMeasureGeometryOperations.java:88-95 | the remeasured line is the 3DM line measured 5 + i |
| MeasureExamples.FirstSegmentMeasure | src/test/java/org/geolatte/geom/TestDefaultMeasureGeometryOperations.java:160-180 | when segment i is the first to hold the position, measureAt interpolates on it |
| MeasureExamples.NoSegmentMeasure | src/test/java/org/geolatte/geom/TestDefaultMeasureGeometryOperations.java:154-158 | when no segment holds the position, measureAt gives not found |
| MeasureExamples.OnHorizontal | src/test/java/org/geolatte/geom/TestDefaultMeasureGeometryOperations.java:160-174 | on a segment parallel to the x axis, the exact test is a y match and a fraction in [0, 1] |
| MeasureExamples.OnVertical | src/test/java/org/geolatte/geom/TestDefaultMeasureGeometryOperations.java:176-180 | on a segment parallel to the y axis, the exact test is an x match and a fraction in [0, 1] |
| MeasureExamples.MeasuredLineSegments | src/test/java/org/geolatte/geom/TestDefaultMeasureGeometryOperations.java:160-164 | the segments of the measured fixture line |
| MeasureExamples.MeasuredLinePairs | src/test/java/org/geolatte/geom/TestDefaultMeasureGeometryOperations.java:160-164 | the adjacent pairs of the measured fixture line |
| MeasureExamples.MeasuredSecondLinePairs | src/test/java/org/geolatte/geom/TestDefaultMeasureGeometryOperations.java:166-174 | the adjacent pairs of the measured second component |
| MeasureExamples.MeasuredRingPairs | src/test/java/org/geolatte/geom/TestDefaultMeasureGeometryOperations.java:176-180 | the adjacent pairs of the measured ring |
| MeasureExamples.MeasureAtOnLine | src/test/java/org/geolatte/geom/TestDefaultMeasureGeometryOperations.java:154-164 | on the measured line, (1.5, 1) gets 2.5 and (5, 5) is not found |
| MeasureExamples.MeasuredMultiLineSegments | src/test/java/org/geolatte/geom/TestDefaultMeasureGeometryOperations.java:166-174 | the five segments of the measured multi-line; none spans the gap |
| MeasureExamples.MeasureAtOnMultiLine | src/test/java/org/geolatte/geom/TestDefaultMeasureGeometryOperations.java:166-174 | on the measured multi-line, (4.5, 1) gets 4.5 and (2.5, 1), in the gap, is not found |
| MeasureExamples.MeasuredRingSegments | src/test/java/org/geolatte/geom/TestDefaultMeasureGeometryOperations.java:176-180 | the positions and segments of the measured unit-square ring |
| MeasureExamples.MeasureAtOnRing | src/test/java/org/geolatte/geom/TestDefaultMeasureGeometryOperations.java:176-180 | on the measured ring, (0, 0.5) gets 3.5 |
| MeasureExamples.MeasureAtOnMultiPoint | src/test/java/org/geolatte/geom/TestDefaultMeasureGeometryOperations.java:182-186 | on the MultiPoint, (1, 2) gets that point's measure, 2 |
| MeasureExamples.MeasureAtRefusals | src/test/java/org/geolatte/geom/TestDefaultMeasureGeometryOperations.java:136-152 | a null geometry and a null position are refused; an empty geometry gives not found |
| MeasureExamples.LineExtremes | src/test/java/org/geolatte/geom/TestDefaultMeasureGeometryOperations.java:188-211 | the 3DM line's minimum and maximum measures are 5 and 30 |
| MeasureExamples.Line3DMMinimum | src/test/java/org/geolatte/geom/TestDefaultMeasureGeometryOperations.java:190-191 | the 3DM line's minimum measure is 5 |
| MeasureExamples.Line3DMMaximum | src/test/java/org/geolatte/geom/TestDefaultMeasureGeometryOperations.java:203-204 | the 3DM line's maximum measure is 30 |
| MeasureExamples.Line3DMRange | src/test/java/org/geolatte/geom/TestDefaultMeasureGeometryOperations.java:188-211 | every measure of the 3DM line lies in [5, 30] |
| MeasureExamples.RingExtremes | src/test/java/org/geolatte/geom/TestDefaultMeasureGeometryOperations.java:193-207 | the minimum and maximum measures of `caseD1A`, stood in for by the measured unit-square ring (measures 0..4), are 0 and 4 |
| MeasureExamples.RingMinimum | src/test/java/org/geolatte/geom/TestDefaultMeasureGeometryOperations.java:193-194 | the minimum measure of `caseD1A`, stood in for by the measured unit-square ring (measures 0..4), is 0 |
| MeasureExamples.RingMaximum | src/test/java/org/geolatte/geom/TestDefaultMeasureGeometryOperations.java:206-207 | the maximum measure of `caseD1A`, stood in for by the measured unit-square ring (measures 0..4), is 4 |
| MeasureExamples.RingPositions | src/test/java/org/geolatte/geom/TestDefaultMeasureGeometryOperations.java:193-207 | the positions of a LinearRing are its points (used for the unit-square ring that stands in for `caseD1A`) |
| MeasureExamples.RingRange | src/test/java/org/geolatte/geom/TestDefaultMeasureGeometryOperations.java:193-207 | every measure of the unit-square ring that stands in for `caseD1A` lies in [0, 4] |
| MeasureExamples.EmptyExtremes | src/test/java/org/geolatte/geom/TestDefaultMeasureGeometryOperations.java:196-216 | the empty measured line has no minimum or maximum, and a null geometry is refused |

## Left out

- CRS registry lookups (EPSG codes, `addVerticalAxis`, `addMeasureAxis`, length units) are not part of this model. A CRS is an SRID and two axis flags, and adding the measure axis sets the measured flag.
- The DSL constructors and the `MeasuredTestCases` fixture class are not part of this model. The fixture geometries are rebuilt from what the tests assert: the 2D line (0,0) (1,0) (1,1) (2,1); the multi-line adding (3,1) (4,1) (5,1); the unit-square ring; the MultiPoint; the 3DM line with measures 5, 10, 20, 30. The geometry of `caseD1A` (used by the minimum and maximum measure tests at TestDefaultMeasureGeometryOperations.java:193 and :206) is not shown; the measured unit-square ring stands in for it, since any measured fixture whose measures span [0, 4] meets both assertions.
- The WKT codec, and the disabled codec-dependent Morton test, are not part of this model.
- Floating point: coordinates are exact reals. The tests' `Math.ulp` tolerances become exact equalities, and NaN is `None`.
- Segment length is a parameter `dist` (non-negative, zero on equal positions) instead of the Euclidean square root. The fixtures use an axis-parallel length, which agrees with the Euclidean one on their segments.
- The on-segment test of `measureAt` is exact: the cross product must vanish, and the fraction along the segment (taken on a non-constant axis) must be in [0, 1]. The library's tolerance-based test is not modelled.
- Exceptions and the JUnit harness: every `IllegalArgumentException` is an `Err` with a reason.
- Behaviour the tests do not exercise, with the choice made:
  - `ofGeometry` on an empty geometry gives OutOfExtent.
  - `measureAt` on a Polygon or MultiPolygon gives NotLineal.
  - A Polygon with no rings at all gives EmptyRing.
  - `keepBeginMeasure` on an unmeasured input seeds with 0.
  - A LinearRing must be empty or closed with at least four positions.
  - A measured ring is not closed in M.
- Measures.MeasureAt, Measures.MinimumMeasure, Measures.MaximumMeasure: require a measured geometry (every position carries M); behaviour on unmeasured input is not modelled.
- Measures.MeasureAt: on a Point or MultiPoint, a position matches by x and y only.
- `measureOnLength` counts nothing for the gap between the components of a multi-line. The tests assert points 3 and 4 both carry 3.0 and the gap is not found by `measureAt`, so the model follows them rather than a reading in which the running distance includes the gap.
- Morton digits put a midpoint in the upper half along each axis, as the test of (0, 50) giving "1" requires.
- Morton.OfPosition, Morton.OfGeometry, Morton.EnvelopeOf, Morton.MaxLength: the context must be well formed (depth at least 1, non-inverted extent); constructing an invalid context is not modelled.
- Segments.LineSegments.Next: an exhausted iterator returns None and changes nothing, where Java's `Iterator.next()` would throw `NoSuchElementException`; exceptions are not modelled.
- Aliasing between builders and the sequences they return is not modelled: a Dafny sequence is a value, so a finalised sequence cannot change.
