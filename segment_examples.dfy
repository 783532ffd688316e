/** The two scenarios of the LineSegments unit tests, written as the tests are:
    a fixed-size builder filled and finalised, then a for-each loop over the
    segments of the resulting sequence. */
module SegmentExamples {
  import opened Wrappers
  import opened Coordinates
  import opened Builders
  import opened Segments

  const p3d := Capability(true, false)
  const p2d := Capability(false, false)

  /** Three 3D positions on the diagonal: two segments, chained in x from 1.0. */
  method ThreePositions() returns (sequence: seq<Position>, count: nat, chained: bool)
    ensures |sequence| == 3 && sequence[0].x == 1.0 && sequence[2].x == 3.0
    ensures count == 2 && chained
  {
    var builder := new FixedSizeBuilder(3, p3d);
    var a := builder.Add([1.0, 1.0, 1.0]);
    var b := builder.Add([2.0, 2.0, 2.0]);
    var c := builder.Add([3.0, 3.0, 3.0]);
    var r := builder.ToPositionSequence();
    sequence := r.value;
    assert Ordinates(sequence[0]) == [1.0, 1.0, 1.0];
    assert Ordinates(sequence[2]) == [3.0, 3.0, 3.0];
    count, chained := WalkSegments(sequence);
  }

  /** A builder of capacity 0 finalises at once to the empty sequence, which has
      no segments. */
  method NoPositions() returns (sequence: seq<Position>, count: nat)
    ensures sequence == [] && count == 0
  {
    var builder := new FixedSizeBuilder(0, p2d);
    var r := builder.ToPositionSequence();
    sequence := r.value;
    var chained;
    count, chained := WalkSegments(sequence);
  }
}
