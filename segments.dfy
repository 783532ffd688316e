/** Line segments and the LineSegments iterator over a position sequence. */
module Segments {
  import opened Wrappers
  import opened Coordinates

  /** A segment value: a start and an end position. */
  datatype LineSegment = LineSegment(start: Position, end: Position)

  /** The adjacent pairs of a sequence: n - 1 segments for n >= 2 positions, none
      otherwise, segment i running from position i to position i + 1. */
  function Pairs(s: seq<Position>): (r: seq<LineSegment>)
    ensures |r| == if |s| < 2 then 0 else |s| - 1
    ensures forall i :: 0 <= i < |r| ==> r[i] == LineSegment(s[i], s[i + 1])
  {
    if |s| < 2 then [] else [LineSegment(s[0], s[1])] + Pairs(s[1..])
  }

  /** The segments chain: the first starts at position 0 and each one starts
      where the previous one ends. */
  lemma SegmentsChain(s: seq<Position>)
    requires |s| >= 2
    ensures Pairs(s)[0].start == s[0]
    ensures forall i :: 0 < i < |Pairs(s)| ==> Pairs(s)[i].start == Pairs(s)[i - 1].end
  {
  }

  /** LineSegments: a one-pass iterator over the segments of a sequence. */
  class LineSegments {
    const positions: seq<Position>
    var index: nat  // the start index of the next segment

    ghost predicate Valid()
      reads this
    {
      index <= |Pairs(positions)|
    }

    /** The segments not yet returned. */
    ghost function Remaining(): seq<LineSegment>
      reads this
      requires Valid()
    {
      Pairs(positions)[index..]
    }

    constructor (s: seq<Position>)
      ensures Valid() && positions == s && index == 0
      ensures Remaining() == Pairs(s)
    {
      positions := s;
      index := 0;
    }

    predicate HasNext()
      reads this
    {
      index + 1 < |positions|
    }

    /** next(): the segment from the current position to the next one, or None
        once the sequence is exhausted. */
    method Next() returns (r: Option<LineSegment>)
      requires Valid()
      modifies this
      ensures Valid()
      ensures old(HasNext()) ==> r == Some(old(Remaining())[0]) && Remaining() == old(Remaining())[1..]
      ensures old(HasNext()) ==> r == Some(LineSegment(positions[old(index)], positions[old(index) + 1]))
      ensures !old(HasNext()) ==> r == None && index == old(index)
      ensures HasNext() <==> Remaining() != []
    {
      if index + 1 < |positions| {
        r := Some(LineSegment(positions[index], positions[index + 1]));
        index := index + 1;
      } else {
        r := None;
      }
    }
  }

  /** Drains a LineSegments iterator in a for-each loop: the segments come out as
      the adjacent pairs of the sequence, in order. */
  method CollectSegments(s: seq<Position>) returns (segs: seq<LineSegment>)
    ensures segs == Pairs(s)
  {
    var it := new LineSegments(s);
    segs := [];
    while it.HasNext()
      invariant it.Valid() && it.positions == s
      invariant |segs| == it.index
      invariant forall i :: 0 <= i < |segs| ==> segs[i] == LineSegment(s[i], s[i + 1])
      decreases |s| - it.index
    {
      var seg := it.Next();
      segs := segs + [seg.value];
    }
    assert |segs| == |Pairs(s)|;
    forall i | 0 <= i < |segs|
      ensures segs[i] == Pairs(s)[i]
    {
      assert segs[i] == LineSegment(s[i], s[i + 1]);
    }
  }

  /** The for-each loop over a LineSegments iterator that counts the segments and
      checks that each one starts at the x where the previous one ended, the first
      one at the x of position 0: the count is that of the adjacent pairs, and the
      check never fails. */
  method WalkSegments(s: seq<Position>) returns (count: nat, chained: bool)
    ensures count == |Pairs(s)|
    ensures chained
  {
    var it := new LineSegments(s);
    count := 0;
    chained := true;
    var startX := if s == [] then 0.0 else s[0].x;
    while it.HasNext()
      invariant it.Valid() && it.positions == s
      invariant count == it.index && chained
      invariant s != [] ==> count < |s| && startX == s[count].x
      decreases |s| - it.index
    {
      var seg := it.Next();
      chained := chained && seg.value.start.x == startX;
      startX := seg.value.end.x;
      count := count + 1;
    }
  }
}
