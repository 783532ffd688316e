/** Position-sequence builders: single-use accumulators finalised into an immutable
    sequence (a Dafny seq is a value, so nothing can change it afterwards). */
module Builders {
  import opened Wrappers
  import opened Coordinates

  /** The positions a builder of type cap makes from a list of `add` calls, or
      None if some call has the wrong number of ordinates. */
  function PositionsOf(cap: Capability, coords: seq<seq<real>>): (r: Option<seq<Position>>)
    ensures r.Some? <==> forall i :: 0 <= i < |coords| ==> |coords[i]| == Arity(cap)
    ensures r.Some? ==> |r.value| == |coords|
    ensures r.Some? ==> forall i :: 0 <= i < |coords| ==>
      r.value[i].Cap() == cap && Ordinates(r.value[i]) == coords[i]
  {
    if coords == [] then Some([])
    else
      match FromOrdinates(cap, coords[0])
      case Err(_) => None
      case Ok(p) =>
        match PositionsOf(cap, coords[1..])
        case None => None
        case Some(rest) =>
          assert forall i :: 1 <= i < |coords| ==> coords[i] == coords[1..][i - 1];
          Some([p] + rest)
  }

  /** FixedSizePositionSequenceBuilder: the capacity is declared up front and
      the positions are kept in an array of that size. */
  class FixedSizeBuilder {
    const cap: Capability
    const buffer: array<Position>
    var count: nat
    var consumed: bool

    ghost predicate Valid()
      reads this
    {
      count <= buffer.Length
    }

    /** The positions added so far, in insertion order. */
    ghost function Contents(): seq<Position>
      reads this, buffer
      requires Valid()
    {
      buffer[..count]
    }

    constructor (capacity: nat, cap: Capability)
      ensures Valid() && fresh(buffer)
      ensures this.cap == cap && buffer.Length == capacity
      ensures Contents() == [] && !consumed
    {
      this.cap := cap;
      buffer := new Position[capacity];
      count := 0;
      consumed := false;
    }

    /** add(ordinates...): appends one position; refused after finalisation, on a
        wrong number of ordinates, or when the builder is already full. */
    method Add(coords: seq<real>) returns (r: Outcome)
      requires Valid()
      modifies this`count, buffer
      ensures Valid()
      ensures old(consumed) ==> r == Fail(Consumed)
      ensures !old(consumed) && |coords| != Arity(cap) ==> r == Fail(WrongArity)
      ensures !old(consumed) && |coords| == Arity(cap) && old(count) == buffer.Length ==> r == Fail(CapacityExceeded)
      ensures r.Pass? <==> !old(consumed) && |coords| == Arity(cap) && old(count) < buffer.Length
      ensures r.Pass? ==> Contents() == old(Contents()) + [FromOrdinates(cap, coords).value]
      ensures r.Fail? ==> Contents() == old(Contents())
    {
      if consumed { return Fail(Consumed); }
      var p := FromOrdinates(cap, coords);
      if p.Err? { return Fail(p.error); }
      if count == buffer.Length { return Fail(CapacityExceeded); }
      buffer[count] := p.value;
      count := count + 1;
      r := Pass;
    }

    /** toPositionSequence: yields the positions once the builder is full, and
        marks the builder as used. */
    method ToPositionSequence() returns (r: Result<seq<Position>>)
      requires Valid()
      modifies this`consumed
      ensures Valid()
      ensures old(consumed) ==> r == Err(Consumed)
      ensures !old(consumed) && count < buffer.Length ==> r == Err(NotFilled)
      ensures r.Ok? <==> !old(consumed) && count == buffer.Length
      ensures r.Ok? ==> r.value == Contents() && consumed
      ensures r.Err? ==> consumed == old(consumed)
    {
      if consumed { return Err(Consumed); }
      if count < buffer.Length { return Err(NotFilled); }
      consumed := true;
      r := Ok(buffer[..count]);
    }
  }

  /** A fixed-size builder of the given capacity fed with the given `add` calls and
      then finalised: it yields exactly those positions in insertion order when the
      number of calls equals the capacity and every call has the right arity. */
  method BuildFixed(capacity: nat, cap: Capability, coords: seq<seq<real>>) returns (r: Result<seq<Position>>)
    ensures r.Ok? <==> |coords| == capacity && PositionsOf(cap, coords).Some?
    ensures r.Ok? ==> r.value == PositionsOf(cap, coords).value
  {
    var b := new FixedSizeBuilder(capacity, cap);
    var i := 0;
    while i < |coords|
      invariant 0 <= i <= |coords|
      invariant b.Valid() && b.cap == cap && b.buffer.Length == capacity && !b.consumed
      invariant b.count == i
      invariant PositionsOf(cap, coords[..i]).Some?
      invariant b.Contents() == PositionsOf(cap, coords[..i]).value
    {
      var o := b.Add(coords[i]);
      if o.Fail? {
        assert coords[..i + 1][i] == coords[i];
        if |coords[i]| == Arity(cap) {
          assert i == capacity;
        }
        return Err(o.error);
      }
      assert coords[..i + 1] == coords[..i] + [coords[i]];
      PositionsOfAppend(cap, coords[..i], coords[i]);
      i := i + 1;
    }
    assert coords[..i] == coords;
    r := b.ToPositionSequence();
  }

  /** Appending one `add` call extends the positions by one. */
  lemma {:induction false} PositionsOfAppend(cap: Capability, coords: seq<seq<real>>, c: seq<real>)
    requires PositionsOf(cap, coords).Some? && |c| == Arity(cap)
    ensures PositionsOf(cap, coords + [c]) == Some(PositionsOf(cap, coords).value + [FromOrdinates(cap, c).value])
  {
    if coords != [] {
      assert (coords + [c])[0] == coords[0];
      assert (coords + [c])[1..] == coords[1..] + [c];
      PositionsOfAppend(cap, coords[1..], c);
      var q, rest, p := FromOrdinates(cap, coords[0]).value, PositionsOf(cap, coords[1..]).value, FromOrdinates(cap, c).value;
      assert [q] + (rest + [p]) == ([q] + rest) + [p];
    } else {
      var p := FromOrdinates(cap, c).value;
      assert [c][0] == c && [c][1..] == [];
      assert [p] + [] == [p];
      assert coords + [c] == [c];
      assert PositionsOf(cap, coords).value + [p] == [p];
    }
  }

  /** The growable builder behind `variableSized(...)`. */
  class VariableSizeBuilder {
    const cap: Capability
    var positions: seq<Position>
    var consumed: bool

    constructor (cap: Capability)
      ensures this.cap == cap && positions == [] && !consumed
    {
      this.cap := cap;
      positions := [];
      consumed := false;
    }

    /** add(ordinates...): appends one position; refused after finalisation or on
        a wrong number of ordinates. */
    method Add(coords: seq<real>) returns (r: Outcome)
      modifies this`positions
      ensures old(consumed) ==> r == Fail(Consumed)
      ensures !old(consumed) && |coords| != Arity(cap) ==> r == Fail(WrongArity)
      ensures r.Pass? <==> !old(consumed) && |coords| == Arity(cap)
      ensures positions == if r.Pass? then old(positions) + [FromOrdinates(cap, coords).value] else old(positions)
    {
      if consumed { return Fail(Consumed); }
      var p := FromOrdinates(cap, coords);
      if p.Err? { return Fail(p.error); }
      positions := positions + [p.value];
      r := Pass;
    }

    /** toPositionSequence: yields the positions added so far and marks the builder
        as used. */
    method ToPositionSequence() returns (r: Result<seq<Position>>)
      modifies this`consumed
      ensures old(consumed) ==> r == Err(Consumed) && consumed
      ensures !old(consumed) ==> r == Ok(positions) && consumed
    {
      if consumed { return Err(Consumed); }
      consumed := true;
      r := Ok(positions);
    }
  }

  /** A chain `variableSized(cap).add(c0).add(c1)...toPositionSequence()`: it yields
      the positions of the calls in order, so two chains with the same ordinates
      yield equal sequences. */
  method BuildVariable(cap: Capability, coords: seq<seq<real>>) returns (r: Result<seq<Position>>)
    ensures r.Ok? <==> PositionsOf(cap, coords).Some?
    ensures r.Ok? ==> r.value == PositionsOf(cap, coords).value
    ensures r.Err? ==> r.error == WrongArity
  {
    var b := new VariableSizeBuilder(cap);
    var i := 0;
    while i < |coords|
      invariant 0 <= i <= |coords|
      invariant b.cap == cap && !b.consumed
      invariant PositionsOf(cap, coords[..i]).Some?
      invariant b.positions == PositionsOf(cap, coords[..i]).value
    {
      var o := b.Add(coords[i]);
      if o.Fail? {
        return Err(o.error);
      }
      assert coords[..i + 1] == coords[..i] + [coords[i]];
      PositionsOfAppend(cap, coords[..i], coords[i]);
      i := i + 1;
    }
    assert coords[..i] == coords;
    r := b.ToPositionSequence();
  }
}
