/** Positions, coordinate reference systems and envelopes. */
module Coordinates {
  import opened Wrappers

  /** Which optional ordinates a position type carries:
      P2D = (false, false), P3D = (true, false), P2DM = (false, true), P3DM = (true, true). */
  datatype Capability = Capability(vertical: bool, measured: bool)

  /** An immutable position: planar x and y, an altitude z when the type is vertical,
      and a measure m when the type is measured. Its capability is part of its value,
      so two positions are equal exactly when their types and ordinates agree. */
  datatype Position = Position(x: real, y: real, z: Option<real>, m: Option<real>)
  {
    function Cap(): Capability { Capability(z.Some?, m.Some?) }
  }

  /** A coordinate reference system as the kernel sees it: an identity (the SRID)
      and the axis capability flags. Registry lookups are not part of this model. */
  datatype Crs = Crs(srid: int, vertical: bool, measured: bool)
  {
    function Cap(): Capability { Capability(vertical, measured) }
  }

  /** The number of ordinates a position of the given type is built from. */
  function Arity(cap: Capability): nat
  {
    2 + (if cap.vertical then 1 else 0) + (if cap.measured then 1 else 0)
  }

  /** The ordinates of a position in builder order: x, y, then z, then m. */
  function Ordinates(p: Position): (r: seq<real>)
    ensures |r| == Arity(p.Cap())
    ensures r[0] == p.x && r[1] == p.y
    ensures p.z.Some? ==> r[2] == p.z.value
    ensures p.m.Some? ==> r[|r| - 1] == p.m.value
  {
    [p.x, p.y] + (if p.z.Some? then [p.z.value] else []) + (if p.m.Some? then [p.m.value] else [])
  }

  /** The position a builder of type cap makes from one `add(ordinates...)` call;
      a wrong number of ordinates is refused. */
  function FromOrdinates(cap: Capability, coords: seq<real>): (r: Result<Position>)
    ensures r.Ok? <==> |coords| == Arity(cap)
    ensures r.Err? ==> r.error == WrongArity
    ensures r.Ok? ==> r.value.Cap() == cap && Ordinates(r.value) == coords
  {
    if |coords| != Arity(cap) then Err(WrongArity)
    else
      var p := Position(coords[0], coords[1],
                        if cap.vertical then Some(coords[2]) else None,
                        if cap.measured then Some(coords[|coords| - 1]) else None);
      assert Ordinates(p) == coords;
      Ok(p)
  }

  /** Building a position from its own ordinates gives the position back. */
  lemma {:induction false} OrdinatesRoundTrip(p: Position)
    ensures FromOrdinates(p.Cap(), Ordinates(p)) == Ok(p)
  {
  }

  /** An axis-aligned bounding box tied to a CRS. */
  datatype Envelope = Envelope(minX: real, minY: real, maxX: real, maxY: real, crs: Crs)
  {
    predicate WellFormed() { minX <= maxX && minY <= maxY }

    /** Closed containment: every edge belongs to the envelope. */
    predicate Contains(p: Position) { minX <= p.x <= maxX && minY <= p.y <= maxY }

    predicate Within(outer: Envelope)
    {
      outer.minX <= minX && maxX <= outer.maxX && outer.minY <= minY && maxY <= outer.maxY
    }
  }
}
