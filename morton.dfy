/** Morton codes: quadtree addresses of positions and geometries within the fixed
    extent of a MortonContext. */
module Morton {
  import opened Wrappers
  import opened Coordinates
  import opened Geometries

  /** MortonContext: the extent that is subdivided, and the depth of the quadtree. */
  datatype MortonContext = MortonContext(extent: Envelope, levels: nat)
  {
    predicate Valid() { levels > 0 && extent.WellFormed() }
  }

  /** A quadrant label, one digit of a code. */
  type Quadrant = q: int | 0 <= q < 4

  function MidX(env: Envelope): real { (env.minX + env.maxX) / 2.0 }
  function MidY(env: Envelope): real { (env.minY + env.maxY) / 2.0 }

  /** The label of the child of env that holds (x, y): 2 * (x in the upper half)
      + (y in the upper half). A coordinate on a midpoint belongs to the upper half. */
  function QuadrantOf(env: Envelope, x: real, y: real): Quadrant
  {
    (if x >= MidX(env) then 2 else 0) + (if y >= MidY(env) then 1 else 0)
  }

  /** The child of env with label q: env split at the midpoints of both axes. */
  function Child(env: Envelope, q: Quadrant): (r: Envelope)
    requires env.WellFormed()
    ensures r.WellFormed() && r.Within(env) && r.crs == env.crs
    ensures 2.0 * (r.maxX - r.minX) == env.maxX - env.minX
    ensures 2.0 * (r.maxY - r.minY) == env.maxY - env.minY
  {
    var upperX, upperY := q >= 2, q % 2 == 1;
    Envelope(if upperX then MidX(env) else env.minX,
             if upperY then MidY(env) else env.minY,
             if upperX then env.maxX else MidX(env),
             if upperY then env.maxY else MidY(env),
             env.crs)
  }

  /** The child chosen for a point of env contains that point. */
  lemma ChildContains(env: Envelope, x: real, y: real)
    requires env.WellFormed() && env.minX <= x <= env.maxX && env.minY <= y <= env.maxY
    ensures var c := Child(env, QuadrantOf(env, x, y)); c.minX <= x <= c.maxX && c.minY <= y <= c.maxY
  {
  }

  /** (x, y) lies in env with the upper edges excluded. */
  predicate InHalfOpen(env: Envelope, x: real, y: real)
  {
    env.minX <= x < env.maxX && env.minY <= y < env.maxY
  }

  /** A point of child q (upper edges excluded) is labelled q. */
  lemma HalfOpenChildQuadrant(env: Envelope, q: Quadrant, x: real, y: real)
    requires env.WellFormed() && InHalfOpen(Child(env, q), x, y)
    ensures QuadrantOf(env, x, y) == q
  {
  }

  /** w halved n times. */
  function Halved(w: real, n: nat): real
    decreases n
  {
    if n == 0 then w else Halved(w / 2.0, n - 1)
  }

  /** Replays a digit sequence from env: each digit selects a child. The cell is
      nested in env. */
  function Replay(env: Envelope, code: seq<Quadrant>): (r: Envelope)
    requires env.WellFormed()
    ensures r.WellFormed() && r.Within(env) && r.crs == env.crs
    decreases |code|
  {
    if code == [] then env else Replay(Child(env, code[0]), code[1..])
  }

  /** Each digit halves the cell along both axes. */
  lemma {:induction false} ReplayHalves(env: Envelope, code: seq<Quadrant>)
    requires env.WellFormed()
    ensures var r := Replay(env, code);
      && r.maxX - r.minX == Halved(env.maxX - env.minX, |code|)
      && r.maxY - r.minY == Halved(env.maxY - env.minY, |code|)
    decreases |code|
  {
    if code != [] {
      ReplayHalves(Child(env, code[0]), code[1..]);
    }
  }

  /** The descent of ofPosition: n digits, each the label of (x, y) in the current
      cell, which then narrows to that child. The final cell holds the point. */
  function Descend(env: Envelope, x: real, y: real, n: nat): (r: seq<Quadrant>)
    requires env.WellFormed()
    ensures |r| == n
    ensures env.minX <= x <= env.maxX && env.minY <= y <= env.maxY ==>
      var c := Replay(env, r); c.minX <= x <= c.maxX && c.minY <= y <= c.maxY
    decreases n
  {
    if n == 0 then []
    else
      var q := QuadrantOf(env, x, y);
      var rest := Descend(Child(env, q), x, y, n - 1);
      assert ([q] + rest)[0] == q && ([q] + rest)[1..] == rest;
      [q] + rest
  }

  /** The classification of ofGeometry: digits are emitted while the box lies
      wholly in one child (both corners get the same label). The final cell holds
      the box, and unless the depth is exhausted the box straddles a split of it. */
  function Classify(env: Envelope, box: Envelope, n: nat): (r: seq<Quadrant>)
    requires env.WellFormed()
    ensures |r| <= n
    ensures box.Within(env) && box.WellFormed() ==> box.Within(Replay(env, r))
    ensures |r| < n ==>
      var c := Replay(env, r);
      QuadrantOf(c, box.minX, box.minY) != QuadrantOf(c, box.maxX, box.maxY)
    decreases n
  {
    if n == 0 then []
    else
      var q := QuadrantOf(env, box.minX, box.minY);
      if q != QuadrantOf(env, box.maxX, box.maxY) then []
      else
        var rest := Classify(Child(env, q), box, n - 1);
        assert ([q] + rest)[0] == q && ([q] + rest)[1..] == rest;
        [q] + rest
  }

  /** The longest common prefix of two digit sequences. */
  function CommonPrefix(a: seq<Quadrant>, b: seq<Quadrant>): seq<Quadrant>
  {
    if a == [] || b == [] || a[0] != b[0] then [] else [a[0]] + CommonPrefix(a[1..], b[1..])
  }

  /** ofGeometry's classification is the longest common prefix of the descents of
      the box's lower-left and upper-right corners. */
  lemma {:induction false} ClassifyIsCommonPrefix(env: Envelope, box: Envelope, n: nat)
    requires env.WellFormed()
    ensures Classify(env, box, n) ==
      CommonPrefix(Descend(env, box.minX, box.minY, n), Descend(env, box.maxX, box.maxY, n))
    decreases n
  {
    if n > 0 {
      var q := QuadrantOf(env, box.minX, box.minY);
      if q == QuadrantOf(env, box.maxX, box.maxY) {
        ClassifyIsCommonPrefix(Child(env, q), box, n - 1);
      }
    }
  }

  /** For a degenerate box (a single point) the classification is the full descent. */
  lemma {:induction false} ClassifyPoint(env: Envelope, x: real, y: real, n: nat)
    requires env.WellFormed()
    ensures Classify(env, Envelope(x, y, x, y, env.crs), n) == Descend(env, x, y, n)
    decreases n
  {
    if n > 0 {
      ClassifyPoint(Child(env, QuadrantOf(env, x, y)), x, y, n - 1);
    }
  }

  /** A decimal digit of a code. */
  function DigitChar(q: Quadrant): char
  {
    ('0' as int + q) as char
  }

  predicate IsDigit(c: char) { '0' <= c <= '3' }

  /** The code string of a digit sequence. */
  function Show(code: seq<Quadrant>): (s: string)
    ensures |s| == |code|
    ensures forall i :: 0 <= i < |code| ==> s[i] == DigitChar(code[i]) && IsDigit(s[i])
  {
    if code == [] then "" else [DigitChar(code[0])] + Show(code[1..])
  }

  /** The digit sequence of a code string, or None if some character is not a digit
      0..3. */
  function Parse(s: string): (r: Option<seq<Quadrant>>)
    ensures r.Some? <==> forall i :: 0 <= i < |s| ==> IsDigit(s[i])
    ensures r.Some? ==> Show(r.value) == s
  {
    if s == [] then Some([])
    else if !IsDigit(s[0]) then None
    else
      match Parse(s[1..])
      case None => None
      case Some(rest) =>
        var code := [(s[0] as int - '0' as int) as Quadrant] + rest;
        assert Show(code) == s by {
          assert forall i :: 1 <= i < |s| ==> s[i] == s[1..][i - 1];
        }
        Some(code)
  }

  /** Parsing the string of a digit sequence gives the sequence back. */
  lemma {:induction false} ParseShow(code: seq<Quadrant>)
    ensures Parse(Show(code)) == Some(code)
  {
    if code != [] {
      var s := Show(code);
      assert s[1..] == Show(code[1..]);
      ParseShow(code[1..]);
      assert (s[0] as int - '0' as int) as Quadrant == code[0];
      assert [code[0]] + code[1..] == code;
    }
  }

  /** ofPosition: the full-depth code of a position. Refused when the position's
      type differs from that of the context's CRS, or when the position lies
      outside the extent (whose edges all belong to it). The code has exactly
      `levels` digits, and envelopeOf gives back a cell holding the position. */
  function OfPosition(ctx: MortonContext, p: Position): (r: Result<string>)
    requires ctx.Valid()
    ensures p.Cap() != ctx.extent.crs.Cap() ==> r == Err(CrsMismatch)
    ensures r.Ok? <==> p.Cap() == ctx.extent.crs.Cap() && ctx.extent.Contains(p)
    ensures r.Err? && p.Cap() == ctx.extent.crs.Cap() ==> r.error == OutOfExtent
    ensures r.Ok? ==> |r.value| == ctx.levels
    ensures r.Ok? ==> EnvelopeOf(ctx, Some(r.value)).Ok? && EnvelopeOf(ctx, Some(r.value)).value.Contains(p)
  {
    if p.Cap() != ctx.extent.crs.Cap() then Err(CrsMismatch)
    else if !ctx.extent.Contains(p) then Err(OutOfExtent)
    else
      var code := Descend(ctx.extent, p.x, p.y, ctx.levels);
      ParseShow(code);
      Ok(Show(code))
  }

  /** ofGeometry: the code of the smallest cell (at most `levels` deep) that wholly
      contains the geometry's envelope. Refused when the geometry's CRS differs from
      the context's, or when the geometry is empty or reaches outside the extent.
      The cell holds every position of the geometry. */
  function OfGeometry(ctx: MortonContext, g: Geometry): (r: Result<string>)
    requires ctx.Valid()
    ensures g.crs != ctx.extent.crs ==> r == Err(CrsMismatch)
    ensures r.Ok? <==>
      && g.crs == ctx.extent.crs
      && !IsEmpty(g)
      && forall p :: p in Positions(g) ==> ctx.extent.Contains(p)
    ensures r.Err? && g.crs == ctx.extent.crs ==> r.error == OutOfExtent
    ensures r.Ok? ==> |r.value| <= ctx.levels
    ensures r.Ok? ==> EnvelopeOf(ctx, Some(r.value)).Ok?
    ensures r.Ok? ==> forall p :: p in Positions(g) ==> EnvelopeOf(ctx, Some(r.value)).value.Contains(p)
  {
    if g.crs != ctx.extent.crs then Err(CrsMismatch)
    else if IsEmpty(g) then Err(OutOfExtent)
    else
      var box := BoundingBox(g);
      if !box.Within(ctx.extent) then Err(OutOfExtent)
      else
        var code := Classify(ctx.extent, box, ctx.levels);
        ParseShow(code);
        Ok(Show(code))
  }

  /** envelopeOf: the cell of a code, replaying the same splits as ofPosition.
      Refused for a null code, a code longer than `levels`, or a code with a
      character outside 0..3. The cell lies in the extent and is halved along each
      axis once per digit. */
  function EnvelopeOf(ctx: MortonContext, code: Option<string>): (r: Result<Envelope>)
    requires ctx.Valid()
    ensures code.None? ==> r == Err(NullArgument)
    ensures code.Some? && |code.value| > ctx.levels ==> r == Err(CodeTooLong)
    ensures r.Ok? <==>
      code.Some? && |code.value| <= ctx.levels && forall i :: 0 <= i < |code.value| ==> IsDigit(code.value[i])
    ensures r.Err? && code.Some? && |code.value| <= ctx.levels ==> r.error == InvalidDigit
    ensures r.Ok? ==> r.value.WellFormed() && r.value.Within(ctx.extent) && r.value.crs == ctx.extent.crs
    ensures r.Ok? ==> r.value.maxX - r.value.minX == Halved(ctx.extent.maxX - ctx.extent.minX, |code.value|)
    ensures r.Ok? ==> r.value.maxY - r.value.minY == Halved(ctx.extent.maxY - ctx.extent.minY, |code.value|)
  {
    if code.None? then Err(NullArgument)
    else if |code.value| > ctx.levels then Err(CodeTooLong)
    else
      match Parse(code.value)
      case None => Err(InvalidDigit)
      case Some(digits) =>
        ReplayHalves(ctx.extent, digits);
        Ok(Replay(ctx.extent, digits))
  }

  /** getMaxLength: the context's depth, which is the length of every position's
      code, bounds every geometry's code, and bounds the codes envelopeOf accepts. */
  function MaxLength(ctx: MortonContext): (r: nat)
    requires ctx.Valid()
    ensures r > 0
    ensures forall p :: OfPosition(ctx, p).Ok? ==> |OfPosition(ctx, p).value| == r
    ensures forall g :: OfGeometry(ctx, g).Ok? ==> |OfGeometry(ctx, g).value| <= r
    ensures forall code :: |code| > r ==> EnvelopeOf(ctx, Some(code)) == Err(CodeTooLong)
  {
    ctx.levels
  }

  /** A point of the cell of a code (upper edges excluded) descends through that
      code: the first |code| digits of its descent are the code. */
  lemma {:induction false} DescendThroughCell(env: Envelope, code: seq<Quadrant>, x: real, y: real, n: nat)
    requires env.WellFormed() && |code| <= n
    requires InHalfOpen(Replay(env, code), x, y)
    ensures Descend(env, x, y, n)[..|code|] == code
    decreases |code|
  {
    if code != [] {
      var c := Child(env, code[0]);
      assert InHalfOpen(c, x, y) by {
        assert Replay(c, code[1..]).Within(c);
      }
      HalfOpenChildQuadrant(env, code[0], x, y);
      DescendThroughCell(c, code[1..], x, y, n - 1);
      var rest := Descend(c, x, y, n - 1);
      assert Descend(env, x, y, n) == [code[0]] + rest;
      assert ([code[0]] + rest)[..|code|] == [code[0]] + rest[..|code| - 1];
      assert [code[0]] + code[1..] == code;
    }
  }

  /** Round trip: every position of the cell that envelopeOf gives for a code
      (upper edges excluded) has a code that starts with that code. */
  lemma CodeRoundTrip(ctx: MortonContext, code: string, p: Position)
    requires ctx.Valid() && p.Cap() == ctx.extent.crs.Cap()
    requires EnvelopeOf(ctx, Some(code)).Ok?
    requires InHalfOpen(EnvelopeOf(ctx, Some(code)).value, p.x, p.y)
    ensures OfPosition(ctx, p).Ok? && |code| <= |OfPosition(ctx, p).value|
    ensures OfPosition(ctx, p).value[..|code|] == code
  {
    var digits := Parse(code).value;
    assert ctx.extent.Contains(p);
    DescendThroughCell(ctx.extent, digits, p.x, p.y, ctx.levels);
    var full := Descend(ctx.extent, p.x, p.y, ctx.levels);
    assert Show(full)[..|code|] == Show(full[..|code|]);
  }

  /** A position on the extent's upper-right corner falls in the topmost quadrant
      at every level: the extent's outer edges are inclusive. */
  lemma {:induction false} DescendUpperCorner(env: Envelope, n: nat)
    requires env.WellFormed()
    ensures forall i :: 0 <= i < n ==> Descend(env, env.maxX, env.maxY, n)[i] == 3
    decreases n
  {
    if n > 0 {
      DescendUpperCorner(Child(env, 3), n - 1);
    }
  }

  lemma UpperCornerCode(ctx: MortonContext, p: Position)
    requires ctx.Valid() && p.Cap() == ctx.extent.crs.Cap()
    requires p.x == ctx.extent.maxX && p.y == ctx.extent.maxY
    ensures OfPosition(ctx, p).Ok?
    ensures forall i :: 0 <= i < ctx.levels ==> OfPosition(ctx, p).value[i] == '3'
  {
    DescendUpperCorner(ctx.extent, ctx.levels);
  }

  /** ofGeometry of a Point equals ofPosition of its position. */
  lemma PointGeometryCode(ctx: MortonContext, p: Position)
    requires ctx.Valid() && p.Cap() == ctx.extent.crs.Cap()
    ensures OfGeometry(ctx, Point(ctx.extent.crs, Some(p))) == OfPosition(ctx, p)
  {
    var g := Point(ctx.extent.crs, Some(p));
    assert Parts(g) == [[p]];
    assert [[p]][1..] == [] && [p] + [] == [p];
    assert Flatten([[p]][1..]) == [];
    assert Flatten([[p]]) == [p] + Flatten([[p]][1..]);
    assert Positions(g) == [p];
    if ctx.extent.Contains(p) {
      var box := BoundingBox(g);
      assert box == Envelope(p.x, p.y, p.x, p.y, ctx.extent.crs);
      ClassifyPoint(ctx.extent, p.x, p.y, ctx.levels);
    }
  }

  /** ofGeometry is the longest common prefix of the descents of the two corners
      of the geometry's envelope. */
  lemma OfGeometryIsCommonPrefix(ctx: MortonContext, g: Geometry)
    requires ctx.Valid() && OfGeometry(ctx, g).Ok?
    ensures var box := BoundingBox(g);
      OfGeometry(ctx, g).value == Show(CommonPrefix(
        Descend(ctx.extent, box.minX, box.minY, ctx.levels),
        Descend(ctx.extent, box.maxX, box.maxY, ctx.levels)))
  {
    ClassifyIsCommonPrefix(ctx.extent, BoundingBox(g), ctx.levels);
  }

  /** A geometry with two positions in different top-level quadrants gets the
      empty code. */
  lemma SpanningGeometryCode(ctx: MortonContext, g: Geometry, p: Position, q: Position)
    requires ctx.Valid() && WellTyped(g) && OfGeometry(ctx, g).Ok?
    requires p in Positions(g) && q in Positions(g)
    requires OfPosition(ctx, p).value[0] != OfPosition(ctx, q).value[0]
    ensures OfGeometry(ctx, g).value == ""
  {
    var box := BoundingBox(g);
    var env := ctx.extent;
    assert Descend(env, p.x, p.y, ctx.levels)[0] == QuadrantOf(env, p.x, p.y);
    assert Descend(env, q.x, q.y, ctx.levels)[0] == QuadrantOf(env, q.x, q.y);
    assert QuadrantOf(env, box.minX, box.minY) != QuadrantOf(env, box.maxX, box.maxY);
  }
}
