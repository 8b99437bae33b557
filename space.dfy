/** The point series and the two array converters `fromLocalSpace` and
    `toLocalSpace`, which accept pairs or a flat list and always return the
    flat list `[x0, y0, x1, y1, ...]`. */
module Space {
  import opened Coords

  /** One explicit series entry `[x, y]`. */
  datatype Point = Point(x: real, y: real)

  /** The two input shapes of the converters: a list of pairs, or a flat list
      of alternating x and y coordinates. The source tells them apart by
      whether the first element is itself an array. */
  datatype Points = Pairs(pairs: seq<Point>) | Flat(coords: seq<real>)

  /** Flat input must pair every x with a y. */
  predicate WellShaped(pts: Points) {
    pts.Flat? ==> |pts.coords| % 2 == 0
  }

  /** The flat list `[x0, y0, x1, y1, ...]` of a list of pairs, built by
      pushing pair after pair (FlattenAt gives it element by element). */
  function Flatten(ps: seq<Point>): (r: seq<real>)
    ensures |r| == 2 * |ps|
  {
    if ps == [] then [] else Flatten(ps[..|ps| - 1]) + [ps[|ps| - 1].x, ps[|ps| - 1].y]
  }

  /** Pair i sits at positions 2i and 2i + 1 of the flat list. */
  lemma {:induction false} FlattenAt(ps: seq<Point>, i: nat)
    requires i < |ps|
    ensures Flatten(ps)[2 * i] == ps[i].x && Flatten(ps)[2 * i + 1] == ps[i].y
  {
    var front := ps[..|ps| - 1];
    if i < |ps| - 1 {
      FlattenAt(front, i);
      assert ps[i] == front[i];
    }
  }

  /** The coordinates a converter reads, in flat order. */
  function Coordinates(pts: Points): (r: seq<real>)
    requires WellShaped(pts)
    ensures |r| % 2 == 0
  {
    match pts
    case Pairs(ps) => Flatten(ps)
    case Flat(cs) => cs
  }

  /** A flat list with `fx` applied at the even positions and `fy` at the odd
      ones, built pair by pair (MappedAt gives it element by element). */
  function Mapped(fx: real -> real, fy: real -> real, cs: seq<real>): (r: seq<real>)
    requires |cs| % 2 == 0
    ensures |r| == |cs|
  {
    if cs == [] then []
    else Mapped(fx, fy, cs[..|cs| - 2]) + [fx(cs[|cs| - 2]), fy(cs[|cs| - 1])]
  }

  /** The per-axis maps of fromLocalSpace and toLocalSpace. */
  function PixelX(g: Geometry): real -> real { x => FromLocalX(g, x) }
  function PixelY(g: Geometry): real -> real { y => FromLocalY(g, y) }
  function LogicalX(g: Geometry): real -> real requires Invertible(g) { px => ToLocalX(g, px) }
  function LogicalY(g: Geometry): real -> real requires Invertible(g) { py => ToLocalY(g, py) }

  /** The pixel image of a flat coordinate list. */
  function ToPixels(g: Geometry, cs: seq<real>): (r: seq<real>)
    requires |cs| % 2 == 0
  {
    Mapped(PixelX(g), PixelY(g), cs)
  }

  /** The logical image of a flat pixel list. */
  function ToLogical(g: Geometry, ps: seq<real>): (r: seq<real>)
    requires |ps| % 2 == 0 && Invertible(g)
  {
    Mapped(LogicalX(g), LogicalY(g), ps)
  }

  /** The walk both converters share, dispatched on the input's shape. */
  method Convert(fx: real -> real, fy: real -> real, pointsIn: Points) returns (pointsOut: seq<real>)
    requires WellShaped(pointsIn)
    ensures pointsOut == Mapped(fx, fy, Coordinates(pointsIn))
  {
    match pointsIn
    case Pairs(ps) => pointsOut := ConvertPairs(fx, fy, ps);
    case Flat(cs) => pointsOut := ConvertFlat(fx, fy, cs);
  }

  /** Pairs: push `fx` of x, then `fy` of y, pair by pair. */
  method ConvertPairs(fx: real -> real, fy: real -> real, ps: seq<Point>) returns (pointsOut: seq<real>)
    ensures pointsOut == Mapped(fx, fy, Flatten(ps))
  {
    pointsOut := [];
    var i := 0;
    while i < |ps|
      invariant 0 <= i <= |ps|
      invariant pointsOut == Mapped(fx, fy, Flatten(ps[..i]))
    {
      PairsStep(fx, fy, ps, i, pointsOut);
      pointsOut := pointsOut + [fx(ps[i].x)];
      pointsOut := pointsOut + [fy(ps[i].y)];
      i := i + 1;
    }
    assert ps[..i] == ps;
  }

  /** A flat list: step through it two coordinates at a time. */
  method ConvertFlat(fx: real -> real, fy: real -> real, cs: seq<real>) returns (pointsOut: seq<real>)
    requires |cs| % 2 == 0
    ensures pointsOut == Mapped(fx, fy, cs)
  {
    pointsOut := [];
    var i := 0;
    while i < |cs|
      invariant 0 <= i <= |cs| && i % 2 == 0
      invariant pointsOut == Mapped(fx, fy, cs[..i])
    {
      FlatStep(fx, fy, cs, i, pointsOut);
      pointsOut := pointsOut + [fx(cs[i])];
      pointsOut := pointsOut + [fy(cs[i + 1])];
      i := i + 2;
    }
    assert cs[..i] == cs;
  }

  /** `fromLocalSpace(pointsIn)`: the pixel coordinates of the input, always
      as a flat list, whichever of the two shapes the input has. */
  method FromLocalSpace(g: Geometry, pointsIn: Points) returns (pointsOut: seq<real>)
    requires WellShaped(pointsIn)
    ensures pointsOut == ToPixels(g, Coordinates(pointsIn))
  {
    pointsOut := Convert(PixelX(g), PixelY(g), pointsIn);
  }

  /** `toLocalSpace(pointsIn)`: the logical coordinates of the input, always
      as a flat list, whichever of the two shapes the input has. */
  method ToLocalSpace(g: Geometry, pointsIn: Points) returns (pointsOut: seq<real>)
    requires WellShaped(pointsIn) && Invertible(g)
    ensures pointsOut == ToLogical(g, Coordinates(pointsIn))
  {
    pointsOut := Convert(LogicalX(g), LogicalY(g), pointsIn);
  }

  /** One pass of the pairs loop extends the output by the next pair's image. */
  lemma PairsStep(fx: real -> real, fy: real -> real, ps: seq<Point>, i: nat, out: seq<real>)
    requires i < |ps| && out == Mapped(fx, fy, Flatten(ps[..i]))
    ensures out + [fx(ps[i].x)] + [fy(ps[i].y)] == Mapped(fx, fy, Flatten(ps[..i + 1]))
  {
    assert ps[..i + 1][..i] == ps[..i];
    MappedSnoc(fx, fy, Flatten(ps[..i]), ps[i].x, ps[i].y);
  }

  /** One pass of the flat loop extends the output by the next pair's image. */
  lemma FlatStep(fx: real -> real, fy: real -> real, cs: seq<real>, i: nat, out: seq<real>)
    requires i % 2 == 0 && i + 2 <= |cs| && out == Mapped(fx, fy, cs[..i])
    ensures out + [fx(cs[i])] + [fy(cs[i + 1])] == Mapped(fx, fy, cs[..i + 2])
  {
    assert cs[..i + 2] == cs[..i] + [cs[i], cs[i + 1]];
    MappedSnoc(fx, fy, cs[..i], cs[i], cs[i + 1]);
  }

  lemma MappedSnoc(fx: real -> real, fy: real -> real, cs: seq<real>, x: real, y: real)
    requires |cs| % 2 == 0
    ensures Mapped(fx, fy, cs + [x, y]) == Mapped(fx, fy, cs) + [fx(x), fy(y)]
  {
    assert (cs + [x, y])[..|cs|] == cs;
  }

  /** Element j of a mapped list is `fx` of element j when j is even and
      `fy` of it when j is odd. */
  lemma {:induction false} MappedAt(fx: real -> real, fy: real -> real, cs: seq<real>, j: nat)
    requires |cs| % 2 == 0 && j < |cs|
    ensures Mapped(fx, fy, cs)[j] == if j % 2 == 0 then fx(cs[j]) else fy(cs[j])
  {
    var front := cs[..|cs| - 2];
    if j < |cs| - 2 {
      MappedAt(fx, fy, front, j);
      assert cs[j] == front[j];
    }
  }

  /** Mapping with `gx`, `gy` undoes mapping with `fx`, `fy` when each is a
      left inverse of the other on its axis. */
  lemma {:induction false} MappedInverse(fx: real -> real, fy: real -> real,
                                         gx: real -> real, gy: real -> real, cs: seq<real>)
    requires |cs| % 2 == 0
    requires forall v :: gx(fx(v)) == v
    requires forall v :: gy(fy(v)) == v
    ensures Mapped(gx, gy, Mapped(fx, fy, cs)) == cs
  {
    if cs != [] {
      var front := cs[..|cs| - 2];
      MappedInverse(fx, fy, gx, gy, front);
      var x, y := cs[|cs| - 2], cs[|cs| - 1];
      assert cs == front + [x, y];
      MappedSnoc(gx, gy, Mapped(fx, fy, front), fx(x), fy(y));
    }
  }

  /** Element j of the pixel image is fromLocalX of coordinate j when j is
      even and fromLocalY of it when j is odd. */
  lemma PixelsAt(g: Geometry, cs: seq<real>, j: nat)
    requires |cs| % 2 == 0 && j < |cs|
    ensures |ToPixels(g, cs)| == |cs|
    ensures ToPixels(g, cs)[j] == if j % 2 == 0 then FromLocalX(g, cs[j]) else FromLocalY(g, cs[j])
  {
    MappedAt(PixelX(g), PixelY(g), cs, j);
  }

  /** Element j of the logical image is toLocalX of pixel j when j is even
      and toLocalY of it when j is odd. */
  lemma LogicalAt(g: Geometry, ps: seq<real>, j: nat)
    requires |ps| % 2 == 0 && Invertible(g) && j < |ps|
    ensures |ToLogical(g, ps)| == |ps|
    ensures ToLogical(g, ps)[j] == if j % 2 == 0 then ToLocalX(g, ps[j]) else ToLocalY(g, ps[j])
  {
    MappedAt(LogicalX(g), LogicalY(g), ps, j);
  }

  /** For n pairs the pixel list has 2n numbers: the pixel X of pair i at
      2i and its pixel Y at 2i + 1. */
  lemma PixelsOfPairs(g: Geometry, ps: seq<Point>, i: nat)
    requires i < |ps|
    ensures |ToPixels(g, Flatten(ps))| == 2 * |ps|
    ensures ToPixels(g, Flatten(ps))[2 * i] == FromLocalX(g, ps[i].x)
    ensures ToPixels(g, Flatten(ps))[2 * i + 1] == FromLocalY(g, ps[i].y)
  {
    PixelsAt(g, Flatten(ps), 2 * i);
    PixelsAt(g, Flatten(ps), 2 * i + 1);
    FlattenAt(ps, i);
  }

  /** `points` holds the pixel X and pixel Y of every pair, pair i at
      positions 2i and 2i + 1. */
  predicate PixelsOf(g: Geometry, ps: seq<Point>, points: seq<real>) {
    && |points| == 2 * |ps|
    && forall i :: 0 <= i < |ps| ==>
         points[2 * i] == FromLocalX(g, ps[i].x) && points[2 * i + 1] == FromLocalY(g, ps[i].y)
  }

  /** The pixel list of a series of pairs has this layout. */
  lemma PixelsOfAllPairs(g: Geometry, ps: seq<Point>)
    ensures PixelsOf(g, ps, ToPixels(g, Flatten(ps)))
  {
    forall i | 0 <= i < |ps|
      ensures ToPixels(g, Flatten(ps))[2 * i] == FromLocalX(g, ps[i].x)
      ensures ToPixels(g, Flatten(ps))[2 * i + 1] == FromLocalY(g, ps[i].y)
    {
      PixelsOfPairs(g, ps, i);
    }
    assert |ToPixels(g, Flatten(ps))| == 2 * |ps|;
  }

  /** toLocalSpace undoes fromLocalSpace: converting the pixel list back
      yields the input's flat coordinates. */
  lemma LogicalOfPixels(g: Geometry, cs: seq<real>)
    requires |cs| % 2 == 0 && Invertible(g)
    ensures ToLogical(g, ToPixels(g, cs)) == cs
  {
    forall v ensures LogicalX(g)(PixelX(g)(v)) == v {
      ToFromLocalX(g, v);
    }
    forall v ensures LogicalY(g)(PixelY(g)(v)) == v {
      ToFromLocalY(g, v);
    }
    MappedInverse(PixelX(g), PixelY(g), LogicalX(g), LogicalY(g), cs);
  }

  /** For pairs, the round trip gives back the flattened pairs. */
  lemma LogicalOfPixelPairs(g: Geometry, ps: seq<Point>)
    requires Invertible(g)
    ensures ToLogical(g, ToPixels(g, Flatten(ps))) == Flatten(ps)
  {
    LogicalOfPixels(g, Flatten(ps));
  }
}
