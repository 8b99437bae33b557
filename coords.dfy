/** Coordinate transforms of the XY plot editor: logical axis values to canvas
    pixels and back. The process-wide pixel scale, the CSS padding and the
    canvas size are explicit parameters, gathered in a Geometry. */
module Coords {

  /** A logical axis range `{min, max}`; `min < max` is the caller's business. */
  datatype Range = Range(min: real, max: real)

  /** Everything the transforms read: the UI pixel scale, the CSS padding,
      the canvas size and the two axis ranges. */
  datatype Geometry = Geometry(pxScale: real, padding: real, width: real, height: real,
                               rangeX: Range, rangeY: Range)

  /** An affine map `v |-> scale * v + offset`. */
  datatype Affine = Affine(scale: real, offset: real)

  /** The four transform coefficients `[xa, xm, ya, ym]`. */
  datatype Coefficients = Coefficients(xa: real, xm: real, ya: real, ym: real)

  function Apply(f: Affine, v: real): real {
    f.scale * v + f.offset
  }

  /** The affine map that sends 0 to `lo` and 1 to `hi`. */
  function Lerp(lo: real, hi: real): (f: Affine)
    ensures Apply(f, 0.0) == lo && Apply(f, 1.0) == hi
  {
    Affine(hi - lo, lo)
  }

  /** `clamp(x, min, max)`: tests `x < min` first, then `x > max`, so a value
      below `min` goes to `min` even when the bounds are out of order. */
  function Clamp(x: real, min: real, max: real): (r: real)
    ensures r == x || r == min || r == max
    ensures min <= max ==> min <= r <= max
    ensures min <= x <= max ==> r == x
    ensures x < min ==> r == min
    ensures min <= max < x ==> r == max
  {
    if x < min then min else if x > max then max else x
  }

  lemma ClampMonotone(a: real, b: real, min: real, max: real)
    requires a <= b && min <= max
    ensures Clamp(a, min, max) <= Clamp(b, min, max)
  {
  }

  /** `transCoeff(c0, c1, d0, d1)`: the composition of the map [0,1] -> [c0,c1]
      followed by the map [0,1] -> [d0,d1]. The interval widths are
      multiplied, not divided. */
  function TransCoeff(c0: real, c1: real, d0: real, d1: real): (t: Affine)
    ensures forall v :: Apply(t, v) == Apply(Lerp(d0, d1), Apply(Lerp(c0, c1), v))
  {
    var a, m := c1 - c0, c0;
    var b, n := d1 - d0, d0;
    Affine(a * b, b * m + n)
  }

  /** With a non-empty logical interval and a non-degenerate target, the
      result of TransCoeff sends the logical endpoints to the target endpoints
      exactly when the logical interval is [0,1]. */
  lemma TransCoeffEndpointsIff(c0: real, c1: real, d0: real, d1: real)
    requires c0 < c1 && d0 != d1
    ensures (Apply(TransCoeff(c0, c1, d0, d1), c0) == d0 && Apply(TransCoeff(c0, c1, d0, d1), c1) == d1)
            <==> (c0 == 0.0 && c1 == 1.0)
  {
    if Apply(TransCoeff(c0, c1, d0, d1), c0) == d0 && Apply(TransCoeff(c0, c1, d0, d1), c1) == d1 {
      LowEndpoint(c0, c1, d0, d1);
      HighEndpoint(c1, d0, d1);
    }
  }

  /** The low endpoint is kept only when it is 0. */
  lemma LowEndpoint(c0: real, c1: real, d0: real, d1: real)
    requires c0 < c1 && d0 != d1
    requires Apply(TransCoeff(c0, c1, d0, d1), c0) == d0
    ensures c0 == 0.0
  {
    var w, b := c1 - c0, d1 - d0;
    var t := TransCoeff(c0, c1, d0, d1);
    assert t == Affine(w * b, b * c0 + d0);
    assert w * b * c0 + b * c0 == 0.0;
    assert b * (c0 * (w + 1.0)) == 0.0;
    MulZero(b, c0 * (w + 1.0));
    MulZero(c0, w + 1.0);
  }

  /** From a low endpoint 0, the high endpoint is kept only when it is 1. */
  lemma HighEndpoint(c1: real, d0: real, d1: real)
    requires 0.0 < c1 && d0 != d1
    requires Apply(TransCoeff(0.0, c1, d0, d1), c1) == d1
    ensures c1 == 1.0
  {
    var b := d1 - d0;
    var t := TransCoeff(0.0, c1, d0, d1);
    assert t == Affine(c1 * b, d0);
    var sq := c1 * c1;
    assert c1 * b * c1 == b * sq;
    assert b * sq == b;
    MulUnit(b, sq);
    SquareOne(c1);
  }

  lemma MulZero(a: real, b: real)
    requires a * b == 0.0
    ensures a == 0.0 || b == 0.0
  {
  }

  lemma MulUnit(a: real, b: real)
    requires a != 0.0 && a * b == a
    ensures b == 1.0
  {
  }

  lemma SquareOne(c: real)
    requires c > 0.0 && c * c == 1.0
    ensures c == 1.0
  {
  }

  /** The logical range [0, 2] onto pixels [0, 10]: the as-written scale
      sends 2 to 40, outside the target interval. */
  lemma TransCoeffWideRangeExample()
    ensures Apply(TransCoeff(0.0, 2.0, 0.0, 10.0), 2.0) == 40.0
  {
  }

  /** The padding the transforms use: the CSS padding plus one pixel-scale unit. */
  function Pad(g: Geometry): real {
    g.padding + g.pxScale
  }

  /** `transformCoefficients()`: X maps onto [pad, width - pad], Y onto the
      reversed interval [height - 2*pxScale - pad, 2*pxScale + pad]. */
  function TransformCoefficients(g: Geometry): Coefficients {
    var pad := Pad(g);
    var x := TransCoeff(g.rangeX.min, g.rangeX.max, pad, g.width - pad);
    var y := TransCoeff(g.rangeY.min, g.rangeY.max, g.height - 2.0 * g.pxScale - pad, 2.0 * g.pxScale + pad);
    Coefficients(x.scale, x.offset, y.scale, y.offset)
  }

  /** The coefficients per axis in closed form: scale = (max - min) times the
      signed pixel width of the target, offset = that width times min plus
      the target's start. */
  lemma CoefficientsClosedForm(g: Geometry)
    ensures TransformCoefficients(g).xa == (g.rangeX.max - g.rangeX.min) * (g.width - 2.0 * Pad(g))
    ensures TransformCoefficients(g).xm == (g.width - 2.0 * Pad(g)) * g.rangeX.min + Pad(g)
    ensures TransformCoefficients(g).ya
            == (g.rangeY.max - g.rangeY.min) * (4.0 * g.pxScale + 2.0 * Pad(g) - g.height)
    ensures TransformCoefficients(g).ym
            == (4.0 * g.pxScale + 2.0 * Pad(g) - g.height) * g.rangeY.min + (g.height - 2.0 * g.pxScale - Pad(g))
  {
  }

  /** Both scale coefficients are non-zero, so both inverse maps exist. */
  predicate Invertible(g: Geometry) {
    TransformCoefficients(g).xa != 0.0 && TransformCoefficients(g).ya != 0.0
  }

  /** A geometry with non-empty ranges and room left inside the padding. */
  predicate Sane(g: Geometry) {
    && g.rangeX.min < g.rangeX.max
    && g.rangeY.min < g.rangeY.max
    && g.width > 2.0 * Pad(g)
    && g.height > 4.0 * g.pxScale + 2.0 * Pad(g)
  }

  /** `fromLocalX`: logical X to pixel X. */
  function FromLocalX(g: Geometry, x: real): real {
    TransformCoefficients(g).xa * x + TransformCoefficients(g).xm
  }

  /** `fromLocalY`: logical Y to pixel Y. */
  function FromLocalY(g: Geometry, y: real): real {
    TransformCoefficients(g).ya * y + TransformCoefficients(g).ym
  }

  /** `toLocalX`: pixel X to logical X, the inverse of FromLocalX. */
  function ToLocalX(g: Geometry, px: real): (x: real)
    requires TransformCoefficients(g).xa != 0.0
    ensures FromLocalX(g, x) == px
  {
    (px - TransformCoefficients(g).xm) / TransformCoefficients(g).xa
  }

  /** `toLocalY`: pixel Y to logical Y, the inverse of FromLocalY. */
  function ToLocalY(g: Geometry, py: real): (y: real)
    requires TransformCoefficients(g).ya != 0.0
    ensures FromLocalY(g, y) == py
  {
    (py - TransformCoefficients(g).ym) / TransformCoefficients(g).ya
  }

  lemma ToFromLocalX(g: Geometry, x: real)
    requires TransformCoefficients(g).xa != 0.0
    ensures ToLocalX(g, FromLocalX(g, x)) == x
  {
  }

  lemma ToFromLocalY(g: Geometry, y: real)
    requires TransformCoefficients(g).ya != 0.0
    ensures ToLocalY(g, FromLocalY(g, y)) == y
  {
  }

  /** A sane geometry has a rising X scale and a falling Y scale. */
  lemma SaneSigns(g: Geometry)
    requires Sane(g)
    ensures TransformCoefficients(g).xa > 0.0 && TransformCoefficients(g).ya < 0.0
    ensures Invertible(g)
  {
    var c := TransformCoefficients(g);
    CoefficientsClosedForm(g);
    MulPos(g.rangeX.max - g.rangeX.min, g.width - 2.0 * Pad(g));
    MulPos(g.rangeY.max - g.rangeY.min, g.height - 4.0 * g.pxScale - 2.0 * Pad(g));
    assert c.ya == -((g.rangeY.max - g.rangeY.min) * (g.height - 4.0 * g.pxScale - 2.0 * Pad(g)));
  }

  lemma MulPos(a: real, b: real)
    requires a > 0.0 && b > 0.0
    ensures a * b > 0.0
  {
  }

  /** With `rangeX.min < rangeX.max`, fromLocalX is strictly increasing
      exactly when the canvas is wider than twice the padding. */
  lemma FromLocalXIncreasingIff(g: Geometry)
    requires g.rangeX.min < g.rangeX.max
    ensures (forall a, b :: a < b ==> FromLocalX(g, a) < FromLocalX(g, b)) <==> g.width > 2.0 * Pad(g)
  {
    var c := TransformCoefficients(g);
    CoefficientsClosedForm(g);
    var w := g.width - 2.0 * Pad(g);
    if w > 0.0 {
      MulPos(g.rangeX.max - g.rangeX.min, w);
      forall a, b | a < b ensures FromLocalX(g, a) < FromLocalX(g, b) {
        MulPos(c.xa, b - a);
        assert FromLocalX(g, b) - FromLocalX(g, a) == c.xa * (b - a);
      }
    } else {
      MulNonPos(g.rangeX.max - g.rangeX.min, w);
      assert c.xa <= 0.0;
      assert FromLocalX(g, 1.0) - FromLocalX(g, 0.0) == c.xa;
      assert !(FromLocalX(g, 0.0) < FromLocalX(g, 1.0));
    }
  }

  lemma MulNonPos(a: real, b: real)
    requires a > 0.0 && b <= 0.0
    ensures a * b <= 0.0
  {
  }

  /** With `rangeY.min < rangeY.max`, fromLocalY is strictly decreasing
      exactly when the canvas is taller than the two pixel-scale bands plus
      twice the padding; then the top of the range lies above its bottom. */
  lemma FromLocalYDecreasingIff(g: Geometry)
    requires g.rangeY.min < g.rangeY.max
    ensures (forall a, b :: a < b ==> FromLocalY(g, a) > FromLocalY(g, b))
            <==> g.height > 4.0 * g.pxScale + 2.0 * Pad(g)
    ensures g.height > 4.0 * g.pxScale + 2.0 * Pad(g) ==>
              FromLocalY(g, g.rangeY.max) < FromLocalY(g, g.rangeY.min)
  {
    var c := TransformCoefficients(g);
    CoefficientsClosedForm(g);
    var h := g.height - 4.0 * g.pxScale - 2.0 * Pad(g);
    assert c.ya == -((g.rangeY.max - g.rangeY.min) * h);
    if h > 0.0 {
      MulPos(g.rangeY.max - g.rangeY.min, h);
      forall a, b | a < b ensures FromLocalY(g, a) > FromLocalY(g, b) {
        MulPos(-c.ya, b - a);
      }
    } else {
      var r := g.rangeY.max - g.rangeY.min;
      MulNonPos(r, h);
      assert r * h <= 0.0;
      assert c.ya == -(r * h);
      assert c.ya >= 0.0;
      assert FromLocalY(g, 1.0) - FromLocalY(g, 0.0) == c.ya;
      assert !(FromLocalY(g, 0.0) > FromLocalY(g, 1.0));
    }
  }

  /** On a rising X scale the inverse map preserves order against pixel X. */
  lemma ToLocalXOrder(g: Geometry, x: real, px: real)
    requires TransformCoefficients(g).xa > 0.0
    ensures FromLocalX(g, x) < px <==> x < ToLocalX(g, px)
    ensures FromLocalX(g, x) >= px <==> x >= ToLocalX(g, px)
  {
    var c := TransformCoefficients(g);
    var t := ToLocalX(g, px);
    assert FromLocalX(g, x) - px == c.xa * (x - t);
    ScaledSign(c.xa, x - t, FromLocalX(g, x) - px);
  }

  /** A positive scale keeps the sign of what it scales. */
  lemma ScaledSign(a: real, d: real, p: real)
    requires a > 0.0 && p == a * d
    ensures p < 0.0 <==> d < 0.0
  {
    if d < 0.0 {
      MulPos(a, -d);
    } else if d > 0.0 {
      MulPos(a, d);
    }
  }

  /** The unit square drawn into a 100 by 100 canvas whose padding totals 10:
      x = 0.5 lands on the pixel midpoint 50. */
  lemma MidpointExample()
    ensures FromLocalX(Geometry(1.0, 9.0, 100.0, 100.0, Range(0.0, 1.0), Range(0.0, 1.0)), 0.5) == 50.0
  {
  }
}
