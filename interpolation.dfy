/** SPCore's `Interpolation`: linear interpolation between two values and
    the 4-point cubic Hermite interpolator, both taking the fraction `x` of
    the way from the first middle value to the second and refusing an `x`
    outside `[0, 1]`. */
module Interpolation {
  import opened Wrappers

  /** The range guard both interpolators share (`x.between?(0.0, 1.0)`). */
  predicate InUnitInterval(x: real)
  {
    0.0 <= x <= 1.0
  }

  /** `Interpolation.linear(y0, y1, x)`: `y0 + x * (y1 - y0)`. */
  function Linear(y0: real, y1: real, x: real): (r: Result<real>)
    ensures r.Ok? <==> InUnitInterval(x)
    ensures r.Err? ==> r.error == OutsideUnitInterval
    ensures r.Ok? && x == 0.0 ==> r.value == y0
    ensures r.Ok? && x == 1.0 ==> r.value == y1
  {
    if !InUnitInterval(x) then Err(OutsideUnitInterval)
    else Ok(y0 + x * (y1 - y0))
  }

  /** A linear interpolation lies between its two end values. */
  lemma LinearBetween(y0: real, y1: real, x: real)
    requires InUnitInterval(x)
    ensures y0 <= y1 ==> y0 <= Linear(y0, y1, x).value <= y1
    ensures y1 <= y0 ==> y1 <= Linear(y0, y1, x).value <= y0
  {
    var d := y1 - y0;
    if d >= 0.0 {
      assert 0.0 <= x * d <= d by {
        assert x * d <= 1.0 * d;
      }
    } else {
      assert d <= x * d <= 0.0 by {
        assert 1.0 * d <= x * d;
      }
    }
  }

  /** Scaling both end values scales the interpolation: `linear(20, 40,
      0.5)` is ten times `linear(2, 4, 0.5)`. */
  lemma LinearScales(y0: real, y1: real, x: real, k: real)
    requires InUnitInterval(x)
    ensures Linear(k * y0, k * y1, x).value == k * Linear(y0, y1, x).value
  {
    assert x * (k * y1 - k * y0) == k * (x * (y1 - y0));
  }

  /** The documented cases: halfway between 2 and 4 is 3, and halfway
      between 20 and 40 is 30. */
  lemma LinearExamples()
    ensures Linear(2.0, 4.0, 0.5) == Ok(3.0)
    ensures Linear(20.0, 40.0, 0.5) == Ok(30.0)
  {
  }

  /** The coefficients of the Hermite cubic, lowest power first. */
  datatype Cubic = Cubic(c0: real, c1: real, c2: real, c3: real)

  /** The cubic's coefficients for the four points, as the interpolator
      computes them: `c3` before `c2`, which is built from it. */
  function HermiteCoefficients(y0: real, y1: real, y2: real, y3: real): Cubic
  {
    var c0 := y1;
    var c1 := 0.5 * (y2 - y0);
    var c3 := 1.5 * (y1 - y2) + 0.5 * (y3 - y0);
    var c2 := y0 - y1 + c1 - c3;
    Cubic(c0, c1, c2, c3)
  }

  /** The cubic at `x`, in Horner form. */
  function Eval(c: Cubic, x: real): real
  {
    ((c.c3 * x + c.c2) * x + c.c1) * x + c.c0
  }

  /** The cubic's slope at `x`. */
  function Slope(c: Cubic, x: real): real
  {
    (3.0 * c.c3 * x + 2.0 * c.c2) * x + c.c1
  }

  /** `Interpolation.cubic_hermite(y0, y1, y2, y3, x)`: passes through the
      two middle points at `x = 0` and `x = 1`. */
  function CubicHermite(y0: real, y1: real, y2: real, y3: real, x: real): (r: Result<real>)
    ensures r.Ok? <==> InUnitInterval(x)
    ensures r.Err? ==> r.error == OutsideUnitInterval
    ensures r.Ok? && x == 0.0 ==> r.value == y1
    ensures r.Ok? && x == 1.0 ==> r.value == y2
  {
    if !InUnitInterval(x) then Err(OutsideUnitInterval)
    else Ok(Eval(HermiteCoefficients(y0, y1, y2, y3), x))
  }

  /** The cubic's slopes at the two middle points are the central
      differences there, half of `y2 - y0` and half of `y3 - y1`: the
      Catmull-Rom tangents that make neighbouring pieces join smoothly. */
  lemma HermiteSlopes(y0: real, y1: real, y2: real, y3: real)
    ensures Slope(HermiteCoefficients(y0, y1, y2, y3), 0.0) == 0.5 * (y2 - y0)
    ensures Slope(HermiteCoefficients(y0, y1, y2, y3), 1.0) == 0.5 * (y3 - y1)
  {
  }

  /** Four equal points give that value everywhere in between. */
  lemma HermiteConstant(y: real, x: real)
    requires InUnitInterval(x)
    ensures CubicHermite(y, y, y, y, x) == Ok(y)
  {
    var c := HermiteCoefficients(y, y, y, y);
    assert c == Cubic(y, 0.0, 0.0, 0.0);
  }

  /** Four evenly spaced points on a line give that line: the interpolator
      agrees with `Linear` between the middle two. */
  lemma HermiteLine(a: real, d: real, x: real)
    requires InUnitInterval(x)
    ensures CubicHermite(a - d, a, a + d, a + 2.0 * d, x) == Linear(a, a + d, x)
  {
    assert CubicHermite(a - d, a, a + d, a + 2.0 * d, x) == Ok(a + x * d) by {
      var c := HermiteCoefficients(a - d, a, a + d, a + 2.0 * d);
      assert c == Cubic(a, d, 0.0, 0.0);
      assert Eval(c, x) == a + x * d;
    }
    assert Linear(a, a + d, x) == Ok(a + x * d) by {
      assert (a + d) - a == d;
    }
  }


}
