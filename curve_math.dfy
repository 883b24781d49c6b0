/** The pure geometry of the Bezier visualizer: points in normalised canvas
    coordinates, linear interpolation, and de Casteljau evaluation of a curve
    over an arbitrary number of control points. Coordinates are `real`; the
    program's single-precision rounding is not part of this model. */
module CurveMath {

  /** A point of the canvas; (0, 0) is the top-left corner and (1, 1) the
      bottom-right one, but coordinates outside that range are allowed. */
  datatype Point = Point(x: real, y: real) {

    /** Component-wise sum: subtracting `other` again gives this point back,
        and adding the origin changes nothing. */
    function Add(other: Point): (r: Point)
      ensures r.x - other.x == x && r.y - other.y == y
      ensures other == Point(0.0, 0.0) ==> r == this
    {
      Point(x + other.x, y + other.y)
    }

    /** Both coordinates scaled by `v`: scaling by one leaves the point
        unchanged, scaling by zero gives the origin, and any other factor
        can be divided out again. */
    function Mult(v: real): (r: Point)
      ensures v == 1.0 ==> r == this
      ensures v == 0.0 ==> r == Point(0.0, 0.0)
      ensures v != 0.0 ==> r.x / v == x && r.y / v == y
    {
      if v != 0.0 then DivideOut(v, x, v * x); DivideOut(v, y, v * y); Point(v * x, v * y)
      else Point(v * x, v * y)
    }
  }

  /** Scaling by a sum is the sum of the two scalings. */
  lemma ScaleBySum(p: Point, u: real, v: real)
    ensures p.Mult(u).Add(p.Mult(v)) == p.Mult(u + v)
  {
  }

  /** One coordinate of a linear interpolation: the value at t on the line
      through a (at t = 0) and b (at t = 1). */
  function Lerp(a: real, b: real, t: real): real {
    a + t * (b - a)
  }

  /** If m is v * x for a non-zero v, dividing m by v gives x back. */
  lemma DivideOut(v: real, x: real, m: real)
    requires v != 0.0 && m == v * x
    ensures m / v == x
  {
  }

  /** Linear interpolation `a * (1 - t) + b * t`. A parameter outside [0, 1]
      extrapolates along the line through `a` and `b`. */
  function Interpolate(a: Point, b: Point, t: real): (r: Point)
    ensures r.x == Lerp(a.x, b.x, t) && r.y == Lerp(a.y, b.y, t)
    ensures t == 0.0 ==> r == a
    ensures t == 1.0 ==> r == b
    ensures a == b ==> r == a
  {
    ScaleBySum(a, 1.0 - t, t);
    a.Mult(1.0 - t).Add(b.Mult(t))
  }

  /** De Casteljau's recursion over the index range [begin, end] of `cps`.
      A range of one element (or an empty one, begin > end) is that element;
      otherwise the curve of all but the last point and the curve of all but
      the first point are interpolated. The requires clause is exactly the
      set of arguments on which no index leaves the array. */
  function BezierInterpolateHelper(cps: seq<Point>, t: real, begin: int, end: int): (r: Point)
    requires 0 <= begin < |cps| && end < |cps|
    ensures begin >= end ==> r == cps[begin]
    ensures t == 0.0 ==> r == cps[begin]
    ensures t == 1.0 ==> r == cps[if begin >= end then begin else end]
    decreases end - begin
  {
    if begin >= end then
      cps[begin]
    else
      var a := BezierInterpolateHelper(cps, t, begin, end - 1);
      var b := BezierInterpolateHelper(cps, t, begin + 1, end);
      Interpolate(a, b, t)
  }

  /** The point at parameter `t` of the Bezier curve whose control points are
      `cps`, in order. The program indexes the first element unconditionally,
      so an empty sequence is outside its domain. */
  function BezierInterpolate(cps: seq<Point>, t: real): (r: Point)
    requires |cps| > 0
    ensures |cps| == 1 ==> r == cps[0]
    ensures |cps| == 2 ==> r == Interpolate(cps[0], cps[1], t)
    ensures t == 0.0 ==> r == cps[0]
    ensures t == 1.0 ==> r == cps[|cps| - 1]
  {
    BezierInterpolateHelper(cps, t, 0, |cps| - 1)
  }

  /** The helper on [begin, end] depends only on the control points in that
      range: it evaluates the curve of the sub-sequence. */
  lemma HelperEvaluatesSlice(cps: seq<Point>, t: real, begin: int, end: int)
    requires 0 <= begin <= end < |cps|
    ensures BezierInterpolateHelper(cps, t, begin, end) == BezierInterpolate(cps[begin..end + 1], t)
  {
    HelperShift(cps, t, begin, end, begin, end + 1);
  }

  /** Re-basing the index range on a window [lo, hi) of `cps` does not change
      the helper's value. */
  lemma {:induction false} HelperShift(cps: seq<Point>, t: real, begin: int, end: int, lo: int, hi: int)
    requires 0 <= lo <= begin <= end < hi <= |cps|
    ensures BezierInterpolateHelper(cps, t, begin, end)
         == BezierInterpolateHelper(cps[lo..hi], t, begin - lo, end - lo)
    decreases end - begin
  {
    if begin < end {
      HelperShift(cps, t, begin, end - 1, lo, hi);
      HelperShift(cps, t, begin + 1, end, lo, hi);
    }
  }

  // ---------------------------------------------------------------------
  // An independent reference: the iterative triangular reduction, which
  // replaces the sequence by the interpolations of adjacent pairs until a
  // single point remains.

  /** One row of the triangle: each adjacent pair interpolated at `t`. */
  function ReduceStep(s: seq<Point>, t: real): (r: seq<Point>)
    requires |s| > 0
    ensures |r| == |s| - 1
  {
    seq(|s| - 1, i requires 0 <= i < |s| - 1 => Interpolate(s[i], s[i + 1], t))
  }

  /** The apex of the triangle built from `s`. */
  function Reduce(s: seq<Point>, t: real): Point
    requires |s| > 0
    decreases |s|
  {
    if |s| == 1 then s[0] else Reduce(ReduceStep(s, t), t)
  }

  /** Row `k` of the triangle holds, at position i, the recursive value over
      the range [i, i + k]; so the apex is the recursive value over the
      whole sequence. */
  lemma {:induction false} ReduceRow(s: seq<Point>, t: real, k: nat, row: seq<Point>)
    requires |s| > 0 && k < |s| && |row| == |s| - k
    requires forall i :: 0 <= i < |row| ==> row[i] == BezierInterpolateHelper(s, t, i, i + k)
    ensures Reduce(row, t) == BezierInterpolate(s, t)
    decreases |row|
  {
    if |row| > 1 {
      var next := ReduceStep(row, t);
      forall i | 0 <= i < |next|
        ensures next[i] == BezierInterpolateHelper(s, t, i, i + k + 1)
      {
        assert next[i] == Interpolate(row[i], row[i + 1], t);
      }
      ReduceRow(s, t, k + 1, next);
    }
  }

  /** The recursive evaluation and the triangular reduction agree on every
      non-empty control sequence and every parameter. */
  lemma RecursiveMatchesTriangular(cps: seq<Point>, t: real)
    requires |cps| > 0
    ensures BezierInterpolate(cps, t) == Reduce(cps, t)
  {
    ReduceRow(cps, t, 0, cps);
  }

  // ---------------------------------------------------------------------
  // Convex-hull (bounding-box) property.

  /** `p` lies in the axis-aligned box with corners `lo` and `hi`. */
  predicate Within(p: Point, lo: Point, hi: Point) {
    lo.x <= p.x <= hi.x && lo.y <= p.y <= hi.y
  }

  /** For t in [0, 1], the product m = t * d lies between 0 and d. The
      product is a parameter, so the caller's reasoning about it is linear. */
  lemma ScaleByUnitInterval(t: real, d: real, m: real)
    requires 0.0 <= t <= 1.0 && m == t * d
    ensures d >= 0.0 ==> 0.0 <= m <= d
    ensures d <= 0.0 ==> d <= m <= 0.0
  {
    assert d - m == (1.0 - t) * d;
  }

  /** One coordinate of an interpolation with t in [0, 1] stays between the
      bounds that hold both ends. */
  lemma LerpBetween(a: real, b: real, t: real, lo: real, hi: real)
    requires 0.0 <= t <= 1.0 && lo <= a <= hi && lo <= b <= hi
    ensures lo <= Lerp(a, b, t) <= hi
  {
    ScaleByUnitInterval(t, b - a, t * (b - a));
  }

  /** Interpolating with t in [0, 1] never leaves a box holding both ends. */
  lemma InterpolateWithin(a: Point, b: Point, t: real, lo: Point, hi: Point)
    requires 0.0 <= t <= 1.0
    requires Within(a, lo, hi) && Within(b, lo, hi)
    ensures Within(Interpolate(a, b, t), lo, hi)
  {
    LerpBetween(a.x, b.x, t, lo.x, hi.x);
    LerpBetween(a.y, b.y, t, lo.y, hi.y);
  }

  /** For t in [0, 1] the helper's value lies in every box that holds the
      control points of its range. */
  lemma {:induction false} HelperWithin(cps: seq<Point>, t: real, begin: int, end: int, lo: Point, hi: Point)
    requires 0 <= begin <= end < |cps| && 0.0 <= t <= 1.0
    requires forall i :: begin <= i <= end ==> Within(cps[i], lo, hi)
    ensures Within(BezierInterpolateHelper(cps, t, begin, end), lo, hi)
    decreases end - begin
  {
    if begin < end {
      HelperWithin(cps, t, begin, end - 1, lo, hi);
      HelperWithin(cps, t, begin + 1, end, lo, hi);
      InterpolateWithin(BezierInterpolateHelper(cps, t, begin, end - 1),
                        BezierInterpolateHelper(cps, t, begin + 1, end), t, lo, hi);
    }
  }

  /** For t in [0, 1] the curve point lies in every box that holds all the
      control points. */
  lemma CurveWithin(cps: seq<Point>, t: real, lo: Point, hi: Point)
    requires |cps| > 0 && 0.0 <= t <= 1.0
    requires forall i :: 0 <= i < |cps| ==> Within(cps[i], lo, hi)
    ensures Within(BezierInterpolate(cps, t), lo, hi)
  {
    HelperWithin(cps, t, 0, |cps| - 1, lo, hi);
  }

  // ---------------------------------------------------------------------
  // The three-point (quadratic) curve.

  /** The hand-unrolled evaluation of a three-point curve, two interpolations
      followed by a third, is the recursive evaluation. */
  lemma UnrolledQuadratic(p1: Point, p2: Point, p3: Point, t: real)
    ensures Interpolate(Interpolate(p1, p2, t), Interpolate(p2, p3, t), t)
         == BezierInterpolate([p1, p2, p3], t)
  {
    var cps := [p1, p2, p3];
    assert BezierInterpolateHelper(cps, t, 0, 1) == Interpolate(p1, p2, t);
    assert BezierInterpolateHelper(cps, t, 1, 2) == Interpolate(p2, p3, t);
  }

  /** The quadratic Bernstein polynomial with coefficients p, q, w:
      (1 - t)^2 p + 2 t (1 - t) q + t^2 w. */
  function Bernstein2(p: real, q: real, w: real, t: real): real
  {
    (1.0 - t) * (1.0 - t) * p + 2.0 * t * (1.0 - t) * q + t * t * w
  }

  /** One coordinate of the unrolled three-point evaluation, expanded:
      interpolating the two interpolations gives the Bernstein polynomial. */
  lemma LerpTwiceExpanded(p: real, q: real, w: real, t: real)
    ensures Lerp(Lerp(p, q, t), Lerp(q, w, t), t) == Bernstein2(p, q, w, t)
  {
  }

  /** The unrolled three-point evaluation, expanded coordinate by coordinate. */
  lemma UnrolledExpanded(p1: Point, p2: Point, p3: Point, t: real)
    ensures var r := Interpolate(Interpolate(p1, p2, t), Interpolate(p2, p3, t), t);
            r.x == Bernstein2(p1.x, p2.x, p3.x, t) && r.y == Bernstein2(p1.y, p2.y, p3.y, t)
  {
    LerpTwiceExpanded(p1.x, p2.x, p3.x, t);
    LerpTwiceExpanded(p1.y, p2.y, p3.y, t);
  }

  /** The three-point curve in Bernstein form:
      (1 - t)^2 p1 + 2 t (1 - t) p2 + t^2 p3, coordinate by coordinate. */
  lemma QuadraticBernstein(p1: Point, p2: Point, p3: Point, t: real)
    ensures BezierInterpolate([p1, p2, p3], t).x == Bernstein2(p1.x, p2.x, p3.x, t)
    ensures BezierInterpolate([p1, p2, p3], t).y == Bernstein2(p1.y, p2.y, p3.y, t)
  {
    UnrolledQuadratic(p1, p2, p3, t);
    UnrolledExpanded(p1, p2, p3, t);
  }

  // ---------------------------------------------------------------------
  // Sampling a curve at evenly spaced parameters.

  /** The parameter of sample `i` out of `n`: i times the step 1 / n. */
  function SampleT(i: int, n: nat): (t: real)
    requires n > 0
    ensures 0 <= i <= n ==> 0.0 <= t <= 1.0
    ensures i == 0 ==> t == 0.0
    ensures i == n ==> t == 1.0
  {
    (i as real) * (1.0 / (n as real))
  }

  /** The polyline of a curve: its points at the n + 1 parameters
      0, 1/n, ..., 1. */
  function Sampled(cps: seq<Point>, n: nat): (r: seq<Point>)
    requires |cps| > 0 && n > 0
    ensures |r| == n + 1
    ensures r[0] == cps[0] && r[n] == cps[|cps| - 1]
  {
    seq(n + 1, i requires 0 <= i <= n => BezierInterpolate(cps, SampleT(i, n)))
  }

  /** Every sample lies in every box that holds all the control points. */
  lemma SamplesWithin(cps: seq<Point>, n: nat, lo: Point, hi: Point)
    requires |cps| > 0 && n > 0
    requires forall i :: 0 <= i < |cps| ==> Within(cps[i], lo, hi)
    ensures forall i :: 0 <= i <= n ==> Within(Sampled(cps, n)[i], lo, hi)
  {
    forall i | 0 <= i <= n
      ensures Within(Sampled(cps, n)[i], lo, hi)
    {
      CurveWithin(cps, SampleT(i, n), lo, hi);
    }
  }
}
