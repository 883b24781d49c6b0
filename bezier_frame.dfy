/** The state the visualizer's window computes: twenty control points laid out
    left to right, the static curve sampled through them once at start-up,
    and the live three-point curve recomputed from the pointer position on
    every repaint. Drawing, windowing and the random source are not modelled:
    the random y-coordinates and the pointer position are parameters. */
module BezierFrame {
  import opened CurveMath

  const CanvasWidth: nat := 640
  const CanvasHeight: nat := 480
  /** Number of segments of each drawn curve; a curve has PointsN + 1 samples. */
  const PointsN: nat := 100
  /** Number of control points of the static curve. */
  const ControlCount: nat := 20

  /** Fixed end points of the live curve. */
  const LeftAnchor: Point := Point(0.1, 0.5)
  const RightAnchor: Point := Point(0.9, 0.5)

  /** Control point j of n sits at x = j / n, with the j-th random value as y:
      the x-coordinates are strictly increasing and lie in [0, 1). */
  function ControlLayout(ys: seq<real>): (cps: seq<Point>)
    ensures |cps| == |ys|
    ensures forall j :: 0 <= j < |cps| ==> cps[j].x == j as real / |ys| as real && cps[j].y == ys[j]
    ensures forall j :: 0 <= j < |cps| ==> 0.0 <= cps[j].x < 1.0
    ensures forall j, k :: 0 <= j < k < |cps| ==> cps[j].x < cps[k].x
  {
    var cps := seq(|ys|, j requires 0 <= j < |ys| => Point(Fraction(j, |ys|), ys[j]));
    if |ys| == 0 then cps else FractionsIncrease(|ys|); cps
  }

  /** j / n as a real number: multiplied by n it gives j back, it is never
      negative, and it is below one when j is below n. */
  function Fraction(j: nat, n: nat): (r: real)
    requires n > 0
    ensures r * (n as real) == j as real
    ensures 0.0 <= r
    ensures j < n ==> r < 1.0
  {
    j as real / n as real
  }

  /** The fractions j / n for j in [0, n) increase strictly and stay in [0, 1). */
  lemma FractionsIncrease(n: nat)
    requires n > 0
    ensures forall j :: 0 <= j < n ==> 0.0 <= Fraction(j, n) < 1.0
    ensures forall j, k :: 0 <= j < k < n ==> Fraction(j, n) < Fraction(k, n)
  {
    forall j, k | 0 <= j < k < n
      ensures Fraction(j, n) < Fraction(k, n)
    {
      assert Fraction(k, n) - Fraction(j, n) == (k - j) as real / n as real;
    }
  }

  /** A pixel position as a point in normalised canvas coordinates. Scaling
      back by the canvas size (as drawing does, before truncating to pixels)
      gives the pixel position again. */
  function Normalize(px: int, py: int): (p: Point)
    ensures p.x * (CanvasWidth as real) == px as real
    ensures p.y * (CanvasHeight as real) == py as real
  {
    Point(px as real / CanvasWidth as real, py as real / CanvasHeight as real)
  }

  /** A pixel position on the canvas normalises into the unit square. */
  lemma NormalizeOnCanvas(px: int, py: int)
    requires 0 <= px <= CanvasWidth && 0 <= py <= CanvasHeight
    ensures Within(Normalize(px, py), Point(0.0, 0.0), Point(1.0, 1.0))
  {
  }

  /** The window's computed state. Both arrays are filled once by the
      constructor and only read afterwards. */
  class Bezier {
    var controlPoints: array<Point>
    var samples: array<Point>

    /** Lays out the control points, taking their y-coordinates from `ys`
        (the values the random source delivers), then samples the curve
        through them at PointsN + 1 evenly spaced parameters. */
    constructor (ys: seq<real>)
      requires |ys| == ControlCount
      ensures fresh(controlPoints) && fresh(samples)
      ensures controlPoints[..] == ControlLayout(ys)
      ensures samples[..] == Sampled(controlPoints[..], PointsN)
    {
      var delta := 1.0 / PointsN as real;
      var cps := new Point[ControlCount];
      var j := 0;
      while j < cps.Length
        invariant 0 <= j <= cps.Length
        invariant forall k :: 0 <= k < j ==> cps[k] == ControlLayout(ys)[k]
      {
        var x := Fraction(j, cps.Length);
        cps[j] := Point(x, ys[j]);
        j := j + 1;
      }
      assert cps[..] == ControlLayout(ys);

      ghost var curve := Sampled(cps[..], PointsN);
      var s := new Point[PointsN + 1];
      var i := 0;
      while i < PointsN + 1
        invariant 0 <= i <= PointsN + 1
        invariant cps[..] == ControlLayout(ys)
        invariant forall k :: 0 <= k < i ==> s[k] == curve[k]
      {
        var t := i as real * delta;
        s[i] := BezierInterpolate(cps[..], t);
        assert s[i] == curve[i];
        i := i + 1;
      }
      assert s[..] == curve;
      controlPoints := cps;
      samples := s;
    }
  }

  /** The live curve of a repaint: its middle control point is the pointer
      position `(px, py)` normalised to the canvas and its ends are the fixed
      anchors. */
  method PaintLiveCurve(px: int, py: int) returns (points: array<Point>)
    ensures fresh(points)
    ensures points[..] == Sampled([LeftAnchor, Normalize(px, py), RightAnchor], PointsN)
  {
    var p1 := LeftAnchor;
    var p2 := Normalize(px, py);
    var p3 := RightAnchor;
    points := UnrolledSamples(p1, p2, p3);
  }

  /** The sampling loop of a repaint: each of the PointsN + 1 samples is the
      unrolled three-point construction at t = i / PointsN, and the result
      is the sampled recursive evaluation of the curve. */
  method UnrolledSamples(p1: Point, p2: Point, p3: Point) returns (points: array<Point>)
    ensures fresh(points)
    ensures points[..] == Sampled([p1, p2, p3], PointsN)
  {
    var delta := 1.0 / PointsN as real;
    ghost var curve := Sampled([p1, p2, p3], PointsN);
    points := new Point[PointsN + 1];
    var i := 0;
    while i < PointsN + 1
      invariant 0 <= i <= PointsN + 1
      invariant forall k :: 0 <= k < i ==> points[k] == curve[k]
    {
      var t := i as real * delta;
      var p1p2 := Interpolate(p1, p2, t);
      var p2p3 := Interpolate(p2, p3, t);
      points[i] := Interpolate(p1p2, p2p3, t);
      assert points[i] == curve[i] by {
        LiveSample(p1, p2, p3, i);
      }
      i := i + 1;
    }
    assert points[..] == curve;
  }

  /** Sample i of a three-point curve is the unrolled evaluation at i / PointsN. */
  lemma LiveSample(p1: Point, p2: Point, p3: Point, i: int)
    requires 0 <= i <= PointsN
    ensures var t := i as real * (1.0 / PointsN as real);
            Sampled([p1, p2, p3], PointsN)[i]
            == Interpolate(Interpolate(p1, p2, t), Interpolate(p2, p3, t), t)
  {
    var cps, t := [p1, p2, p3], SampleT(i, PointsN);
    assert Sampled(cps, PointsN)[i] == BezierInterpolate(cps, t);
    UnrolledQuadratic(p1, p2, p3, t);
  }

  /** When the random values lie in [0, 1), every control point and every
      sample of the static curve lies in the unit square, that is, on the
      canvas. */
  lemma StaticCurveOnCanvas(ys: seq<real>)
    requires |ys| == ControlCount
    requires forall j :: 0 <= j < |ys| ==> 0.0 <= ys[j] < 1.0
    ensures forall i :: 0 <= i <= PointsN
              ==> Within(Sampled(ControlLayout(ys), PointsN)[i], Point(0.0, 0.0), Point(1.0, 1.0))
  {
    var cps := ControlLayout(ys);
    assert forall j :: 0 <= j < |cps| ==> Within(cps[j], Point(0.0, 0.0), Point(1.0, 1.0));
    SamplesWithin(cps, PointsN, Point(0.0, 0.0), Point(1.0, 1.0));
  }

  /** For a pointer on the canvas, every sample of the live curve lies on the
      canvas. */
  lemma LiveCurveOnCanvas(px: int, py: int)
    requires 0 <= px <= CanvasWidth && 0 <= py <= CanvasHeight
    ensures forall i :: 0 <= i <= PointsN
              ==> Within(Sampled([LeftAnchor, Normalize(px, py), RightAnchor], PointsN)[i],
                         Point(0.0, 0.0), Point(1.0, 1.0))
  {
    NormalizeOnCanvas(px, py);
    var cps := [LeftAnchor, Normalize(px, py), RightAnchor];
    assert forall j :: 0 <= j < |cps| ==> Within(cps[j], Point(0.0, 0.0), Point(1.0, 1.0));
    SamplesWithin(cps, PointsN, Point(0.0, 0.0), Point(1.0, 1.0));
  }
}
