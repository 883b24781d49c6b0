# Bezier curve visualizer: a Dafny model

The program is a small Swing application (`src/Bezier.java`). At start-up it
lays out twenty control points across the canvas, with x = j/20 and a random
y, and samples the Bezier curve through them at 101 evenly spaced parameters.
On every repaint it computes a second, three-point curve. Its ends are fixed
at (0.1, 0.5) and (0.9, 0.5). Its middle point is the pointer position
divided by the canvas size. The curve is evaluated by de Casteljau's
recursion: the curve of `[begin, end]` interpolates between the curve of
`[begin, end-1]` and the curve of `[begin+1, end]`.

This model has two modules:

- `CurveMath` (`curve_math.dfy`) holds the pure geometry: `Point` with `Add`
  and `Mult`, `Interpolate`, `BezierInterpolateHelper` and
  `BezierInterpolate`, and the sampling of a curve (`SampleT`, `Sampled`).
  These are functions, and the lemmas beside them state what they promise:
  - endpoint exactness;
  - the one- and two-point cases;
  - that the helper reads only its index range;
  - that the recursion equals the iterative triangular reduction (`Reduce`),
    an independent reference definition;
  - the bounding-box (convex hull) property;
  - the Bernstein form of the three-point curve.
- `BezierFrame` (`bezier_frame.dfy`) holds the imperative parts over arrays:
  - the constructor of class `Bezier`, whose two loops fill `controlPoints`
    and `samples`;
  - the live-curve loop of `paintComponent` (`PaintLiveCurve` and its
    sampling loop `UnrolledSamples`);
  - the control-point layout `ControlLayout`;
  - the pointer normalisation `Normalize`.

  Each method is proved against the specification functions above. The
  source writes the live-curve loop inline in `paintComponent`. Here that
  loop is a method of its own, `UnrolledSamples`, which `PaintLiveCurve`
  calls with the two anchors and the normalised pointer.

Coordinates are `real`. The program's `float` arithmetic is not modelled, so
`t = i * (1/100)` is exact here, and the last sample has t = 1 exactly.

The program performs no argument checks of its own, so the model's
preconditions are exactly the argument ranges on which the code never
indexes outside an array:

- `BezierInterpolate` requires a non-empty sequence (see "## Left out").
- The domain of `BezierInterpolateHelper` is
  `0 <= begin < |cps| && end < |cps|`. When `begin > end`, the code returns
  `cps[begin]` as its base case, and so does the model.

## Model

| member | source | states |
|---|---|---|
| CurveMath.ScaleBySum | src/Bezier.java:124-130 | Scaling a point by u and by v and adding the results is scaling it by u + v. |
| CurveMath.Point.Add | src/Bezier.java:124-126 | Subtracting `other` from the sum gives the original point back; adding the origin changes nothing. |
| CurveMath.Point.Mult | src/Bezier.java:128-130 | Scaling by 1 gives the point back, scaling by 0 gives the origin, and scaling by any non-zero v can be undone by dividing by v. |
| CurveMath.Interpolate | src/Bezier.java:105-109 | Each coordinate of the result is Lerp, that is a + t(b - a), the line through a and b (t outside [0,1] extrapolates). t = 0 gives a exactly, t = 1 gives b exactly, and interpolating a point with itself gives that point for every t. |
| CurveMath.BezierInterpolateHelper | src/Bezier.java:141-149 | Defined exactly when every index stays in bounds (0 <= begin < length, end < length); terminates on end - begin. When begin >= end the result is cps[begin]. At t = 0 it is cps[begin], and at t = 1 it is cps[end] (cps[begin] when begin >= end). |
| CurveMath.BezierInterpolate | src/Bezier.java:137-139 | For a non-empty sequence: a single point is returned as it is; two points give Interpolate(p0, p1, t); t = 0 gives the first control point and t = 1 the last. |
| CurveMath.HelperShift | src/Bezier.java:141-149 | The helper's value over [begin, end] does not change when the array is cut to any window around that range: it reads only cps[begin..end]. |
| CurveMath.HelperEvaluatesSlice | src/Bezier.java:141-149 | The helper over [begin, end] is BezierInterpolate of the sub-sequence cps[begin..end]. |
| CurveMath.ReduceRow | src/Bezier.java:141-149 | Row k of the triangular reduction holds, at position i, the helper's value over [i, i+k], so its apex is the recursive result. |
| CurveMath.RecursiveMatchesTriangular | src/Bezier.java:137-149 | For every non-empty sequence and every t, the recursive evaluation equals the iterative triangular reduction (repeatedly interpolating adjacent pairs until one point is left). |
| CurveMath.LerpBetween | src/Bezier.java:105-109 | With t in [0,1], one coordinate of an interpolation stays between any bounds that hold both ends. |
| CurveMath.InterpolateWithin | src/Bezier.java:105-109 | With t in [0,1], the interpolation of two points in an axis-aligned box stays in that box. |
| CurveMath.HelperWithin | src/Bezier.java:141-149 | With t in [0,1], the helper's value lies in every box that holds the control points of its range. |
| CurveMath.CurveWithin | src/Bezier.java:137-149 | With t in [0,1], the curve point lies in every box that holds all control points (the convex hull property, coordinate-wise). |
| CurveMath.UnrolledQuadratic | src/Bezier.java:80-83 | The hand-unrolled Interpolate(Interpolate(P1,P2,t), Interpolate(P2,P3,t), t) equals BezierInterpolate([P1,P2,P3], t) for every t. |
| CurveMath.LerpTwiceExpanded | src/Bezier.java:80-83 | Interpolating, at t, between the interpolations of (p, q) and of (q, w) gives the quadratic Bernstein polynomial (1-t)^2 p + 2t(1-t) q + t^2 w. |
| CurveMath.UnrolledExpanded | src/Bezier.java:80-83 | The unrolled construction's coordinates are (1-t)^2 P1 + 2t(1-t) P2 + t^2 P3. |
| CurveMath.QuadraticBernstein | src/Bezier.java:80-83 | The three-point curve is (1-t)^2 P1 + 2t(1-t) P2 + t^2 P3, coordinate by coordinate. |
| CurveMath.SampleT | src/Bezier.java:34 | The parameter i * (1/N) of sample i lies in [0,1] for 0 <= i <= N. It is exactly 0 for the first sample and exactly 1 for the last. |
| CurveMath.Sampled | src/Bezier.java:32-36 | The sampled curve has exactly N + 1 points. The first is the first control point and the last is the last control point. |
| CurveMath.SamplesWithin | src/Bezier.java:32-36 | Every sample lies in every box that holds all the control points. |
| BezierFrame.ControlLayout | src/Bezier.java:26-30 | Control point j has y = ys[j] and x = j/n. The x-coordinates lie in [0,1) and strictly increase with j. |
| BezierFrame.Fraction | src/Bezier.java:28 | The x-coordinate j/n of control point j: multiplied by n it gives j back, it is never negative, and it is below 1 when j < n. |
| BezierFrame.FractionsIncrease | src/Bezier.java:28 | For j in [0, n), j/n lies in [0,1) and strictly increases with j. |
| BezierFrame.Normalize | src/Bezier.java:76 | The normalised pointer position scaled back by the canvas size (640 x 480) is the pixel position again. |
| BezierFrame.NormalizeOnCanvas | src/Bezier.java:76 | A pixel position on the canvas normalises into the unit square. |
| BezierFrame.Bezier.constructor | src/Bezier.java:22-36 | The constructor allocates two new arrays. controlPoints holds exactly ControlLayout of the 20 random values, in order. samples holds exactly Sampled(controlPoints, 100): 101 points, the i-th being BezierInterpolate(controlPoints, i/100). |
| BezierFrame.PaintLiveCurve | src/Bezier.java:74-85 | A repaint computes a new array equal to the 101 samples of BezierInterpolate([(0.1,0.5), Normalize(x,y), (0.9,0.5)], i/100). |
| BezierFrame.UnrolledSamples | src/Bezier.java:78-85 | The loop that fills points[i] with the unrolled three-point construction at t = i * delta yields exactly the samples of the recursive evaluation of [P1,P2,P3]. |
| BezierFrame.LiveSample | src/Bezier.java:79-83 | Sample i of a three-point curve equals the unrolled construction at t = i * (1/100). |
| BezierFrame.StaticCurveOnCanvas | src/Bezier.java:26-36 | When the random values lie in [0,1), every sample of the static curve lies in the unit square, that is, on the canvas. |
| BezierFrame.LiveCurveOnCanvas | src/Bezier.java:74-85 | For a pointer position on the canvas, every sample of the live curve lies in the unit square. |

## Left out

- Floating point: coordinates and parameters are `real`. Rounding of `1.0f / POINTSN` and `i * delta` is not modelled, nor is NaN or infinity propagation.
- `java.util.Random`: the twenty y-coordinates are the constructor's parameter `ys`. Only `StaticCurveOnCanvas` assumes that they lie in [0,1), as `nextFloat` guarantees.
- `MouseInfo.getPointerInfo()` in `paintComponent` (lines 69-72) is a platform query. The pointer position is the parameter `(px, py)` of `PaintLiveCurve`. The query returns screen coordinates, not canvas-relative ones. That offset belongs to the windowing system and is not modelled.
- The drag listener (lines 40-46) stores a `mid` point that nothing reads; that dead field is not modelled. Its normalisation is the same as line 76 and is covered by `Normalize`.
- Drawing (lines 86-101): the `drawLine`/`drawOval` calls and their truncating `(int)` pixel casts are output, not logic.
- Window setup, `pack`, `setVisible`, `repaint`, `main` and `SwingUtilities.invokeLater` (lines 38-55, 152-160) are event-thread and windowing glue.
- `Point.toString` (lines 132-134) is cosmetic.
- CurveMath.BezierInterpolate: an empty control-point array is outside the model (it requires `|cps| > 0`). In the code, `BezierInterpolate` (line 138) then calls the helper with `end = -1`. The `begin >= end` branch (line 143) reads `controlPoints[0]` and throws `ArrayIndexOutOfBoundsException`. That exception path is not modelled. The program never reaches it, because both of its curves have at least three control points.
