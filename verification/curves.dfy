/** The two samplers of the curve builder: straight-line interpolation between
    two anchors (`interpolate_points`) and the quadratic Bezier sampler
    (`bezier_interpolate`). Coordinates are exact reals; each sample is turned
    into a pixel by truncation toward zero. */
module Curves {
  import opened Geometry

  /** Default sample count of the Bezier sampler, used for every contour run. */
  const BezierDefaultSamples: nat := 100

  datatype CurveError =
    | IndexOutOfRange      // fewer than two control points were given
    | NegativeSampleCount  // the evenly spaced parameter grid was asked for a negative count

  datatype Result<T> = Ok(value: T) | Err(error: CurveError)

  // ---------------------------------------------------------------------------
  // Straight-line interpolation
  // ---------------------------------------------------------------------------

  /** The point at parameter `t` of the segment from `a` to `b`. */
  function Lerp(a: RealPoint, b: RealPoint, t: real): RealPoint {
    RealPoint(LerpCoord(a.x, b.x, t), LerpCoord(a.y, b.y, t))
  }

  function LerpCoord(a: real, b: real, t: real): real {
    (1.0 - t) * a + t * b
  }

  /** Sample `i` of the linear sampler, in the arithmetic the program uses:
      start coordinate plus `i` times the difference, divided by the count.
      It is the truncated point of the segment at parameter i/n. */
  function LinearSample(p1: Point, p2: Point, n: int, i: int): (q: Point)
    requires n > 0
    ensures q == TruncPoint(Lerp(ToReal(p1), ToReal(p2), i as real / n as real))
  {
    LinearFormIsLerp(p1.x, p2.x, i, n);
    LinearFormIsLerp(p1.y, p2.y, i, n);
    Point(Trunc(p1.x as real + (i * (p2.x - p1.x)) as real / n as real),
          Trunc(p1.y as real + (i * (p2.y - p1.y)) as real / n as real))
  }

  /** The interior samples i = 1 .. n-1 of the segment from `p1` to `p2`;
      none when `n` is at most one. */
  function InterpolatePoints(p1: Point, p2: Point, n: int): (r: seq<Point>)
    ensures |r| == if n > 1 then n - 1 else 0
  {
    if n <= 1 then []
    else seq(n - 1, k requires 0 <= k < n - 1 => LinearSample(p1, p2, n, k + 1))
  }

  /** The program's form `a + i(b - a)/n` is the segment point at t = i/n. */
  lemma LinearFormIsLerp(a: int, b: int, i: int, n: int)
    requires n > 0
    ensures a as real + (i * (b - a)) as real / n as real
         == LerpCoord(a as real, b as real, i as real / n as real)
  {
    var t := i as real / n as real;
    assert (i * (b - a)) as real == i as real * (b as real - a as real);
    assert (i * (b - a)) as real / n as real == t * (b as real - a as real);
  }

  /** A point of the segment lies between its end coordinates. */
  lemma LerpCoordBetween(a: real, b: real, t: real)
    requires 0.0 <= t <= 1.0
    ensures a <= b ==> a <= LerpCoord(a, b, t) <= b
    ensures b <= a ==> b <= LerpCoord(a, b, t) <= a
  {
    assert LerpCoord(a, b, t) == a + t * (b - a);
    if a <= b {
      var lo, hi := MulLe(b - a, 0.0, t);
      var lo', hi' := MulLe(b - a, t, 1.0);
    } else {
      var lo, hi := MulLe(a - b, 0.0, t);
      var lo', hi' := MulLe(a - b, t, 1.0);
    }
  }

  /** Sample k of `interpolate_points` is the truncated segment point at the
      strictly interior parameter (k+1)/n: neither endpoint's parameter is used. */
  lemma InterpolateSamplesOnSegment(p1: Point, p2: Point, n: int)
    ensures forall k :: 0 <= k < |InterpolatePoints(p1, p2, n)| ==>
      var t := (k + 1) as real / n as real;
      && 0.0 < t < 1.0
      && InterpolatePoints(p1, p2, n)[k] == TruncPoint(Lerp(ToReal(p1), ToReal(p2), t))
  {
    var r := InterpolatePoints(p1, p2, n);
    forall k | 0 <= k < |r|
      ensures 0.0 < (k + 1) as real / n as real < 1.0
      ensures r[k] == TruncPoint(Lerp(ToReal(p1), ToReal(p2), (k + 1) as real / n as real))
    {
      assert r[k] == LinearSample(p1, p2, n, k + 1);
    }
  }

  /** The truncated segment point at a parameter in [0, 1] lies in the
      bounding box of the two endpoints. */
  lemma LerpSampleWithinBox(p1: Point, p2: Point, t: real)
    requires 0.0 <= t <= 1.0
    ensures InBox2(TruncPoint(Lerp(ToReal(p1), ToReal(p2), t)), p1, p2)
  {
    LerpCoordTrunc(p1.x, p2.x, t);
    LerpCoordTrunc(p1.y, p2.y, t);
  }

  lemma LerpCoordTrunc(a: int, b: int, t: real)
    requires 0.0 <= t <= 1.0
    ensures Min(a, b) <= Trunc(LerpCoord(a as real, b as real, t)) <= Max(a, b)
  {
    LerpCoordBetween(a as real, b as real, t);
    TruncBetween(LerpCoord(a as real, b as real, t), Min(a, b), Max(a, b));
  }

  /** Every linear sample lies in the bounding box of the two endpoints. */
  lemma InterpolateWithinBox(p1: Point, p2: Point, n: int)
    ensures forall k :: 0 <= k < |InterpolatePoints(p1, p2, n)| ==>
      InBox2(InterpolatePoints(p1, p2, n)[k], p1, p2)
  {
    var r := InterpolatePoints(p1, p2, n);
    InterpolateSamplesOnSegment(p1, p2, n);
    forall k | 0 <= k < |r|
      ensures InBox2(r[k], p1, p2)
    {
      LerpSampleWithinBox(p1, p2, (k + 1) as real / n as real);
    }
  }

  /** Interior parameters do not keep samples off the endpoint pixels: from
      (0, 0) to (1, 0) in ten steps, the first sample truncates to (0, 0). */
  lemma InterpolateMayRepeatEndpoint()
    ensures InterpolatePoints(Point(0, 0), Point(1, 0), 10)[0] == Point(0, 0)
  {
    assert InterpolatePoints(Point(0, 0), Point(1, 0), 10)[0] == LinearSample(Point(0, 0), Point(1, 0), 10, 1);
  }

  /** Between two equal points every sample is that point. */
  lemma InterpolateDegenerate(p: Point, n: int)
    ensures forall k :: 0 <= k < |InterpolatePoints(p, p, n)| ==> InterpolatePoints(p, p, n)[k] == p
  {
    InterpolateWithinBox(p, p, n);
  }

  // ---------------------------------------------------------------------------
  // Quadratic Bezier sampling
  // ---------------------------------------------------------------------------

  /** Parameter k of `n` evenly spaced values from 0 to 1, both ends included
      (a single value is 0). */
  function Linspace(n: nat, k: nat): (t: real)
    requires k < n
    ensures 0.0 <= t <= 1.0
    ensures k == 0 ==> t == 0.0
    ensures n >= 2 && k == n - 1 ==> t == 1.0
    ensures n >= 2 ==> t * (n - 1) as real == k as real
  {
    if n == 1 then 0.0
    else
      var d := (n - 1) as real;
      assert k == n - 1 ==> k as real / d == 1.0;
      k as real / d
  }

  /** The grid is strictly increasing. */
  lemma LinspaceIncreasing(n: nat, j: nat, k: nat)
    requires j < k < n
    ensures Linspace(n, j) < Linspace(n, k)
  {
    var d := (n - 1) as real;
    assert j as real / d < k as real / d by {
      assert j as real < k as real;
    }
  }

  /** Neighbouring grid values are one step 1/(n-1) apart: the grid is
      evenly spaced. */
  lemma LinspaceEvenlySpaced(n: nat, k: nat)
    requires k + 1 < n
    ensures Linspace(n, k + 1) - Linspace(n, k) == Linspace(n, 1)
  {
    var d := (n - 1) as real;
    assert (k + 1) as real / d - k as real / d == ((k + 1) as real - k as real) / d;
  }

  /** One coordinate of B(t) = (1-t)^2 a + 2(1-t)t b + t^2 c. The curve
      starts at the first control value, ends at the third, and is constant
      when all three agree. */
  function BezierCoord(a: real, b: real, c: real, t: real): (v: real)
    ensures t == 0.0 ==> v == a
    ensures t == 1.0 ==> v == c
    ensures a == b == c ==> v == a
  {
    var s := 1.0 - t;
    BezierWeightsSum(s, t);
    assert s * s * a + 2.0 * s * t * a + t * t * a == (s * s + 2.0 * s * t + t * t) * a;
    s * s * a + 2.0 * s * t * b + t * t * c
  }

  /** The curve point at parameter t: the first control point at t = 0 and
      the third at t = 1. */
  function BezierAt(p0: Point, p1: Point, p2: Point, t: real): (q: RealPoint)
    ensures t == 0.0 ==> q == ToReal(p0)
    ensures t == 1.0 ==> q == ToReal(p2)
  {
    RealPoint(BezierCoord(p0.x as real, p1.x as real, p2.x as real, t),
              BezierCoord(p0.y as real, p1.y as real, p2.y as real, t))
  }

  /** The three-point branch of the sampler: B evaluated on the grid and
      truncated. The first sample is the first control point and the last
      sample is the third. */
  function BezierRun(p0: Point, p1: Point, p2: Point, n: nat): (r: seq<Point>)
    ensures |r| == n
    ensures n >= 1 ==> r[0] == p0
    ensures n >= 2 ==> r[n - 1] == p2
  {
    var r := seq(n, k requires 0 <= k < n => TruncPoint(BezierAt(p0, p1, p2, Linspace(n, k))));
    if n >= 1 then
      TruncPointOfInt(p0);
      TruncPointOfInt(p2);
      r
    else r
  }

  /** `bezier_interpolate`: three or more points give a Bezier run over the
      first three; exactly two fall back to the linear sampler; fewer fail on
      indexing; a negative count fails in the parameter grid. */
  function BezierInterpolate(points: seq<Point>, n: int): (r: Result<seq<Point>>)
    ensures r.Ok? <==> |points| >= 2 && (|points| == 2 || n >= 0)
    ensures |points| < 2 ==> r == Err(IndexOutOfRange)
    ensures |points| >= 3 && n < 0 ==> r == Err(NegativeSampleCount)
    ensures |points| == 2 ==> r == Ok(InterpolatePoints(points[0], points[1], n))
    ensures |points| >= 3 && n >= 0 ==>
      && |r.value| == n
      && (n >= 1 ==> r.value[0] == points[0])
      && (n >= 2 ==> r.value[n - 1] == points[2])
  {
    if |points| < 3 then
      if |points| < 2 then Err(IndexOutOfRange)
      else Ok(InterpolatePoints(points[0], points[1], n))
    else if n < 0 then Err(NegativeSampleCount)
    else Ok(BezierRun(points[0], points[1], points[2], n))
  }

  lemma MulNonneg(a: real, b: real)
    requires 0.0 <= a && 0.0 <= b
    ensures 0.0 <= a * b
  {
  }

  /** Multiplying by a non-negative weight keeps an order; the two products
      are handed back so that callers can add them up as plain terms. */
  lemma MulLe(w: real, x: real, y: real) returns (wx: real, wy: real)
    requires 0.0 <= w && x <= y
    ensures wx == w * x && wy == w * y && wx <= wy
  {
    MulNonneg(w, y - x);
    assert w * (y - x) == w * y - w * x;
    wx, wy := w * x, w * y;
  }

  /** A combination with non-negative weights summing to one is at least a
      common lower bound of the combined values. */
  lemma ConvexCombinationAbove(w0: real, w1: real, w2: real, a: real, b: real, c: real, lo: real)
    requires 0.0 <= w0 && 0.0 <= w1 && 0.0 <= w2 && w0 + w1 + w2 == 1.0
    requires lo <= a && lo <= b && lo <= c
    ensures lo <= w0 * a + w1 * b + w2 * c
  {
    var l0, x0 := MulLe(w0, lo, a);
    var l1, x1 := MulLe(w1, lo, b);
    var l2, x2 := MulLe(w2, lo, c);
    assert l0 + l1 + l2 <= x0 + x1 + x2;
    assert l0 + l1 + l2 == (w0 + w1 + w2) * lo;
  }

  /** ... and at most a common upper bound. */
  lemma ConvexCombinationBelow(w0: real, w1: real, w2: real, a: real, b: real, c: real, hi: real)
    requires 0.0 <= w0 && 0.0 <= w1 && 0.0 <= w2 && w0 + w1 + w2 == 1.0
    requires a <= hi && b <= hi && c <= hi
    ensures w0 * a + w1 * b + w2 * c <= hi
  {
    var x0, h0 := MulLe(w0, a, hi);
    var x1, h1 := MulLe(w1, b, hi);
    var x2, h2 := MulLe(w2, c, hi);
    assert x0 + x1 + x2 <= h0 + h1 + h2;
    assert h0 + h1 + h2 == (w0 + w1 + w2) * hi;
  }

  /** The Bezier weights (1-t)^2, 2(1-t)t and t^2 sum to one. */
  lemma BezierWeightsSum(s: real, t: real)
    requires s + t == 1.0
    ensures s * s + 2.0 * s * t + t * t == 1.0
  {
    assert s * s + 2.0 * s * t + t * t == (s + t) * (s + t);
  }

  /** For t in [0, 1] the Bezier weights are non-negative and sum to one, so
      a coordinate lies between the least and greatest control coordinate. */
  lemma BezierCoordBetween(a: real, b: real, c: real, t: real, lo: real, hi: real)
    requires 0.0 <= t <= 1.0
    requires lo <= a <= hi && lo <= b <= hi && lo <= c <= hi
    ensures lo <= BezierCoord(a, b, c, t) <= hi
  {
    var s := 1.0 - t;
    MulNonneg(s, s);
    MulNonneg(2.0 * s, t);
    MulNonneg(t, t);
    BezierWeightsSum(s, t);
    ConvexCombinationAbove(s * s, 2.0 * s * t, t * t, a, b, c, lo);
    ConvexCombinationBelow(s * s, 2.0 * s * t, t * t, a, b, c, hi);
  }

  /** Every Bezier sample lies in the bounding box of its three control points. */
  lemma BezierRunWithinBox(p0: Point, p1: Point, p2: Point, n: nat)
    ensures forall k :: 0 <= k < n ==> InBox3(BezierRun(p0, p1, p2, n)[k], p0, p1, p2)
  {
    var r := BezierRun(p0, p1, p2, n);
    forall k | 0 <= k < n
      ensures InBox3(r[k], p0, p1, p2)
    {
      var t := Linspace(n, k);
      var q := BezierAt(p0, p1, p2, t);
      var xl, xh := Min3(p0.x, p1.x, p2.x), Max3(p0.x, p1.x, p2.x);
      var yl, yh := Min3(p0.y, p1.y, p2.y), Max3(p0.y, p1.y, p2.y);
      BezierCoordBetween(p0.x as real, p1.x as real, p2.x as real, t, xl as real, xh as real);
      BezierCoordBetween(p0.y as real, p1.y as real, p2.y as real, t, yl as real, yh as real);
      TruncBetween(q.x, xl, xh);
      TruncBetween(q.y, yl, yh);
    }
  }
}
