/** Closed-contour assembly from the anchor list: one Bezier run per anchor,
    over the cyclic window (p[i], p[i+1 mod N], p[i+2 mod N]), runs
    concatenated in anchor order. The same samples feed the saved label
    (`get_bezier_contour`) and the on-screen preview (`redraw_image`). */
module Contour {
  import opened Geometry
  import opened Curves

  /** Fewer anchors than this give no contour at all. */
  const MinAnchors: nat := 3

  /** The control points of run `i`: anchor i and the next two, wrapping. */
  function Window(points: seq<Point>, i: nat): (w: seq<Point>)
    requires i < |points|
    ensures |w| == 3 && w[0] == points[i]
  {
    var n := |points|;
    [points[i], points[(i + 1) % n], points[(i + 2) % n]]
  }

  /** Run `i`: the sampler called on window `i` with its default count. A
      window always has three points, so the two-point fallback and the
      error cases of the sampler are never taken here. */
  function WindowRun(points: seq<Point>, i: nat): (r: seq<Point>)
    requires i < |points|
    ensures |r| == BezierDefaultSamples
    ensures var n := |points|;
      r == BezierRun(points[i], points[(i + 1) % n], points[(i + 2) % n], BezierDefaultSamples)
    ensures r[0] == points[i] && r[|r| - 1] == points[(i + 2) % |points|]
  {
    BezierInterpolate(Window(points, i), BezierDefaultSamples).value
  }

  /** The first `k` runs, concatenated. */
  function Runs(points: seq<Point>, k: nat): (r: seq<Point>)
    requires k <= |points|
    ensures |r| == k * BezierDefaultSamples
  {
    if k == 0 then [] else Runs(points, k - 1) + WindowRun(points, k - 1)
  }

  /** The contour of an anchor list: empty below three anchors, otherwise one
      run per anchor. */
  function BezierContour(points: seq<Point>): (r: seq<Point>)
    ensures |points| < MinAnchors ==> r == []
    ensures |points| >= MinAnchors ==> |r| == |points| * BezierDefaultSamples
  {
    if |points| >= MinAnchors then Runs(points, |points|) else []
  }

  /** Run `i` sits at positions i*100 .. i*100+99 of every longer prefix of runs. */
  lemma {:induction false} RunsSlice(points: seq<Point>, k: nat, i: nat)
    requires i < k <= |points|
    ensures Runs(points, k)[i * BezierDefaultSamples .. (i + 1) * BezierDefaultSamples]
         == WindowRun(points, i)
  {
    var m := BezierDefaultSamples;
    var prev := Runs(points, k - 1);
    assert Runs(points, k) == prev + WindowRun(points, k - 1);
    if i == k - 1 {
      assert |prev| == i * m;
    } else {
      RunsSlice(points, k - 1, i);
      assert (i + 1) * m <= (k - 1) * m;
      assert Runs(points, k)[i * m .. (i + 1) * m] == prev[i * m .. (i + 1) * m];
    }
  }

  /** Run `i` of the contour is the Bezier run over window `i`: it starts at
      anchor i and ends at anchor (i+2) mod N. */
  lemma ContourRun(points: seq<Point>, i: nat)
    requires MinAnchors <= |points| && i < |points|
    ensures var n, m := |points|, BezierDefaultSamples;
      && BezierContour(points)[i * m .. (i + 1) * m]
         == BezierRun(points[i], points[(i + 1) % n], points[(i + 2) % n], m)
      && BezierContour(points)[i * m] == points[i]
      && BezierContour(points)[i * m + m - 1] == points[(i + 2) % n]
  {
    var m := BezierDefaultSamples;
    RunsSlice(points, |points|, i);
    var run := BezierContour(points)[i * m .. (i + 1) * m];
    assert BezierContour(points)[i * m] == run[0];
    assert BezierContour(points)[i * m + m - 1] == run[m - 1];
  }

  /** Sample j of the contour is sample j mod 100 of run j / 100. */
  lemma ContourIndex(points: seq<Point>, j: nat)
    requires MinAnchors <= |points| && j < |BezierContour(points)|
    ensures var n, m := |points|, BezierDefaultSamples;
      var i := j / m;
      && i < n
      && BezierContour(points)[j]
         == BezierRun(points[i], points[(i + 1) % n], points[(i + 2) % n], m)[j % m]
  {
    var n, m := |points|, BezierDefaultSamples;
    var i, k := j / m, j % m;
    assert j == i * m + k && 0 <= k < m;
    assert i < n;
    var c := BezierContour(points);
    var slice := c[i * m .. (i + 1) * m];
    ContourRun(points, i);
    assert slice == BezierRun(points[i], points[(i + 1) % n], points[(i + 2) % n], m);
    assert c[j] == slice[k];
  }

  /** Every contour sample in closed form: sample j is the truncated Bezier
      point of window j / 100 at grid position j mod 100. */
  lemma ContourSample(points: seq<Point>, j: nat)
    requires MinAnchors <= |points| && j < |BezierContour(points)|
    ensures var n, m := |points|, BezierDefaultSamples;
      var i, k := j / m, j % m;
      && i < n
      && BezierContour(points)[j]
         == TruncPoint(BezierAt(points[i], points[(i + 1) % n], points[(i + 2) % n], Linspace(m, k)))
  {
    ContourIndex(points, j);
  }

  /** Every contour sample lies in the bounding box of the three anchors of
      its run. */
  lemma ContourWithinWindowBox(points: seq<Point>, j: nat)
    requires MinAnchors <= |points| && j < |BezierContour(points)|
    ensures var n, i := |points|, j / BezierDefaultSamples;
      && i < n
      && InBox3(BezierContour(points)[j], points[i], points[(i + 1) % n], points[(i + 2) % n])
  {
    var n, m := |points|, BezierDefaultSamples;
    var i := j / m;
    ContourIndex(points, j);
    BezierRunWithinBox(points[i], points[(i + 1) % n], points[(i + 2) % n], m);
  }

  /** The contour is stored as an int32 array: when every anchor fits in
      int32, so does every sample, and the conversion loses nothing. */
  lemma ContourFitsInt32(points: seq<Point>)
    requires forall i :: 0 <= i < |points| ==> FitsInt32(points[i])
    ensures forall j :: 0 <= j < |BezierContour(points)| ==> FitsInt32(BezierContour(points)[j])
  {
    forall j | 0 <= j < |BezierContour(points)|
      ensures FitsInt32(BezierContour(points)[j])
    {
      ContourWithinWindowBox(points, j);
    }
  }

  /** `get_bezier_contour`: the program's loop, extending the sample list run
      by run. */
  method GetBezierContour(points: seq<Point>) returns (contour: seq<Point>)
    ensures contour == BezierContour(points)
  {
    contour := [];
    if |points| > 2 {
      var i := 0;
      while i < |points|
        invariant 0 <= i <= |points|
        invariant contour == Runs(points, i)
      {
        var run := BezierInterpolate(Window(points, i), BezierDefaultSamples);
        contour := contour + run.value;
        i := i + 1;
      }
    }
  }

  /** A line drawn on the preview from one sample to the next. */
  datatype Stroke = Stroke(from: Point, to: Point)

  /** What `redraw_image` draws over a fresh copy of the displayed image: the
      curve as strokes between consecutive samples, and a marker per anchor. */
  datatype Preview = Preview(curve: seq<Point>, strokes: seq<Stroke>, markers: seq<Point>)

  /** `redraw_image`: rebuilds the samples with its own copy of the contour
      loop, strokes consecutive samples (no stroke closes the loop from the
      last sample back to the first), and marks every anchor. */
  method RedrawImage(points: seq<Point>) returns (frame: Preview)
    ensures frame.curve == BezierContour(points)
    ensures |frame.strokes| == if |frame.curve| == 0 then 0 else |frame.curve| - 1
    ensures forall i :: 0 <= i < |frame.strokes| ==>
      frame.strokes[i] == Stroke(frame.curve[i], frame.curve[i + 1])
    ensures frame.markers == points
  {
    var allPoints: seq<Point> := [];
    var strokes: seq<Stroke> := [];
    if |points| > 2 {
      var i := 0;
      while i < |points|
        invariant 0 <= i <= |points|
        invariant allPoints == Runs(points, i)
      {
        var run := BezierInterpolate(Window(points, i), BezierDefaultSamples);
        allPoints := allPoints + run.value;
        i := i + 1;
      }
      var j := 0;
      while j < |allPoints| - 1
        invariant 0 <= j <= |allPoints| - 1
        invariant |strokes| == j
        invariant forall s :: 0 <= s < j ==> strokes[s] == Stroke(allPoints[s], allPoints[s + 1])
      {
        strokes := strokes + [Stroke(allPoints[j], allPoints[j + 1])];
        j := j + 1;
      }
    }
    frame := Preview(allPoints, strokes, points);
  }
}
