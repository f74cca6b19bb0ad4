# Manual contour drawer — Dafny model

A model of the anchor-to-contour logic of the PhenoPixel manual contour tool
(`manual_countour.py`). An operator clicks anchor points on an 800×800 view
of an image. The tool turns the anchor list into a closed curve made of one
quadratic Bézier run per anchor and previews it. On Enter it fills the curve
into a mask, binarises the mask and saves it as `<stem>_label.png`.

The model is purely functional:

- `geometry.dfy` (`Geometry`): integer pixel points, exact real points, and
  truncation toward zero (Python's `int()`); bounding boxes; the int32 range
  of the NumPy contour array.
- `curves.dfy` (`Curves`): `interpolate_points`, the `np.linspace` parameter
  grid, and `bezier_interpolate`, including its two-point fallback and its
  error cases.
- `contour.dfy` (`Contour`): contour assembly over the cyclic windows
  (pᵢ, pᵢ₊₁ mod N, pᵢ₊₂ mod N). `BezierContour` is the functional definition.
  `GetBezierContour` and `RedrawImage` are the program's two copies of the
  loop, each proved to compute it.
- `labels.dfy` (`Labels`): Python's `str.split('.')` with its round trips,
  the label file name, and `THRESH_BINARY` binarisation at 127/255.
- `session.dfy` (`Session`): the mouse callback and the key dispatch of the
  main loop as a transition function over the anchor list. Its effects are a
  redraw request or a save request.

Sample coordinates are exact reals, truncated toward zero. The parameter of
Bézier sample k out of n is k/(n−1), and 0 when n = 1. That grid is evenly
spaced and gives exactly 0 and 1 at the two ends, as `np.linspace` does.

"Neither endpoint is sampled" by `interpolate_points` is a statement about
parameters: samples are taken at i/n for i = 1 .. n−1, never at 0 or 1. After
truncation an interior sample can still equal an endpoint pixel; between
(0, 0) and (1, 0) with n = 10, the first sample is (0, 0).

Behaviour followed from the code:

- Two anchors give an empty contour. Any list of fewer than three anchors
  does, because assembly requires more than two.
- The two-point fallback of `bezier_interpolate` is therefore never reached
  from contour assembly. `Contour.WindowRun` passes a three-point window.
- Consecutive runs overlap. Run i ends at anchor (i+2) mod N, and run i+1
  starts at anchor (i+1) mod N.
- The preview strokes consecutive samples only. No stroke joins the last
  sample back to the first.

## Model

| member | source | states |
|---|---|---|
| Geometry.Trunc | manual_countour.py:35 | `int()` of a real: the integer of the same sign whose magnitude is the whole part, within one of the value and never beyond it |
| Geometry.TruncBetween | manual_countour.py:35 | truncation toward zero keeps a value inside any interval with integer ends |
| Curves.InterpolatePoints | manual_countour.py:24-25 | `interpolate_points(p1, p2, n)` yields n−1 samples (none when n ≤ 1) |
| Curves.LinearSample | manual_countour.py:25 | the program's `p1 + i·(p2−p1)/n` per coordinate is the segment point at parameter i/n, truncated |
| Curves.InterpolateSamplesOnSegment | manual_countour.py:24-25 | sample k is the truncated segment point at (k+1)/n, which lies strictly between 0 and 1, so neither endpoint's parameter is sampled (the truncated pixel may still coincide with an endpoint) |
| Curves.InterpolateMayRepeatEndpoint | manual_countour.py:25 | a concrete case where an interior sample truncates onto an endpoint: (0, 0) to (1, 0) with n = 10 starts at (0, 0) |
| Curves.InterpolateWithinBox | manual_countour.py:24-25 | every linear sample lies in the bounding box of its two endpoints |
| Curves.InterpolateDegenerate | manual_countour.py:24-25 | between two equal points every sample is that point |
| Curves.Linspace | manual_countour.py:32 | grid values lie in [0, 1]; the first is 0 and the last is exactly 1 when there are at least two; value k times (n−1) is exactly k |
| Curves.LinspaceEvenlySpaced | manual_countour.py:32 | neighbouring grid values differ by the same step, the second value |
| Curves.LinspaceIncreasing | manual_countour.py:32 | the grid is strictly increasing |
| Curves.BezierCoord | manual_countour.py:33-34 | one coordinate of B(t): equal to the first control value at t = 0, to the third at t = 1, and constant when all three agree |
| Curves.BezierAt | manual_countour.py:33-34 | the curve point is the first control point at t = 0 and the third at t = 1 |
| Curves.BezierRun | manual_countour.py:31-36 | the three-point sampler yields exactly n samples; the first is control point 0 and the last is control point 2 |
| Curves.BezierInterpolate | manual_countour.py:27-36 | succeeds exactly when there are at least two points and, with three or more, the count is non-negative; fewer than two fails on indexing; two points give `interpolate_points`; three or more give n samples from points[0] to points[2] |
| Curves.BezierCoordBetween | manual_countour.py:33-34 | for t in [0, 1], B(t) per coordinate lies between common bounds of the three control coordinates (a convex combination) |
| Curves.BezierRunWithinBox | manual_countour.py:32-35 | every Bézier sample lies in the per-axis min/max box of its three control points |
| Contour.Window | manual_countour.py:62-64 | the window of anchor i has three points and starts at anchor i |
| Contour.WindowRun | manual_countour.py:65 | `bezier_interpolate([p0, p1, p2])` with its default count yields the 100-sample Bézier run over window i, from anchor i to anchor (i+2) mod N |
| Contour.Runs | manual_countour.py:61-65 | the first k runs together hold k·100 samples |
| Contour.BezierContour | manual_countour.py:58-66 | the contour is empty below three anchors and holds N·100 samples otherwise |
| Contour.RunsSlice | manual_countour.py:61-65 | run i occupies positions i·100 to i·100+99 of every longer prefix of runs |
| Contour.ContourRun | manual_countour.py:60-65 | run i of the contour is the Bézier run over (pᵢ, pᵢ₊₁ mod N, pᵢ₊₂ mod N); it starts at pᵢ and ends at pᵢ₊₂ mod N |
| Contour.ContourIndex | manual_countour.py:60-65 | sample j of the contour is sample j mod 100 of the run over window j div 100 |
| Contour.ContourSample | manual_countour.py:60-65 | closed form of every sample: sample j is the truncated B(t) of window j div 100 at grid position j mod 100 |
| Contour.ContourWithinWindowBox | manual_countour.py:60-65 | every contour sample lies in the bounding box of the three anchors of its run |
| Contour.ContourFitsInt32 | manual_countour.py:66 | if every anchor fits in int32, so does every sample, so the int32 array conversion loses nothing |
| Contour.GetBezierContour | manual_countour.py:58-66 | the program's loop over windows computes the contour |
| Contour.RedrawImage | manual_countour.py:38-56 | the preview's curve is the same sample list as the saved contour; one stroke joins each sample to the next (none when the curve is empty); every anchor is marked |
| Labels.Split | manual_countour.py:72 | `split('.')` yields at least one piece, and no piece contains the separator |
| Labels.JoinSplit | manual_countour.py:72 | joining the pieces of a split with the separator gives the string back |
| Labels.SplitJoin | manual_countour.py:72 | splitting a join of separator-free pieces gives the pieces back |
| Labels.FirstPiece | manual_countour.py:72 | piece 0 is a prefix of the string that ends at the string's end or at its first separator |
| Labels.LabelFilename | manual_countour.py:72 | the file name is a dot-free prefix of the path, ending at the path's first `.` or at its end, followed by `_label.png` |
| Labels.ThresholdPixel | manual_countour.py:74 | a pixel becomes 255 exactly when it is above 127, and 0 otherwise |
| Labels.ThresholdRow | manual_countour.py:74 | a thresholded row keeps its length and is binary, with 255 exactly where the input was above 127 |
| Labels.Threshold | manual_countour.py:74 | the thresholded raster has the input's shape, is binary, and is 255 exactly where the input was above 127 |
| Labels.ThresholdFixesExactlyBinary | manual_countour.py:74 | thresholding leaves a raster unchanged if and only if it is already binary |
| Labels.ThresholdIdempotent | manual_countour.py:74 | thresholding twice gives the same result as once |
| Session.KeyCode | manual_countour.py:86 | `waitKey(1) & 0xFF` lies in 0..255, keeps byte values, and differs from the raw code by a multiple of 256 |
| Session.DrawPoint | manual_countour.py:18-20 | a left-button press appends (x, y) after the unchanged list; any other event leaves the list as it is |
| Session.Undo | manual_countour.py:89-92 | `z` removes exactly the last anchor, and does nothing on an empty list |
| Session.UndoAfterClick | manual_countour.py:89-92 | a click followed by an undo restores the previous list |
| Session.SaveContour | manual_countour.py:68-72 | a save hands on the label file name and exactly the contour `get_bezier_contour` computes: empty below three anchors, N·100 samples otherwise |
| Session.SaveContourRun | manual_countour.py:69 | in the saved contour, run i starts at anchor i and ends at anchor (i+2) mod N |
| Session.Step | manual_countour.py:84-95 | one input: a closed session ignores it; a mouse event acts as `draw_point`; `z` acts as undo; ESC closes; the anchor list changes only together with a redraw; Enter, and only Enter, saves, leaving the list unchanged; unknown keys and "no key" change nothing |
| Session.Run | manual_countour.py:84-95 | a run of inputs never changes the image path, and leaves a closed session as it is |
| Session.RunClicks | manual_countour.py:18-20 | a run of clicks appends their positions in order |
| Session.RunUndos | manual_countour.py:89-92 | m undos remove the last m anchors |
| Session.ClicksThenUndosRestore | manual_countour.py:89-92 | any number of clicks followed by as many undos restores the session exactly |
| Session.SaveIsRepeatable | manual_countour.py:93-94 | two Enter presses in a row produce identical save requests and leave the session unchanged |
| Session.ClosedIgnoresInputs | manual_countour.py:87-88 | after ESC no sequence of inputs changes the session |

## Left out

- Image loading and writing (`cv2.imread`, `cv2.imwrite`) and the load-failure exit. These are I/O.
- The window, the mouse-callback registration, the key-polling loop and every drawing call (`namedWindow`, `setMouseCallback`, `waitKey`, `imshow`, `circle`, `line`, `destroyAllWindows`). These are UI calls into OpenCV. Their result on the anchor list is modelled by `Session.Step`. The preview is modelled as data (`Contour.Preview`), not pixels.
- Polygon filling (`cv2.drawContours`) and resizing (`cv2.resize`). These are library raster algorithms. The save path is modelled up to the contour and file name it passes on, plus the threshold rule. The original size is stored as `shape[:2]`, which is (height, width), but it is passed to `cv2.resize`, which expects (width, height). A non-square label is therefore saved with its dimensions swapped. This is not modelled, and no dimension round trip is claimed.
- IEEE floating-point rounding of the samples. Coordinates are exact reals before truncation. The bounding-box results hold for that model only.
- `points_to_draw`. It grows by one entry per run on each redraw with more than two anchors, and is never read.
- The module-level script lines that create the drawer for `0.png` and run it.
- `interpolate_points`' default count of 10. The only caller in the code passes its own count.
