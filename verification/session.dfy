/** The editing session of the contour drawer: mouse clicks and key presses
    as transitions over the anchor list. Window handling and drawing are not
    modelled; a transition reports only which effect it asks for (a redraw of
    the preview, or a save of the label). */
module Session {
  import opened Geometry
  import opened Contour
  import opened Labels

  /** OpenCV's code for a left-button press. */
  const EventLButtonDown: int := 1

  /** Key codes, after masking to the low byte. */
  const KeyEsc: int := 27
  const KeyUndo: int := 122   // 'z'
  const KeyEnter: int := 13

  /** One event delivered to the session: a mouse callback with its event
      code and position, or the raw value read from the key poll. */
  datatype Input = Mouse(event: int, x: int, y: int) | Key(raw: int)

  datatype Drawer = Drawer(imagePath: string, points: seq<Point>, closed: bool)

  /** What a commit hands to the raster stage: the target file name and the
      contour to fill. */
  datatype SaveRequest = SaveRequest(filename: string, contour: seq<Point>)

  datatype Effect = Idle | Redraw | Save(request: SaveRequest)

  datatype Outcome = Outcome(drawer: Drawer, effect: Effect)

  /** The polled key value masked with 0xFF; "no key" (-1) becomes 255. */
  function KeyCode(raw: int): (k: int)
    ensures 0 <= k < 256
    ensures 0 <= raw < 256 ==> k == raw
    ensures (raw - k) % 256 == 0
  {
    raw % 256
  }

  /** `draw_point`: a left-button press appends its position; any other
      mouse event leaves the list as it was. */
  function DrawPoint(points: seq<Point>, event: int, x: int, y: int): (r: seq<Point>)
    ensures |r| == if event == EventLButtonDown then |points| + 1 else |points|
    ensures r[..|points|] == points
    ensures event == EventLButtonDown ==> r[|points|] == Point(x, y)
  {
    if event == EventLButtonDown then points + [Point(x, y)] else points
  }

  /** The undo key: drop the last anchor if there is one. */
  function Undo(points: seq<Point>): (r: seq<Point>)
    ensures |points| == 0 ==> r == points
    ensures |points| > 0 ==> r + [points[|points| - 1]] == points
  {
    if |points| > 0 then points[..|points| - 1] else points
  }

  /** Undo is the inverse of a click. */
  lemma UndoAfterClick(points: seq<Point>, x: int, y: int)
    ensures Undo(DrawPoint(points, EventLButtonDown, x, y)) == points
  {
    var r := DrawPoint(points, EventLButtonDown, x, y);
    assert r[..|r| - 1] == points;
  }

  /** `save_contour`, up to the raster stage: the label name and the contour. */
  function SaveContour(d: Drawer): (req: SaveRequest)
    ensures req.filename == LabelFilename(d.imagePath)
    ensures req.contour == BezierContour(d.points)
    ensures |d.points| < MinAnchors ==> req.contour == []
    ensures |d.points| >= MinAnchors ==> |req.contour| == |d.points| * Curves.BezierDefaultSamples
  {
    SaveRequest(LabelFilename(d.imagePath), BezierContour(d.points))
  }

  /** The saved contour holds run i of every anchor i: it starts at anchor i
      and ends at anchor (i+2) mod N. */
  lemma SaveContourRun(d: Drawer, i: nat)
    requires MinAnchors <= |d.points| && i < |d.points|
    ensures var n, m, c := |d.points|, Curves.BezierDefaultSamples, SaveContour(d).contour;
      && c[i * m] == d.points[i]
      && c[i * m + m - 1] == d.points[(i + 2) % n]
  {
    ContourRun(d.points, i);
  }

  /** One input to the session. After ESC the session is closed and ignores
      everything. A click or an undo that removes a point asks for a redraw;
      Enter asks for a save and leaves the anchors alone. */
  function Step(d: Drawer, input: Input): (o: Outcome)
    ensures o.drawer.imagePath == d.imagePath
    ensures d.closed ==> o == Outcome(d, Idle)
    ensures o.drawer.closed <==> d.closed || (input.Key? && KeyCode(input.raw) == KeyEsc)
    ensures o.drawer.points != d.points ==> o.effect == Redraw
    ensures !d.closed && input.Mouse? ==>
      o.drawer.points == DrawPoint(d.points, input.event, input.x, input.y)
    ensures !d.closed && input.Key? && KeyCode(input.raw) == KeyUndo ==>
      o.drawer.points == Undo(d.points)
    ensures o.effect.Save? <==> !d.closed && input.Key? && KeyCode(input.raw) == KeyEnter
    ensures o.effect.Save? ==> o.drawer == d && o.effect.request == SaveContour(d)
    ensures input.Key? && KeyCode(input.raw) !in {KeyEsc, KeyUndo, KeyEnter} ==> o == Outcome(d, Idle)
  {
    if d.closed then Outcome(d, Idle)
    else match input
      case Mouse(event, x, y) =>
        if event == EventLButtonDown
        then Outcome(d.(points := DrawPoint(d.points, event, x, y)), Redraw)
        else Outcome(d, Idle)
      case Key(raw) =>
        var k := KeyCode(raw);
        if k == KeyEsc then Outcome(d.(closed := true), Idle)
        else if k == KeyUndo then
          if |d.points| > 0 then Outcome(d.(points := Undo(d.points)), Redraw)
          else Outcome(d, Idle)
        else if k == KeyEnter then Outcome(d, Save(SaveContour(d)))
        else Outcome(d, Idle)
  }

  /** The session after a sequence of inputs. */
  function Run(d: Drawer, inputs: seq<Input>): (r: Drawer)
    ensures r.imagePath == d.imagePath
    ensures d.closed ==> r == d
    decreases |inputs|
  {
    if |inputs| == 0 then d else Run(Step(d, inputs[0]).drawer, inputs[1..])
  }

  lemma {:induction false} RunConcat(d: Drawer, a: seq<Input>, b: seq<Input>)
    ensures Run(d, a + b) == Run(Run(d, a), b)
    decreases |a|
  {
    if |a| > 0 {
      assert (a + b)[0] == a[0];
      assert (a + b)[1..] == a[1..] + b;
      var d' := Step(d, a[0]).drawer;
      assert Run(d, a + b) == Run(d', a[1..] + b);
      assert Run(d, a) == Run(d', a[1..]);
      RunConcat(d', a[1..], b);
    } else {
      assert a + b == b;
    }
  }

  /** Left-button presses at the given positions. */
  function Clicks(ps: seq<Point>): (r: seq<Input>)
    ensures |r| == |ps|
  {
    seq(|ps|, i requires 0 <= i < |ps| => Mouse(EventLButtonDown, ps[i].x, ps[i].y))
  }

  /** `m` presses of the undo key. */
  function Undos(m: nat): (r: seq<Input>)
    ensures |r| == m
  {
    seq(m, i => Key(KeyUndo))
  }

  /** Clicks append their positions in order. */
  lemma {:induction false} RunClicks(d: Drawer, ps: seq<Point>)
    requires !d.closed
    ensures Run(d, Clicks(ps)) == d.(points := d.points + ps)
    decreases |ps|
  {
    if |ps| > 0 {
      var d' := Step(d, Clicks(ps)[0]).drawer;
      assert d' == d.(points := d.points + [ps[0]]);
      assert Clicks(ps)[1..] == Clicks(ps[1..]);
      RunClicks(d', ps[1..]);
      assert d'.points + ps[1..] == d.points + ps;
    }
  }

  /** Each undo drops one anchor from the end, as long as there is one. */
  lemma {:induction false} RunUndos(d: Drawer, m: nat)
    requires !d.closed && m <= |d.points|
    ensures Run(d, Undos(m)) == d.(points := d.points[..|d.points| - m])
    decreases m
  {
    if m > 0 {
      var d' := Step(d, Key(KeyUndo)).drawer;
      assert d' == d.(points := d.points[..|d.points| - 1]);
      assert Undos(m)[1..] == Undos(m - 1);
      RunUndos(d', m - 1);
      assert d'.points[..|d'.points| - (m - 1)] == d.points[..|d.points| - m];
    }
  }

  /** Any number of clicks followed by as many undos restores the session. */
  lemma ClicksThenUndosRestore(d: Drawer, ps: seq<Point>)
    requires !d.closed
    ensures Run(d, Clicks(ps) + Undos(|ps|)) == d
  {
    RunConcat(d, Clicks(ps), Undos(|ps|));
    RunClicks(d, ps);
    var d' := d.(points := d.points + ps);
    RunUndos(d', |ps|);
    assert (d.points + ps)[..|d.points|] == d.points;
  }

  /** Saving twice in a row hands the same request to the raster stage. */
  lemma SaveIsRepeatable(d: Drawer)
    requires !d.closed
    ensures var first := Step(d, Key(KeyEnter));
      var second := Step(first.drawer, Key(KeyEnter));
      first.effect.Save? && second.effect == first.effect && second.drawer == d
  {
  }

  /** Once closed, no input sequence changes the session. */
  lemma {:induction false} ClosedIgnoresInputs(d: Drawer, inputs: seq<Input>)
    requires !d.closed
    ensures Run(d, [Key(KeyEsc)] + inputs) == d.(closed := true)
  {
    var c := d.(closed := true);
    assert ([Key(KeyEsc)] + inputs)[0] == Key(KeyEsc);
    assert ([Key(KeyEsc)] + inputs)[1..] == inputs;
    assert Step(d, Key(KeyEsc)).drawer == c;
  }
}
