/**
  The mouse callback: a press records an anchor, a release turns the
  distance from the anchor into camera rotation (left button) or zoom
  (right button), using C++ integer division.
 */
module MouseDrag {
  import opened CppInt

  /** GLUT button and state codes the callback tests. */
  const LeftButton: int := 0
  const RightButton: int := 2
  const Down: int := 0

  /** Pixels of drag per degree of rotation, and per unit of zoom. */
  const RotationStep: int := 5
  const ZoomStep: int := 15

  /** The callback's globals: the anchor (`firstX`, `firstY`), the two camera
      angles and the zoom. The angles start at integers and only ever receive
      integer increments, so they are integers here; the zoom starts at the
      mesh's bounding-box diagonal, a real. */
  datatype Camera = Camera(firstX: int, firstY: int, xRot: int, yRot: int, zoom: real)

  /** The state before any mouse event, given the zoom computed at startup. */
  function Initial(zoom: real): Camera {
    Camera(0, 0, 283, 3, zoom)
  }

  /** One call of the mouse callback with `button`, `state` and the pointer
      position `(x, y)`. Any state other than `Down` is handled as a release. */
  function Mouse(c: Camera, button: int, state: int, x: int, y: int): (r: Camera)
    // A press moves the anchor and nothing else.
    ensures state == Down ==> r == c.(firstX := x, firstY := y)
    // A release never moves the anchor.
    ensures state != Down ==> r.firstX == c.firstX && r.firstY == c.firstY
    // Left release: each angle gains the truncated fifth of its drag distance.
    ensures state != Down && button == LeftButton ==>
      && IsTruncQuotient(x - c.firstX, RotationStep, r.xRot - c.xRot)
      && IsTruncQuotient(y - c.firstY, RotationStep, r.yRot - c.yRot)
      && r.zoom == c.zoom
    // Right release: the zoom gains a whole number, the truncated fifteenth
    // of the vertical drag distance; the angles stay.
    ensures state != Down && button == RightButton ==>
      && r.xRot == c.xRot && r.yRot == c.yRot
      && (r.zoom - c.zoom).Floor as real == r.zoom - c.zoom
      && IsTruncQuotient(y - c.firstY, ZoomStep, (r.zoom - c.zoom).Floor)
    // Any other button's release changes nothing.
    ensures state != Down && button != LeftButton && button != RightButton ==> r == c
  {
    if state == Down then
      c.(firstX := x, firstY := y)
    else
      var deltaX := x - c.firstX;
      var deltaY := y - c.firstY;
      var c1 := if button == LeftButton
        then c.(xRot := c.xRot + Div(deltaX, RotationStep), yRot := c.yRot + Div(deltaY, RotationStep))
        else c;
      if button == RightButton then
        var q := Div(deltaY, ZoomStep);
        var r := c1.(zoom := c1.zoom + q as real);
        assert r.zoom - c.zoom == q as real;
        assert (q as real).Floor == q;
        r
      else c1
  }

  /** A complete left drag: whatever button was pressed, the release measures
      from the press position. */
  lemma LeftDrag(c: Camera, pressButton: int, px: int, py: int, state: int, x: int, y: int)
    requires state != Down
    ensures Mouse(Mouse(c, pressButton, Down, px, py), LeftButton, state, x, y)
      == c.(firstX := px, firstY := py,
            xRot := c.xRot + Div(x - px, RotationStep),
            yRot := c.yRot + Div(y - py, RotationStep))
  {
  }

  /** The first left drag after startup turns the camera from its initial
      angles, 283 and 3 degrees, by the truncated fifths of the drag. */
  lemma FirstLeftDrag(zoom: real, pressButton: int, px: int, py: int, state: int, x: int, y: int)
    requires state != Down
    ensures Mouse(Mouse(Initial(zoom), pressButton, Down, px, py), LeftButton, state, x, y)
      == Camera(px, py, 283 + Div(x - px, RotationStep), 3 + Div(y - py, RotationStep), zoom)
  {
    LeftDrag(Initial(zoom), pressButton, px, py, state, x, y);
  }

  /** A complete right drag changes only the zoom, by the truncated fifteenth
      of the vertical distance. */
  lemma RightDrag(c: Camera, pressButton: int, px: int, py: int, state: int, x: int, y: int)
    requires state != Down
    ensures Mouse(Mouse(c, pressButton, Down, px, py), RightButton, state, x, y)
      == c.(firstX := px, firstY := py, zoom := c.zoom + Div(y - py, ZoomStep) as real)
  {
  }

  /** Dragging back by the opposite distance restores both angles exactly,
      wherever the second drag starts. This relies on truncation toward zero:
      with Euclidean division a drag of 7 then of -7 would give +1 then -2. */
  lemma LeftDragUndone(c: Camera, state: int,
                       px: int, py: int, x: int, y: int,
                       qx: int, qy: int, x': int, y': int)
    requires state != Down
    requires x' - qx == -(x - px) && y' - qy == -(y - py)
    ensures
      var c1 := Mouse(Mouse(c, LeftButton, Down, px, py), LeftButton, state, x, y);
      var c2 := Mouse(Mouse(c1, LeftButton, Down, qx, qy), LeftButton, state, x', y');
      c2.xRot == c.xRot && c2.yRot == c.yRot && c2.zoom == c.zoom
  {
  }

  /** A release does not reset the anchor: a second release with no press in
      between measures from the same anchor again and adds both angle increments twice. */
  lemma RepeatedRelease(c: Camera, state: int, x: int, y: int)
    requires state != Down
    ensures Mouse(Mouse(c, LeftButton, state, x, y), LeftButton, state, x, y).xRot
      == c.xRot + 2 * Div(x - c.firstX, RotationStep)
    ensures Mouse(Mouse(c, LeftButton, state, x, y), LeftButton, state, x, y).yRot
      == c.yRot + 2 * Div(y - c.firstY, RotationStep)
  {
  }

  /** The worked drags, released `x - px` pixels right of the press: 50
      pixels turn 10 degrees, 4 pixels turn none, and -7 pixels turn -1
      (truncated, where floor division would give -2); the other angle and
      the zoom stay. */
  lemma DragExamples(c: Camera, b: int, px: int, py: int, state: int, x: int)
    requires state != Down
    requires x - px == 50 || x - px == 4 || x - px == -7
    ensures Mouse(Mouse(c, b, Down, px, py), LeftButton, state, x, py)
      == c.(firstX := px, firstY := py,
            xRot := c.xRot + if x - px == 50 then 10 else if x - px == 4 then 0 else -1)
  {
    LeftDrag(c, b, px, py, state, x, py);
    TruncationExamples();
    assert Div(py - py, RotationStep) == 0;
  }
}
