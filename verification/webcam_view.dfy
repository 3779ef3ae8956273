/** The webcam viewer's interactive view state and the three GLFW callbacks
    that change it: scroll zooms about the cursor, the left button starts and
    ends a drag, and cursor motion while dragging pans (or, with shift held,
    rotates). Window size and cursor position are parameters; `pow11(e)`
    stands for `powf(1.1f, e)`. */
module WebcamView {
  import opened Transforms
  import opened UvTransform

  /** The file-level globals the callbacks share: drag state, last cursor
      position, UV translation, scale, rotation (degrees) and zoom pivot (UV). */
  datatype View = View(dragging: bool, lastX: real, lastY: real,
                       translateU: real, translateV: real, scale: real, rotation: real,
                       pivotU: real, pivotV: real)

  const InitialView: View := View(false, 0.0, 0.0, 0.0, 0.0, 1.0, 0.0, 0.5, 0.5)

  /** The transform toggles: transforms on, CPU path chosen, GPU transform
      shader installed. */
  datatype Flags = Flags(enabled: bool, useCPU: bool, gpuActive: bool)

  const InitialFlags: Flags := Flags(false, false, false)

  /** The GPU transform shader is installed exactly when transforms are on
      and the GPU path is chosen. */
  predicate GpuConsistent(f: Flags) {
    f.gpuActive == (f.enabled && !f.useCPU)
  }

  lemma InitialConsistent()
    ensures GpuConsistent(InitialFlags)
    ensures InitialView.scale == 1.0 && InitialView.pivotU == Cx && InitialView.pivotV == Cy
  {
  }

  /** The cursor position in UV, mirrored in both axes while the GPU
      transform shader is active. */
  function CursorUv(gpuActive: bool, mx: real, my: real, w: int, h: int): Point
    requires w > 0 && h > 0
  {
    if gpuActive then Point((w as real - mx) / w as real, (h as real - my) / h as real)
    else Point(mx / w as real, my / h as real)
  }

  /** `scroll_callback`: nothing when the window has no area; otherwise the
      zoom pivot becomes the cursor's UV point, the scale is multiplied by
      `1.1^yoffset` (the exponent negated while the GPU transform shader is
      active) and the translation is corrected so that the pivot stays where
      it was on screen. Drag state and rotation are not touched. */
  function Scroll(v: View, gpuActive: bool, mx: real, my: real, w: int, h: int, yoffset: real,
                  pow11: real -> real): (r: View)
    ensures w <= 0 || h <= 0 ==> r == v
    ensures w > 0 && h > 0 ==>
              && Point(r.pivotU, r.pivotV) == CursorUv(gpuActive, mx, my, w, h)
              && r.scale == v.scale * pow11(if gpuActive then -yoffset else yoffset)
              && ZoomMap(r.translateU, r.translateV, r.scale, r.pivotU, r.pivotV)
                 == ZoomMap(v.translateU, v.translateV, v.scale, r.pivotU, r.pivotV)
    ensures r.dragging == v.dragging && r.lastX == v.lastX && r.lastY == v.lastY
    ensures r.rotation == v.rotation
  {
    if w <= 0 || h <= 0 then v
    else
      var p := CursorUv(gpuActive, mx, my, w, h);
      var dir := if gpuActive then -1.0 else 1.0;
      assert yoffset * dir == (if gpuActive then -yoffset else yoffset);
      var sNew := v.scale * pow11(yoffset * dir);
      var r := v.(pivotU := p.x, pivotV := p.y,
                  translateU := v.translateU + (v.scale - sNew) * (p.x - Cx),
                  translateV := v.translateV + (v.scale - sNew) * (p.y - Cy),
                  scale := sNew);
      ZoomFixes(v.translateU, v.scale, sNew, p.x, Cx);
      ZoomFixes(v.translateV, v.scale, sNew, p.y, Cy);
      r
  }

  lemma ZoomFixes(t: real, sOld: real, sNew: real, p: real, c: real)
    ensures (t + (sOld - sNew) * (p - c)) + c + sNew * (p - c) == t + c + sOld * (p - c)
  {
  }

  /** With no rotation the uploaded UV matrix maps the zoom pivot to the same
      place before and after a scroll: zooming keeps the point under the
      cursor fixed. */
  lemma ScrollKeepsCursorFixed(v: View, gpuActive: bool, mx: real, my: real, w: int, h: int,
                               yoffset: real, pow11: real -> real, aspect: real)
    requires w > 0 && h > 0 && aspect != 0.0
    ensures var r := Scroll(v, gpuActive, mx, my, w, h, yoffset, pow11);
            var before := MulVec(UvMatrix(v.translateU, v.translateV, v.scale, 1.0, 0.0, aspect),
                                 Vec3(r.pivotU, r.pivotV, 1.0));
            var after := MulVec(UvMatrix(r.translateU, r.translateV, r.scale, 1.0, 0.0, aspect),
                                Vec3(r.pivotU, r.pivotV, 1.0));
            before.x == after.x && before.y == after.y
  {
    var r := Scroll(v, gpuActive, mx, my, w, h, yoffset, pow11);
    UvNoRotation(v.translateU, v.translateV, v.scale, aspect, r.pivotU, r.pivotV);
    UvNoRotation(r.translateU, r.translateV, r.scale, aspect, r.pivotU, r.pivotV);
  }

  datatype MouseButton = LeftButton | RightButton | MiddleButton
  datatype Action = Press | Release | Repeat

  /** `mouse_button_callback`: only the left button counts; pressing starts a
      drag at the cursor, releasing ends it. */
  function MouseButtonEvent(v: View, button: MouseButton, action: Action, cursorX: real, cursorY: real): (r: View)
    ensures button != LeftButton || action == Repeat ==> r == v
    ensures button == LeftButton && action == Press ==>
              r.dragging && r.lastX == cursorX && r.lastY == cursorY
    ensures button == LeftButton && action == Release ==> !r.dragging
    ensures r.translateU == v.translateU && r.translateV == v.translateV
    ensures r.scale == v.scale && r.rotation == v.rotation
    ensures r.pivotU == v.pivotU && r.pivotV == v.pivotV
  {
    if button != LeftButton then v
    else if action == Press then v.(dragging := true, lastX := cursorX, lastY := cursorY)
    else if action == Release then v.(dragging := false)
    else v
  }

  /** Degrees of rotation per pixel of shift-drag. */
  const RotationSensitivity: real := 0.35

  /** `cursor_pos_callback`: nothing unless dragging in a window with area;
      otherwise a shift-drag rotates by the horizontal motion times the
      sensitivity, a plain drag pans by the motion as a fraction of the
      window, and the cursor position is remembered. */
  function CursorMove(v: View, x: real, y: real, w: int, h: int, shift: bool): (r: View)
    ensures !v.dragging || w <= 0 || h <= 0 ==> r == v
    ensures v.dragging && w > 0 && h > 0 ==>
              && r.lastX == x && r.lastY == y && r.dragging
              && r.scale == v.scale && r.pivotU == v.pivotU && r.pivotV == v.pivotV
              && (shift ==> r.rotation == v.rotation + (x - v.lastX) * RotationSensitivity
                            && r.translateU == v.translateU && r.translateV == v.translateV)
              && (!shift ==> r.rotation == v.rotation
                             && r.translateU == v.translateU + (x - v.lastX) / w as real
                             && r.translateV == v.translateV + (y - v.lastY) / h as real)
  {
    if !v.dragging || w <= 0 || h <= 0 then v
    else
      var dx := x - v.lastX;
      var dy := y - v.lastY;
      var moved := if shift then v.(rotation := v.rotation + dx * RotationSensitivity)
                   else v.(translateU := v.translateU + dx / w as real,
                           translateV := v.translateV + dy / h as real);
      moved.(lastX := x, lastY := y)
  }

  /** A run of cursor events in one window: it never changes the zoom, the
      pivot or whether a drag is on; a shift-drag never pans and a plain
      drag never rotates; without a drag nothing changes. */
  function Drag(v: View, moves: seq<Point>, w: int, h: int, shift: bool): (r: View)
    ensures r.scale == v.scale && r.pivotU == v.pivotU && r.pivotV == v.pivotV && r.dragging == v.dragging
    ensures shift ==> r.translateU == v.translateU && r.translateV == v.translateV
    ensures !shift ==> r.rotation == v.rotation
    ensures !v.dragging ==> r == v
    decreases |moves|
  {
    if |moves| == 0 then v
    else Drag(CursorMove(v, moves[0].x, moves[0].y, w, h, shift), moves[1..], w, h, shift)
  }

  /** A plain drag pans by the total cursor motion, however it is split into
      events: the per-event deltas telescope. */
  lemma {:induction false} DragPans(v: View, moves: seq<Point>, w: int, h: int)
    requires v.dragging && w > 0 && h > 0 && |moves| > 0
    ensures var r := Drag(v, moves, w, h, false);
            && r.translateU == v.translateU + (moves[|moves| - 1].x - v.lastX) / w as real
            && r.translateV == v.translateV + (moves[|moves| - 1].y - v.lastY) / h as real
            && r.rotation == v.rotation && r.scale == v.scale
            && r.lastX == moves[|moves| - 1].x && r.lastY == moves[|moves| - 1].y
    decreases |moves|
  {
    var v1 := CursorMove(v, moves[0].x, moves[0].y, w, h, false);
    if |moves| > 1 {
      DragPans(v1, moves[1..], w, h);
      var last := moves[|moves| - 1];
      assert moves[1..][|moves[1..]| - 1] == last;
      assert (moves[0].x - v.lastX) / w as real + (last.x - moves[0].x) / w as real
             == (last.x - v.lastX) / w as real;
      assert (moves[0].y - v.lastY) / h as real + (last.y - moves[0].y) / h as real
             == (last.y - v.lastY) / h as real;
    }
  }

  /** A shift-drag rotates by the total horizontal motion times the
      sensitivity and leaves the translation alone. */
  lemma {:induction false} DragRotates(v: View, moves: seq<Point>, w: int, h: int)
    requires v.dragging && w > 0 && h > 0 && |moves| > 0
    ensures var r := Drag(v, moves, w, h, true);
            && r.rotation == v.rotation + (moves[|moves| - 1].x - v.lastX) * RotationSensitivity
            && r.translateU == v.translateU && r.translateV == v.translateV && r.scale == v.scale
    decreases |moves|
  {
    var v1 := CursorMove(v, moves[0].x, moves[0].y, w, h, true);
    if |moves| > 1 {
      DragRotates(v1, moves[1..], w, h);
      assert moves[1..][|moves[1..]| - 1] == moves[|moves| - 1];
    }
  }

  /** Without a pressed left button, cursor motion changes nothing. */
  lemma {:induction false} NoDragNoChange(v: View, moves: seq<Point>, w: int, h: int, shift: bool)
    requires !v.dragging
    ensures Drag(v, moves, w, h, shift) == v
    decreases |moves|
  {
    if |moves| > 0 {
      NoDragNoChange(v, moves[1..], w, h, shift);
    }
  }
}
