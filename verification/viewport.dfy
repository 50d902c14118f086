/** The pan/zoom viewport shared by both renderers of the tiling tool (the
    single-file application and the module version). Each event handler is a
    pure transition over the viewport record; drawing is not modelled. A world
    point p appears on screen at `p * scale + offset`. */
module Viewport {
  import opened Common

  datatype View = View(
    scale: real,
    offsetX: real,
    offsetY: real,
    isDragging: bool,
    lastX: real,
    lastY: real,
    width: nat,   // canvas width in pixels
    height: nat)  // canvas height in pixels

  const ZoomSensitivity: real := 0.001
  const MinScale: real := 0.1
  /** Zoom cap of the single-file application. */
  const AppMaxScale: real := 20.0
  /** Zoom cap of the module renderer. */
  const ModuleMaxScale: real := 10.0
  const Padding: real := 50.0
  /** `autoCenter` never zooms in further than this. */
  const FitCap: real := 5.0

  /** Screen position of a world point under the current transform. */
  function ScreenX(v: View, wx: real): real {
    wx * v.scale + v.offsetX
  }

  function ScreenY(v: View, wy: real): real {
    wy * v.scale + v.offsetY
  }

  /** The constructor: unit scale, zero offset, not dragging, then `resize()`. */
  function Create(innerWidth: nat, innerHeight: nat): (v: View)
    ensures v.scale == 1.0 && !v.isDragging
    ensures v.width == innerWidth && v.height == innerHeight
    ensures ScreenX(v, 0.0) == innerWidth as real / 2.0 && ScreenY(v, 0.0) == innerHeight as real / 2.0
  {
    Resize(View(1.0, 0.0, 0.0, false, 0.0, 0.0, 0, 0), innerWidth, innerHeight)
  }

  /** `resize()`: adopt the window size and put the world origin at the canvas centre. */
  function Resize(v: View, innerWidth: nat, innerHeight: nat): (r: View)
    ensures r.width == innerWidth && r.height == innerHeight
    ensures ScreenX(r, 0.0) == innerWidth as real / 2.0
    ensures ScreenY(r, 0.0) == innerHeight as real / 2.0
    ensures r.scale == v.scale && r.isDragging == v.isDragging
    ensures r.lastX == v.lastX && r.lastY == v.lastY
  {
    v.(width := innerWidth, height := innerHeight,
       offsetX := innerWidth as real / 2.0, offsetY := innerHeight as real / 2.0)
  }

  /** The wheel handler with zoom cap `cap`:
      `min(max(0.1, scale - deltaY * 0.001), cap)`. */
  function Wheel(v: View, deltaY: real, cap: real): (r: View)
    requires MinScale <= cap
    ensures MinScale <= r.scale <= cap
    ensures var wanted := v.scale - deltaY * ZoomSensitivity;
            MinScale <= wanted <= cap ==> r.scale == wanted
    ensures v.scale - deltaY * ZoomSensitivity < MinScale ==> r.scale == MinScale
    ensures v.scale - deltaY * ZoomSensitivity > cap ==> r.scale == cap
    ensures r == v.(scale := r.scale)
  {
    var wanted := v.scale + -deltaY * ZoomSensitivity;
    var lower := if MinScale > wanted then MinScale else wanted;
    v.(scale := if lower < cap then lower else cap)
  }

  /** Wheel zoom of the single-file application: the scale stays within [0.1, 20]. */
  function AppWheel(v: View, deltaY: real): (r: View)
    ensures MinScale <= r.scale <= AppMaxScale
    ensures r == v.(scale := r.scale)
  {
    Wheel(v, deltaY, AppMaxScale)
  }

  /** Wheel zoom of the module renderer: the scale stays within [0.1, 10]. */
  function ModuleWheel(v: View, deltaY: real): (r: View)
    ensures MinScale <= r.scale <= ModuleMaxScale
    ensures r == v.(scale := r.scale)
  {
    Wheel(v, deltaY, ModuleMaxScale)
  }

  /** Zooming in and back out by the same wheel delta restores the view when
      neither step hits a bound. */
  lemma WheelRoundTrip(v: View, deltaY: real, cap: real)
    requires MinScale <= cap
    requires MinScale <= v.scale <= cap
    requires MinScale <= v.scale - deltaY * ZoomSensitivity <= cap
    ensures Wheel(Wheel(v, deltaY, cap), -deltaY, cap) == v
  {
  }

  /** Scrolling up (negative deltaY) never zooms out of a view at or below the
      cap; scrolling down never zooms into a view already at or above the
      floor. */
  lemma WheelMonotone(v: View, deltaY: real, cap: real)
    requires MinScale <= cap
    requires v.scale <= cap
    ensures deltaY <= 0.0 ==> Wheel(v, deltaY, cap).scale >= v.scale
    ensures deltaY >= 0.0 && v.scale >= MinScale ==> Wheel(v, deltaY, cap).scale <= v.scale
  {
  }

  /** Below the floor (where `autoCenter` leaves a very wide tile), any wheel
      step that does not climb past 0.1 on its own lands exactly on 0.1: even
      scrolling down zooms in. */
  lemma WheelLiftsToFloor(v: View, deltaY: real, cap: real)
    requires MinScale <= cap
    requires v.scale < MinScale
    requires v.scale - deltaY * ZoomSensitivity <= MinScale
    ensures Wheel(v, deltaY, cap).scale == MinScale > v.scale
  {
  }

  /** `autoCenter` can leave the scale below the wheel's floor: a tile 20000
      units wide on a 1000-pixel canvas is shown at 1000 / 20100. */
  lemma FitBelowFloor(b: Box)
    requires b == Box(0.0, 20000.0, 0.0, 0.0)
    ensures FitScale(1000, 1000, b) == 1000.0 / 20100.0 < MinScale
  {
    assert TargetW(b) == 20100.0 && TargetH(b) == 100.0;
    assert Min3(1000.0 / 20100.0, 1000.0 / 100.0, FitCap) == 1000.0 / 20100.0;
  }

  /** `mousedown`: start dragging from the pointer. */
  function MouseDown(v: View, x: real, y: real): (r: View)
    ensures r.isDragging && r.lastX == x && r.lastY == y
    ensures r.scale == v.scale && r.offsetX == v.offsetX && r.offsetY == v.offsetY
    ensures r.width == v.width && r.height == v.height
  {
    v.(isDragging := true, lastX := x, lastY := y)
  }

  /** `mousemove`: while dragging, pan by the pointer delta and remember the pointer. */
  function MouseMove(v: View, x: real, y: real): (r: View)
    ensures !v.isDragging ==> r == v
    ensures v.isDragging ==>
      && r.offsetX - v.offsetX == x - v.lastX
      && r.offsetY - v.offsetY == y - v.lastY
      && r.lastX == x && r.lastY == y
      && r.isDragging && r.scale == v.scale
      && r.width == v.width && r.height == v.height
  {
    if v.isDragging then
      var dx := x - v.lastX;
      var dy := y - v.lastY;
      v.(offsetX := v.offsetX + dx, offsetY := v.offsetY + dy, lastX := x, lastY := y)
    else v
  }

  /** `mouseup`: stop dragging; nothing else changes. */
  function MouseUp(v: View): (r: View)
    ensures !r.isDragging
    ensures r == v.(isDragging := false)
  {
    v.(isDragging := false)
  }

  /** A run of `mousemove` events at the pointer positions `ps`. */
  function MoveAll(v: View, ps: seq<Vec>): View
    decreases |ps|
  {
    if |ps| == 0 then v else MoveAll(MouseMove(v, ps[0].x, ps[0].y), ps[1..])
  }

  /** A drag pans the view by exactly the total pointer displacement, from the
      press to the last move, whatever the intermediate positions were. */
  lemma {:induction false} DragPansByPointerDelta(v: View, press: Vec, ps: seq<Vec>)
    requires |ps| > 0
    ensures var r := MoveAll(MouseDown(v, press.x, press.y), ps);
            && r.offsetX == v.offsetX + (ps[|ps| - 1].x - press.x)
            && r.offsetY == v.offsetY + (ps[|ps| - 1].y - press.y)
            && r.scale == v.scale && r.isDragging
    decreases |ps|
  {
    var d := MouseDown(v, press.x, press.y);
    var next := MouseMove(d, ps[0].x, ps[0].y);
    if |ps| > 1 {
      var v' := next.(isDragging := v.isDragging);
      assert MouseDown(v', ps[0].x, ps[0].y) == next;
      DragPansByPointerDelta(v', ps[0], ps[1..]);
    }
  }

  /** Without a press, pointer moves leave the view untouched. */
  lemma {:induction false} MovesWithoutPressAreIgnored(v: View, ps: seq<Vec>)
    requires !v.isDragging
    ensures MoveAll(v, ps) == v
    decreases |ps|
  {
    if |ps| > 0 {
      MovesWithoutPressAreIgnored(v, ps[1..]);
    }
  }

  /** An axis-aligned bounding box. */
  datatype Box = Box(minX: real, maxX: real, minY: real, maxY: real)

  /** Widens a box to take in one more point (the body of the `forEach`). */
  function Include(b: Box, p: Vec): Box {
    Box(if p.x < b.minX then p.x else b.minX,
        if p.x > b.maxX then p.x else b.maxX,
        if p.y < b.minY then p.y else b.minY,
        if p.y > b.maxY then p.y else b.maxY)
  }

  /** The bounding box `autoCenter` accumulates over a non-empty path, visiting
      the points in order; the first point replaces the infinite initial bounds. */
  function Bounds(path: seq<Vec>): (b: Box)
    requires |path| > 0
    ensures b.minX <= b.maxX && b.minY <= b.maxY
    ensures forall i :: 0 <= i < |path| ==>
      b.minX <= path[i].x <= b.maxX && b.minY <= path[i].y <= b.maxY
    ensures exists i :: 0 <= i < |path| && path[i].x == b.minX
    ensures exists i :: 0 <= i < |path| && path[i].x == b.maxX
    ensures exists i :: 0 <= i < |path| && path[i].y == b.minY
    ensures exists i :: 0 <= i < |path| && path[i].y == b.maxY
    decreases |path|
  {
    var p := path[|path| - 1];
    if |path| == 1 then Box(p.x, p.x, p.y, p.y)
    else
      var prefix := Bounds(path[..|path| - 1]);
      assert forall i :: 0 <= i < |path| - 1 ==> path[..|path| - 1][i] == path[i];
      Include(prefix, p)
  }

  /** Centre of a box. */
  function CentreX(b: Box): real {
    (b.minX + b.maxX) / 2.0
  }

  function CentreY(b: Box): real {
    (b.minY + b.maxY) / 2.0
  }

  function Min3(a: real, b: real, c: real): (r: real)
    ensures r <= a && r <= b && r <= c
    ensures r == a || r == b || r == c
  {
    var ab := if a < b then a else b;
    if ab < c then ab else c
  }

  /** Width of the padded box `autoCenter` wants to show. */
  function TargetW(b: Box): real {
    (b.maxX - b.minX) + Padding * 2.0
  }

  function TargetH(b: Box): real {
    (b.maxY - b.minY) + Padding * 2.0
  }

  /** `Math.min(width / targetW, height / targetH, 5.0)` for a proper box. */
  function FitScale(width: nat, height: nat, b: Box): (s: real)
    requires b.minX <= b.maxX && b.minY <= b.maxY
    ensures 0.0 <= s <= FitCap
    ensures s * TargetW(b) <= width as real
    ensures s * TargetH(b) <= height as real
    ensures s == FitCap || s * TargetW(b) == width as real || s * TargetH(b) == height as real
  {
    var sx := width as real / TargetW(b);
    var sy := height as real / TargetH(b);
    var s := Min3(sx, sy, FitCap);
    FitMin(width as real, height as real, TargetW(b), TargetH(b));
    s
  }

  /** The fit argument in plain reals: the least of `w / tw`, `h / th` and 5 is
      non-negative, at most 5, makes both targets fit, and is attained by one of
      the three. */
  lemma FitMin(w: real, h: real, tw: real, th: real)
    requires w >= 0.0 && h >= 0.0 && tw > 0.0 && th > 0.0
    ensures var s := Min3(w / tw, h / th, FitCap);
      && 0.0 <= s <= FitCap
      && s * tw <= w && s * th <= h
      && (s == FitCap || s * tw == w || s * th == h)
  {
    var sx := w / tw;
    var sy := h / th;
    var s := Min3(sx, sy, FitCap);
    assert sx * tw == w && sy * th == h;
    MulMono(s, sx, tw);
    MulMono(s, sy, th);
  }

  /** `autoCenter(polygon)`, given the polygon's path (None when the polygon
      or its path is missing). A missing or empty path changes nothing;
      otherwise the view frames the path's bounding box. */
  function AutoCenter(v: View, path: Option<seq<Vec>>): (r: View)
    ensures path.None? || |path.value| == 0 ==> r == v
    ensures path.Some? && |path.value| > 0 ==> r == FrameBox(v, Bounds(path.value))
  {
    if path.None? || |path.value| == 0 then v
    else FrameBox(v, Bounds(path.value))
  }

  /** The fitting step of `autoCenter` for a bounding box: the padded box fits
      the canvas, the scale never exceeds 5, and the box centre lands on the
      canvas centre. */
  function FrameBox(v: View, b: Box): (r: View)
    requires b.minX <= b.maxX && b.minY <= b.maxY
    ensures 0.0 <= r.scale <= FitCap
    ensures r.scale * TargetW(b) <= v.width as real
    ensures r.scale * TargetH(b) <= v.height as real
    ensures r.scale == FitCap || r.scale * TargetW(b) == v.width as real || r.scale * TargetH(b) == v.height as real
    ensures ScreenX(r, CentreX(b)) == v.width as real / 2.0
    ensures ScreenY(r, CentreY(b)) == v.height as real / 2.0
    ensures r.isDragging == v.isDragging && r.width == v.width && r.height == v.height
  {
    Recentre(v, FitScale(v.width, v.height, b), CentreX(b), CentreY(b))
  }

  /** Sets the scale and chooses the offsets that put world point (cx, cy) at
      the canvas centre: `offsetX = width / 2 - cx * scale`. */
  function Recentre(v: View, scale: real, cx: real, cy: real): (r: View)
    ensures r.scale == scale
    ensures ScreenX(r, cx) == v.width as real / 2.0
    ensures ScreenY(r, cy) == v.height as real / 2.0
    ensures r.isDragging == v.isDragging && r.width == v.width && r.height == v.height
  {
    v.(scale := scale,
       offsetX := v.width as real / 2.0 - cx * scale,
       offsetY := v.height as real / 2.0 - cy * scale)
  }

  /** `a <= b` survives multiplication by a non-negative factor. */
  lemma MulMono(a: real, b: real, c: real)
    requires a <= b && c >= 0.0
    ensures a * c <= b * c
  {
  }

  /** One axis of the framing argument, in plain reals: a coordinate within
      `half` of the centre `c`, scaled by `s` and shifted so that `c` lands on
      `len / 2`, stays a padding's worth inside `[0, len]`. */
  lemma AxisFits(p: real, c: real, half: real, s: real, off: real, len: real)
    requires c - half <= p <= c + half
    requires s >= 0.0
    requires c * s + off == len / 2.0
    requires s * (2.0 * half + 2.0 * Padding) <= len
    ensures s * Padding <= p * s + off <= len - s * Padding
  {
    assert p * s + off == len / 2.0 + (p - c) * s;
    MulMono(p - c, half, s);
    MulMono(-half, p - c, s);
    assert s * (2.0 * half + 2.0 * Padding) == 2.0 * (half * s) + 2.0 * (s * Padding);
    assert (-half) * s == -(half * s);
  }

  /** A point inside a box lands on the canvas, a padding's worth (in screen
      units) inside its edges, in any view that maps the box centre to the
      canvas centre at a scale at which the padded box fits. */
  lemma FramedShowsPoint(r: View, width: real, height: real, b: Box, p: Vec)
    requires b.minX <= p.x <= b.maxX && b.minY <= p.y <= b.maxY
    requires r.scale >= 0.0
    requires r.scale * TargetW(b) <= width && r.scale * TargetH(b) <= height
    requires ScreenX(r, CentreX(b)) == width / 2.0 && ScreenY(r, CentreY(b)) == height / 2.0
    ensures r.scale * Padding <= ScreenX(r, p.x) <= width - r.scale * Padding
    ensures r.scale * Padding <= ScreenY(r, p.y) <= height - r.scale * Padding
  {
    var halfW := (b.maxX - b.minX) / 2.0;
    var halfH := (b.maxY - b.minY) / 2.0;
    assert TargetW(b) == 2.0 * halfW + 2.0 * Padding;
    assert TargetH(b) == 2.0 * halfH + 2.0 * Padding;
    AxisFits(p.x, CentreX(b), halfW, r.scale, r.offsetX, width);
    AxisFits(p.y, CentreY(b), halfH, r.scale, r.offsetY, height);
  }

  /** Framing a box shows every point inside it: each lands on the canvas, at
      least the padding (in screen units) away from its edges. */
  lemma FrameBoxShowsPoints(v: View, b: Box, path: seq<Vec>)
    requires b.minX <= b.maxX && b.minY <= b.maxY
    requires forall i :: 0 <= i < |path| ==>
      b.minX <= path[i].x <= b.maxX && b.minY <= path[i].y <= b.maxY
    ensures var r := FrameBox(v, b);
            forall i :: 0 <= i < |path| ==>
              && r.scale * Padding <= ScreenX(r, path[i].x) <= v.width as real - r.scale * Padding
              && r.scale * Padding <= ScreenY(r, path[i].y) <= v.height as real - r.scale * Padding
  {
    var r := FrameBox(v, b);
    forall i | 0 <= i < |path|
      ensures && r.scale * Padding <= ScreenX(r, path[i].x) <= v.width as real - r.scale * Padding
              && r.scale * Padding <= ScreenY(r, path[i].y) <= v.height as real - r.scale * Padding
    {
      FramedShowsPoint(r, v.width as real, v.height as real, b, path[i]);
    }
  }

  /** After `autoCenter` on a non-empty path (which frames its bounding box),
      every point of the path lands on the canvas, at least the padding (in
      screen units) away from its edges. */
  lemma AutoCenterShowsPath(v: View, path: seq<Vec>)
    requires |path| > 0
    ensures var r := AutoCenter(v, Some(path));
            forall i :: 0 <= i < |path| ==>
              && r.scale * Padding <= ScreenX(r, path[i].x) <= v.width as real - r.scale * Padding
              && r.scale * Padding <= ScreenY(r, path[i].y) <= v.height as real - r.scale * Padding
  {
    FrameBoxShowsPoints(v, Bounds(path), path);
  }
}
