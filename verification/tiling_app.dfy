/** `updateTiling` of the single-file tiling application: derive n from
    (k, m, t, offset), refuse n < k, otherwise generate the prototile, hand it
    to the renderer and frame it. The parsed input values are parameters; the
    status line is reduced to which outcome it reports. */
module TilingApp {
  import opened Common
  import opened Prototile
  import opened Viewport

  /** What the status line reports. */
  datatype Status =
    | Idle
    | RejectedNBelowK(n: int)
    | Showing(m: int, k: int, n: int, closureEnd: Vec)

  /** The page state: the renderer's view, the polygons it displays, the
      generator, and the status line. */
  datatype App = App(view: View, shown: seq<Polygon>, generator: Generator, status: Status)

  /** `updateTiling()` with the parsed inputs k, m, t and the offset checkbox.
      When n < k only the status changes; otherwise the generator runs, the
      renderer displays its polygons, and the view is centred on the first. */
  function UpdateTiling(app: App, k: int, m: int, t: int, isOffset: bool, dir: Directions): (r: App)
    ensures DeriveN(k, m, t, isOffset) < k ==>
      r == app.(status := RejectedNBelowK(DeriveN(k, m, t, isOffset)))
    ensures DeriveN(k, m, t, isOffset) >= k ==>
      && |r.shown| == 1
      && r.shown == r.generator.polygons
      && r.shown[0].path == PrototilePath(m, k, dir)
      && r.view == AutoCenter(app.view, Some(PrototilePath(m, k, dir)))
      && r.status.Showing?
      && r.status.n == DeriveN(k, m, t, isOffset)
      && r.status.closureEnd == LastOr(Origin, PrototilePath(m, k, dir))
  {
    var n := DeriveN(k, m, t, isOffset);
    if n < k then app.(status := RejectedNBelowK(n))
    else
      var out := GeneratePrototile(app.generator, m, k, n, dir);
      var tile := out.polygons[0];
      var view := if |out.polygons| > 0 then AutoCenter(app.view, Some(tile.path)) else app.view;
      App(view, out.polygons, out.generator,
          Showing(m, k, n, if tile.meta.ClosureMeta? then tile.meta.closureEnd else Origin))
  }

  /** An accepted update with k >= 1 reports a closed prototile (zero closure
      error) and shows every vertex of it on screen, a padding's worth inside
      the canvas edges. */
  lemma AcceptedUpdateFramesClosedTile(app: App, k: int, m: int, t: int, isOffset: bool, dir: Directions)
    requires DeriveN(k, m, t, isOffset) >= k >= 1
    ensures var r := UpdateTiling(app, k, m, t, isOffset, dir);
      && r.status.closureEnd == Origin
      && forall i :: 0 <= i < |r.shown[0].path| ==>
        && r.view.scale * Padding <= ScreenX(r.view, r.shown[0].path[i].x) <= app.view.width as real - r.view.scale * Padding
        && r.view.scale * Padding <= ScreenY(r.view, r.shown[0].path[i].y) <= app.view.height as real - r.view.scale * Padding
  {
    var path := PrototilePath(m, k, dir);
    PathLength(m, k, dir);
    AutoCenterShowsPath(app.view, path);
  }

  /** In normal mode with k >= 1, an update is accepted exactly when t >= 1;
      a refused one leaves view, display and generator as they were. */
  lemma NormalModeUpdate(app: App, k: int, m: int, t: int, dir: Directions)
    requires k >= 1
    ensures t < 1 ==> var r := UpdateTiling(app, k, m, t, false, dir);
      r.view == app.view && r.shown == app.shown && r.generator == app.generator
    ensures t >= 1 ==> UpdateTiling(app, k, m, t, false, dir).status.Showing?
  {
    NormalModeAcceptance(k, m, t);
  }
}
