/**
 Measuring and drawing a widget.

 `render` runs the widget's drawing twice: once in pseudo mode, where drawing a shape only makes
 the window grow, and once for real into the hidden window's place on the screen, from where the
 picture is moved into the foreground buffer.
 */
module Rendering {
  import opened Basics
  import opened Raster
  import opened Overlay
  import opened Placement

  // A shape to be drawn at (x, y) of the window; it draws into the inclusive box up to
  // (x + xMax, y + yMax), and leaves `ink` there.
  datatype Shape = Shape(x: int, y: int, xMax: int, yMax: int, ink: Mem) {
    function Box(a: Rect): Rect { Rect(a.x1 + x, a.y1 + y, a.x1 + x + xMax, a.y1 + y + yMax) }
  }

  datatype Wm = NoWm | Managed(view: View, gaps: Gaps)

  // ---------------------------------------------------------------- the code's steps

  // The manager's answer to a window that has changed its size: a new place.
  function Reposition(w: Win, wm: Wm): Win {
    match wm
    case NoWm => w
    case Managed(v, s) => var (x, y) := Place(v, s, w.w, w.h); w.At(x, y)
  }

  function Sized(w: Win, wm: Wm, width: int, height: int): Win {
    Reposition(w.(w := width, h := height), wm)
  }

  // A visible window is hidden at the old size and shown at the new one; the picture that was
  // saved must be large enough to be read back.
  predicate CanResize(g: Geometry, w: Win, wm: Wm, width: int, height: int) {
    w.visible ==>
      && CanHide(g, w)
      && OnScreen(g, Sized(w, wm, width, height).Area())
      && Size(g, Sized(w, wm, width, height).Area()) <= Size(g, w.Area())
  }

  // Window::wh
  function ResizeWin(g: Geometry, m: Mem, w: Win, wm: Wm, width: int, height: int): (r: (Mem, Win))
    requires Fits(g, m) && CanResize(g, w, wm, width, height)
    ensures |r.0| == |m|
  {
    var (m1, w1) := HideWin(g, m, w);
    var w2 := Sized(w1, wm, width, height);
    if w.visible then ShowWin(g, m1, w2) else (m1, w2)
  }

  // GraphPort::setPseudo
  function PseudoWin(g: Geometry, m: Mem, w: Win, wm: Wm, flag: bool): (r: (Mem, Win))
    requires Fits(g, m) && (flag && !w.pseudo ==> CanResize(g, w, wm, 0, 0))
    ensures |r.0| == |m|
  {
    if flag && !w.pseudo then
      var (m1, w1) := ResizeWin(g, m, w, wm, 0, 0);
      (m1, w1.(pseudo := true))
    else
      (m, w.(pseudo := flag))
  }

  predicate CanMeasure(g: Geometry, w: Win, wm: Wm, x: int, y: int) {
    x > w.w || y > w.h ==> CanResize(g, w, wm, Max(w.w, x), Max(w.h, y))
  }

  // Window::measure
  function MeasureWin(g: Geometry, m: Mem, w: Win, wm: Wm, x: int, y: int): (r: (Mem, Win))
    requires Fits(g, m) && CanMeasure(g, w, wm, x, y)
    ensures |r.0| == |m|
  {
    if x > w.w || y > w.h then ResizeWin(g, m, w, wm, Max(w.w, x), Max(w.h, y)) else (m, w)
  }

  // A measuring pass over a hidden window.
  function MeasureAll(g: Geometry, m: Mem, w: Win, wm: Wm, shapes: seq<Shape>): (r: Win)
    requires Fits(g, m) && !w.visible
    ensures !r.visible && r == w.(x := r.x, y := r.y, w := r.w, h := r.h)
  {
    if shapes == [] then w else
    var n := |shapes| - 1;
    var w1 := MeasureAll(g, m, w, wm, shapes[..n]);
    MeasureWin(g, m, w1, wm, shapes[n].x + shapes[n].xMax, shapes[n].y + shapes[n].yMax).1
  }

  predicate CanDraw(g: Geometry, a: Rect, s: Shape) {
    && OnScreen(g, s.Box(a))
    && |s.ink| == Size(g, s.Box(a))
  }

  function DrawAll(g: Geometry, m: Mem, a: Rect, shapes: seq<Shape>): (r: Mem)
    requires Fits(g, m) && (forall s :: s in shapes ==> CanDraw(g, a, s))
    ensures |r| == |m|
  {
    if shapes == [] then m else
    var n := |shapes| - 1;
    assert shapes[n] in shapes && CanDraw(g, a, shapes[n]);
    Blit(g, DrawAll(g, m, a, shapes[..n]), shapes[n].Box(a), shapes[n].ink)
  }

  // The window after the measuring pass of render.
  function Measured(g: Geometry, m: Mem, w: Win, wm: Wm, shapes: seq<Shape>): (r: Win)
    requires Fits(g, m) && (w.visible ==> CanHide(g, w))
    ensures !r.visible
  {
    var (m1, w1) := HideWin(g, m, w);
    MeasureAll(g, m1, PseudoWin(g, m1, w1, wm, true).1, wm, shapes)
  }

  predicate CanRender(g: Geometry, m: Mem, w: Win, wm: Wm, shapes: seq<Shape>)
    requires Fits(g, m)
  {
    && (w.visible ==> CanHide(g, w))
    && var w2 := Measured(g, m, w, wm, shapes);
       && OnScreen(g, w2.Area())
       && forall s :: s in shapes ==> CanDraw(g, w2.Area(), s)
  }

  // Widget::render
  function RenderWin(g: Geometry, m: Mem, w: Win, wm: Wm, shapes: seq<Shape>): (r: (Mem, Win))
    requires Fits(g, m) && CanRender(g, m, w, wm, shapes)
    ensures |r.0| == |m|
  {
    var m1 := HideWin(g, m, w).0;
    var w2 := Measured(g, m, w, wm, shapes);
    var bg := Grab(g, m1, w2.Area());
    var m2 := DrawAll(g, m1, w2.Area(), shapes);
    var w3 := w2.(pseudo := false, bg := None, fg := Some(Grab(g, m2, w2.Area())));
    var m3 := Blit(g, m2, w2.Area(), bg);
    if w.visible then ShowWin(g, m3, w3) else (m3, w3)
  }

  // ---------------------------------------------------------------- what measuring computes

  ghost predicate Placed(w: Win, wm: Wm) {
    wm.Managed? ==> (w.x, w.y) == Place(wm.view, wm.gaps, w.w, w.h)
  }

  // The size a list of shapes asks for: the least that reaches every shape's far corner.
  ghost predicate IsExtent(shapes: seq<Shape>, width: int, height: int) {
    && 0 <= width && 0 <= height
    && (forall s :: s in shapes ==> s.x + s.xMax <= width && s.y + s.yMax <= height)
    && (width == 0 || exists s :: s in shapes && s.x + s.xMax == width)
    && (height == 0 || exists s :: s in shapes && s.y + s.yMax == height)
  }

  lemma ExtentUnique(shapes: seq<Shape>, w: int, h: int, w': int, h': int)
    requires IsExtent(shapes, w, h) && IsExtent(shapes, w', h')
    ensures w == w' && h == h'
  {
  }

  // A window `r` measured from the empty window `w`.
  ghost predicate Fitted(shapes: seq<Shape>, w: Win, wm: Wm, r: Win) {
    IsExtent(shapes, r.w, r.h) && (Placed(w, wm) || r.w > 0 || r.h > 0 ==> Placed(r, wm))
  }

  lemma {:induction false} MeasureAllExtent(g: Geometry, m: Mem, w: Win, wm: Wm, shapes: seq<Shape>)
    requires Fits(g, m) && !w.visible && w.w == w.h == 0
    ensures Fitted(shapes, w, wm, MeasureAll(g, m, w, wm, shapes))
  {
    if shapes != [] {
      var n := |shapes| - 1;
      MeasureAllExtent(g, m, w, wm, shapes[..n]);
      MeasureOneMore(g, m, w, wm, shapes);
    }
  }

  lemma MeasureOneMore(g: Geometry, m: Mem, w: Win, wm: Wm, shapes: seq<Shape>)
    requires Fits(g, m) && !w.visible && shapes != []
    requires Fitted(shapes[..|shapes| - 1], w, wm, MeasureAll(g, m, w, wm, shapes[..|shapes| - 1]))
    ensures Fitted(shapes, w, wm, MeasureAll(g, m, w, wm, shapes))
  {
    var n := |shapes| - 1;
    MeasureLast(g, m, w, MeasureAll(g, m, w, wm, shapes[..n]), wm, shapes, MeasureAll(g, m, w, wm, shapes));
  }

  lemma MeasureLast(g: Geometry, m: Mem, w: Win, r: Win, wm: Wm, shapes: seq<Shape>, t: Win)
    requires Fits(g, m) && !r.visible && shapes != [] && Fitted(shapes[..|shapes| - 1], w, wm, r)
    requires var last := shapes[|shapes| - 1];
      t == MeasureWin(g, m, r, wm, last.x + last.xMax, last.y + last.yMax).1
    ensures Fitted(shapes, w, wm, t)
  {
    var front, last := shapes[..|shapes| - 1], shapes[|shapes| - 1];
    MeasureStep(g, m, r, wm, last.x + last.xMax, last.y + last.yMax);
    assert shapes == front + [last];
    FittedMore(front, last, w, wm, r, t);
  }

  lemma FittedMore(front: seq<Shape>, last: Shape, w: Win, wm: Wm, r: Win, t: Win)
    requires Fitted(front, w, wm, r) && t.w == Max(r.w, last.x + last.xMax) && t.h == Max(r.h, last.y + last.yMax)
    requires Placed(r, wm) || t.w > r.w || t.h > r.h ==> Placed(t, wm)
    ensures Fitted(front + [last], w, wm, t)
  {
    ExtentGrows(front, last, r.w, r.h);
  }

  lemma MeasureStep(g: Geometry, m: Mem, w: Win, wm: Wm, x: int, y: int)
    requires Fits(g, m) && !w.visible && w.w >= 0 && w.h >= 0
    ensures var r := MeasureWin(g, m, w, wm, x, y).1;
      && r.w == Max(w.w, x) && r.h == Max(w.h, y)
      && (Placed(w, wm) || r.w > w.w || r.h > w.h ==> Placed(r, wm))
  {
  }

  lemma ExtentGrows(shapes: seq<Shape>, last: Shape, width: int, height: int)
    requires IsExtent(shapes, width, height)
    ensures IsExtent(shapes + [last], Max(width, last.x + last.xMax), Max(height, last.y + last.yMax))
  {
    var all := shapes + [last];
    assert last in all && forall s :: s in shapes ==> s in all;
    forall s | s in all
      ensures s in shapes || s == last
    {
    }
  }

  /**
   Whatever size the window had, the measuring pass makes it exactly as large as the shapes it is
   about to draw, and leaves it where its manager wants a window of that size.
   */
  lemma RenderMeasures(g: Geometry, m: Mem, w: Win, wm: Wm, shapes: seq<Shape>)
    requires Fits(g, m) && WinOk(g, w)
    ensures var r := Measured(g, m, w, wm, shapes);
      && IsExtent(shapes, r.w, r.h)
      && (Placed(w, wm) ==> Placed(r, wm))
  {
    var (m1, w1) := HideWin(g, m, w);
    var w2 := PseudoWin(g, m1, w1, wm, true).1;
    assert w2.w == w2.h == 0;
    MeasureAllExtent(g, m1, w2, wm, shapes);
  }

  // ---------------------------------------------------------------- what drawing changes

  lemma DrawInside(g: Geometry, m: Mem, a: Rect, shapes: seq<Shape>, k: nat)
    requires Fits(g, m) && (forall s :: s in shapes ==> CanDraw(g, a, s))
    requires forall s :: s in shapes ==> Inside(s.Box(a), a)
    requires k < |m| && !Covers(g, a, k)
    ensures DrawAll(g, m, a, shapes)[k] == m[k]
  {
  }

  // Once a shape fills the whole window, what was below no longer matters.
  lemma {:induction false} PictureHidesBelow(g: Geometry, m: Mem, m': Mem, a: Rect, shapes: seq<Shape>)
    requires Fits(g, m) && |m'| == |m| && OnScreen(g, a)
    requires forall s :: s in shapes ==> CanDraw(g, a, s)
    requires exists s :: s in shapes && s.Box(a) == a
    ensures Grab(g, DrawAll(g, m, a, shapes), a) == Grab(g, DrawAll(g, m', a, shapes), a)
  {
    forall k | 0 <= k < |m| && Covers(g, a, k)
      ensures DrawAll(g, m, a, shapes)[k] == DrawAll(g, m', a, shapes)[k]
    {
      HiddenBelow(g, m, m', a, shapes, k);
    }
    GrabEqual(g, DrawAll(g, m, a, shapes), DrawAll(g, m', a, shapes), a);
  }

  lemma {:induction false} HiddenBelow(g: Geometry, m: Mem, m': Mem, a: Rect, shapes: seq<Shape>, k: nat)
    requires Fits(g, m) && |m'| == |m| && OnScreen(g, a)
    requires forall s :: s in shapes ==> CanDraw(g, a, s)
    requires exists s :: s in shapes && s.Box(a) == a
    requires k < |m| && Covers(g, a, k)
    ensures DrawAll(g, m, a, shapes)[k] == DrawAll(g, m', a, shapes)[k]
  {
    var n := |shapes| - 1;
    if !Covers(g, shapes[n].Box(a), k) {
      assert shapes == shapes[..n] + [shapes[n]];
      HiddenBelow(g, m, m', a, shapes[..n], k);
    }
  }

  // ---------------------------------------------------------------- what rendering means

  ghost function SceneRender(s: Scene, i: nat, area: Rect, picture: Mem): Scene
    requires i < |s.panes|
  {
    s.(panes := s.panes[i := s.panes[i].(area := area, content := Some(picture))])
  }

  // What the foreground buffer receives.
  function Picture(g: Geometry, m: Mem, w: Win, wm: Wm, shapes: seq<Shape>): Mem
    requires Fits(g, m) && CanRender(g, m, w, wm, shapes)
  {
    var w2 := Measured(g, m, w, wm, shapes);
    Grab(g, DrawAll(g, HideWin(g, m, w).0, w2.Area(), shapes), w2.Area())
  }

  predicate Within(shapes: seq<Shape>) {
    forall s :: s in shapes ==> 0 <= s.x && 0 <= s.y
  }

  // Rendering draws over the screen and takes it all back.
  lemma RenderTakesBack(g: Geometry, m: Mem, w: Win, wm: Wm, shapes: seq<Shape>)
    requires Fits(g, m) && WinOk(g, w) && CanRender(g, m, w, wm, shapes) && Within(shapes)
    ensures var w2 := Measured(g, m, w, wm, shapes);
      var m1 := HideWin(g, m, w).0;
      Blit(g, DrawAll(g, m1, w2.Area(), shapes), w2.Area(), Grab(g, m1, w2.Area())) == m1
  {
    var w2 := Measured(g, m, w, wm, shapes);
    var m1 := HideWin(g, m, w).0;
    RenderMeasures(g, m, w, wm, shapes);
    forall k | 0 <= k < |m| && !Covers(g, w2.Area(), k)
      ensures DrawAll(g, m1, w2.Area(), shapes)[k] == m1[k]
    {
      DrawInside(g, m1, w2.Area(), shapes, k);
    }
    SaveChangeRestore(g, m1, DrawAll(g, m1, w2.Area(), shapes), w2.Area());
  }

  /**
   Rendering a window, shown or hidden, at a place that is free for its new size: the base and the
   other windows stay, and this window shows its new picture at exactly the measured size.
   */
  lemma RenderRefines(g: Geometry, d: Desktop, i: nat, wm: Wm, shapes: seq<Shape>)
    requires Inv(g, d) && i < |d.wins| && Within(shapes)
    requires CanRender(g, d.m, d.wins[i], wm, shapes)
    requires d.wins[i].visible ==> FreePlace(d, i, Measured(g, d.m, d.wins[i], wm, shapes).Area())
    ensures var d' := With(d, i, RenderWin(g, d.m, d.wins[i], wm, shapes));
      && Inv(g, d')
      && Meaning(g, d') == SceneRender(Meaning(g, d), i, Measured(g, d.m, d.wins[i], wm, shapes).Area(),
                                       Picture(g, d.m, d.wins[i], wm, shapes))
  {
    var w := d.wins[i];
    var w2 := Measured(g, d.m, w, wm, shapes);
    var w3 := w2.(pseudo := false, bg := None, fg := Some(Picture(g, d.m, w, wm, shapes)));
    var d1 := With(d, i, HideWin(g, d.m, w));
    var d2 := With(d1, i, (d1.m, w3));
    RenderMeasures(g, d.m, w, wm, shapes);
    RenderTakesBack(g, d.m, w, wm, shapes);
    HideRefines(g, d, i);
    HiddenChange(g, d1, i, w3);
    var d' := With(d, i, RenderWin(g, d.m, w, wm, shapes));
    if w.visible {
      ShowRefines(g, d2, i);
      assert d' == With(d2, i, ShowWin(g, d2.m, w3));
    } else {
      assert d' == d2;
    }
    assert Meaning(g, d').panes ==
      SceneRender(Meaning(g, d), i, w2.Area(), Picture(g, d.m, w, wm, shapes)).panes;
  }

  // ---------------------------------------------------------------- what the picture shows

  // Pixel (x, y) of the window lies in the shape's box.
  predicate Touches(s: Shape, x: int, y: int) {
    s.x <= x <= s.x + s.xMax && s.y <= y <= s.y + s.yMax
  }

  // The last shape of the list over a pixel, or -1.
  function Top(shapes: seq<Shape>, x: int, y: int): (n: int)
    ensures -1 <= n < |shapes| && (n >= 0 ==> Touches(shapes[n], x, y))
    ensures forall l :: n < l < |shapes| ==> !Touches(shapes[l], x, y)
  {
    if shapes == [] then -1
    else if Touches(shapes[|shapes| - 1], x, y) then |shapes| - 1
    else Top(shapes[..|shapes| - 1], x, y)
  }

  lemma TopIs(shapes: seq<Shape>, x: int, y: int, n: nat)
    requires n < |shapes| && Touches(shapes[n], x, y)
    requires forall l :: n < l < |shapes| ==> !Touches(shapes[l], x, y)
    ensures Top(shapes, x, y) == n
  {
  }

  // Byte `b` of the ink a shape leaves on pixel (x, y) of the window.
  function InkAt(bpp: int, s: Shape, x: int, y: int, b: int): int {
    ((y - s.y) * (s.xMax + 1) + (x - s.x)) * bpp + b
  }

  // A byte `v` of pixel (x, y) is that of the last shape over the pixel, or the one below if there is none.
  predicate Inked(bpp: int, shapes: seq<Shape>, x: int, y: int, b: int, below: Byte, v: Byte) {
    var n := Top(shapes, x, y);
    if n < 0 then v == below
    else
      var at := InkAt(bpp, shapes[n], x, y, b);
      0 <= at < |shapes[n].ink| && v == shapes[n].ink[at]
  }

  lemma {:induction false} DrawnPixel(g: Geometry, m: Mem, a: Rect, shapes: seq<Shape>, x: int, y: int, b: int)
    requires Fits(g, m) && (forall s :: s in shapes ==> CanDraw(g, a, s))
    requires 0 <= a.x1 + x < g.xres && 0 <= a.y1 + y < g.yres && 0 <= b < g.bpp
    ensures 0 <= ScreenAt(g, a.x1 + x, a.y1 + y, b) < |m|
    ensures var at := ScreenAt(g, a.x1 + x, a.y1 + y, b);
      Inked(g.bpp, shapes, x, y, b, m[at], DrawAll(g, m, a, shapes)[at])
  {
    ScreenPixel(g, a.x1 + x, a.y1 + y, b);
    if shapes != [] {
      var n := |shapes| - 1;
      var s := shapes[n];
      assert s in shapes && CanDraw(g, a, s);
      BlitPixel(g, DrawAll(g, m, a, shapes[..n]), s.Box(a), s.ink, a.x1 + x, a.y1 + y, b);
      DrawnPixel(g, m, a, shapes[..n], x, y, b);
      assert HasPixel(s.Box(a), a.x1 + x, a.y1 + y) <==> Touches(s, x, y);
      assert PictureAt(g.bpp, s.Box(a), a.x1 + x, a.y1 + y, b) == InkAt(g.bpp, s, x, y, b);
    }
  }

  // Byte `b` of pixel (x, y) in the picture of a window of width `w`.
  function PaneAt(bpp: int, w: int, x: int, y: int, b: int): int { (y * (w + 1) + x) * bpp + b }

  /** What the foreground buffer receives: every pixel of the window from the last shape over it, and from
      the screen below the window where there is none. */
  lemma PicturePixels(g: Geometry, m: Mem, w: Win, wm: Wm, shapes: seq<Shape>, x: int, y: int, b: int)
    requires Fits(g, m) && CanRender(g, m, w, wm, shapes)
    requires var r := Measured(g, m, w, wm, shapes); 0 <= x <= r.w && 0 <= y <= r.h && 0 <= b < g.bpp
    ensures var r := Measured(g, m, w, wm, shapes);
      var c, at, from := Picture(g, m, w, wm, shapes), PaneAt(g.bpp, r.w, x, y, b), ScreenAt(g, r.x + x, r.y + y, b);
      && 0 <= at < |c| == (r.h + 1) * ((r.w + 1) * g.bpp) && 0 <= from < |m|
      && Inked(g.bpp, shapes, x, y, b, HideWin(g, m, w).0[from], c[at])
  {
    var r := Measured(g, m, w, wm, shapes);
    var m1 := HideWin(g, m, w).0;
    DrawnPixel(g, m1, r.Area(), shapes, x, y, b);
    GrabPixel(g, DrawAll(g, m1, r.Area(), shapes), r.Area(), r.x + x, r.y + y, b);
    assert PictureAt(g.bpp, r.Area(), r.x + x, r.y + y, b) == PaneAt(g.bpp, r.w, x, y, b);
  }

  // Byte `b` of pixel (x, y) of the picture `c` is that of the last shape over the pixel.
  ghost predicate FromShapes(bpp: int, shapes: seq<Shape>, w: int, c: Mem, x: int, y: int, b: int) {
    var at := PaneAt(bpp, w, x, y, b);
    0 <= at < |c| && Inked(bpp, shapes, x, y, b, c[at], c[at])
  }

  // `c` is a picture of the shapes: as large as they ask for, and theirs wherever there is one.
  ghost predicate Portrays(bpp: int, shapes: seq<Shape>, w: int, h: int, c: Mem) {
    && IsExtent(shapes, w, h) && |c| == (h + 1) * ((w + 1) * bpp)
    && forall x: int, y: int, b: int ::
      0 <= x <= w && 0 <= y <= h && 0 <= b < bpp ==> FromShapes(bpp, shapes, w, c, x, y, b)
  }

  /** So the foreground buffer receives a picture of the shapes. */
  lemma PicturePortrays(g: Geometry, m: Mem, w: Win, wm: Wm, shapes: seq<Shape>)
    requires Fits(g, m) && WinOk(g, w) && CanRender(g, m, w, wm, shapes)
    ensures var r := Measured(g, m, w, wm, shapes);
      Portrays(g.bpp, shapes, r.w, r.h, Picture(g, m, w, wm, shapes))
  {
    var r, c := Measured(g, m, w, wm, shapes), Picture(g, m, w, wm, shapes);
    RenderMeasures(g, m, w, wm, shapes);
    forall x: int, y: int, b: int | 0 <= x <= r.w && 0 <= y <= r.h && 0 <= b < g.bpp
      ensures FromShapes(g.bpp, shapes, r.w, c, x, y, b)
    {
      PicturePixels(g, m, w, wm, shapes, x, y, b);
    }
    PicturePixels(g, m, w, wm, shapes, 0, 0, 0);
  }

  /** Shapes of which one fills the window have one picture, wherever and over whatever it is drawn. */
  lemma PortraitUnique(bpp: nat, shapes: seq<Shape>, w: int, h: int, c: Mem, w': int, h': int, c': Mem)
    requires Portrays(bpp, shapes, w, h, c) && Portrays(bpp, shapes, w', h', c') && 0 < bpp
    requires exists s :: s in shapes && s.x <= 0 && s.y <= 0 && w <= s.x + s.xMax && h <= s.y + s.yMax
    ensures w == w' && h == h' && c == c'
  {
    ExtentUnique(shapes, w, h, w', h');
    forall k | 0 <= k < |c|
      ensures c[k] == c'[k]
    {
      PaneByte(bpp, w, h, k);
      var x, y, b := k / bpp % (w + 1), k / bpp / (w + 1), k % bpp;
      assert FromShapes(bpp, shapes, w, c, x, y, b) && FromShapes(bpp, shapes, w, c', x, y, b);
      assert Top(shapes, x, y) >= 0;
    }
  }

  lemma PaneByte(bpp: nat, w: nat, h: nat, k: nat)
    requires 0 < bpp && k < (h + 1) * ((w + 1) * bpp)
    ensures var x, y, b := k / bpp % (w + 1), k / bpp / (w + 1), k % bpp;
      0 <= x <= w && 0 <= y <= h && 0 <= b < bpp && PaneAt(bpp, w, x, y, b) == k
  {
    Regrouped(h + 1, w + 1, bpp);
    DivBounds(k, bpp, 0, (h + 1) * (w + 1));
    DivBounds(k / bpp, w + 1, 0, h + 1);
  }

  lemma Regrouped(a: int, b: int, c: int)
    ensures a * (b * c) == a * b * c
  {
  }

  // ---------------------------------------------------------------- resizing a visible window

  ghost function SceneResize(s: Scene, i: nat, area: Rect, n: nat): Scene
    requires i < |s.panes| && s.panes[i].content.Some? && n <= |s.panes[i].content.value|
  {
    s.(panes := s.panes[i := s.panes[i].(area := area, content := Some(s.panes[i].content.value[..n]))])
  }

  /** wh on a visible window, at a free place for the new size: the base and the other windows stay, and
      the window shows the first bytes of its old picture, as many as the new size takes. */
  lemma ResizeRefines(g: Geometry, d: Desktop, i: nat, wm: Wm, width: nat, height: nat)
    requires Inv(g, d) && i < |d.wins| && d.wins[i].visible && !d.wins[i].pseudo
    requires CanResize(g, d.wins[i], wm, width, height)
    requires FreePlace(d, i, Sized(d.wins[i], wm, width, height).Area())
    ensures Size(g, Sized(d.wins[i], wm, width, height).Area()) >= 0
    ensures var d' := With(d, i, ResizeWin(g, d.m, d.wins[i], wm, width, height));
      var area := Sized(d.wins[i], wm, width, height).Area();
      && Inv(g, d')
      && Meaning(g, d') == SceneResize(Meaning(g, d), i, area, Size(g, area))
  {
    var w := d.wins[i];
    var area := Sized(w, wm, width, height).Area();
    RectIsPositive(g, area);
    var pic := Grab(g, d.m, w.Area());
    var d1 := With(d, i, HideWin(g, d.m, w));
    HideRefines(g, d, i);
    var w1 := d1.wins[i];
    var w2 := Sized(w1, wm, width, height);
    var w3 := w2.(fg := Some(pic[..Size(g, area)]));
    assert w2.Area() == area && w1.fg == Some(pic);
    ShowSame(g, d1.m, w2, pic);
    HiddenChange(g, d1, i, w3);
    var d2 := With(d1, i, (d1.m, w3));
    ShowRefines(g, d2, i);
    var d' := With(d, i, ResizeWin(g, d.m, w, wm, width, height));
    assert d' == With(d2, i, ShowWin(g, d2.m, w3));
    assert Meaning(g, d').panes == SceneResize(Meaning(g, d), i, area, Size(g, area)).panes;
  }

  // Showing reads no more of the buffer than the size takes.
  lemma ShowSame(g: Geometry, m: Mem, w: Win, pic: Mem)
    requires Fits(g, m) && !w.visible && w.fg == Some(pic) && CanShow(g, w)
    requires 0 <= Size(g, w.Area())
    ensures CanShow(g, w.(fg := Some(pic[..Size(g, w.Area())])))
    ensures ShowWin(g, m, w) == ShowWin(g, m, w.(fg := Some(pic[..Size(g, w.Area())])))
  {
    var cut := pic[..Size(g, w.Area())];
    assert cut[..Size(g, w.Area())] == cut;
  }

  // Byte `t` of line `j` of a picture with lines of `n` bytes.
  function PictureByte(c: Mem, n: nat, j: nat, t: nat): Byte {
    if j * n + t < |c| then c[j * n + t] else 0
  }

  // Two pictures agree on the top left corner that both have.
  ghost predicate SameCorner(c: Mem, n: nat, c': Mem, n': nat, lines: nat) {
    forall j: nat, t: nat :: j < lines && t < n && t < n' ==> PictureByte(c', n', j, t) == PictureByte(c, n, j, t)
  }

  lemma CutCorner(c: Mem, n: nat, n': nat, lines: nat, lines': nat)
    requires |c| == lines * n && lines' * n' <= |c|
    ensures var common := Min(lines, lines');
      SameCorner(c, n, c[..lines' * n'], n', common) <==> SameCorner(c, n, c, n', common)
  {
    forall j: nat, t: nat | j < Min(lines, lines') && t < n && t < n'
      ensures PictureByte(c[..lines' * n'], n', j, t) == PictureByte(c, n', j, t)
    {
      Lines(j, lines', n');
    }
  }

  /** The first bytes of every picture, read at the new line length, agree with it where both have
      bytes, if and only if the lines are as long as before or only one line is common. */
  lemma CornerExactly(n: nat, n': nat, lines: nat, lines': nat)
    requires 0 < n && 0 < n' && 0 < lines && 0 < lines' && lines' * n' <= lines * n
    ensures (forall c: Mem :: |c| == lines * n ==> SameCorner(c, n, c[..lines' * n'], n', Min(lines, lines'))) <==>
      n == n' || Min(lines, lines') == 1
  {
    if n == n' || Min(lines, lines') == 1 {
      forall c: Mem | |c| == lines * n
        ensures SameCorner(c, n, c[..lines' * n'], n', Min(lines, lines'))
      {
        CutCorner(c, n, n', lines, lines');
      }
    } else {
      SecondLineMoves(n, n', lines, lines');
      var c := SecondLineMark(n, lines * n);
      assert !SameCorner(c, n, c[..lines' * n'], n', Min(lines, lines'));
    }
  }

  // A picture that is black but for the first byte of its second line.
  function SecondLineMark(n: nat, size: nat): (c: Mem)
    ensures |c| == size
  {
    seq(size, k => if k == n then 1 else 0)
  }

  lemma SecondLineMoves(n: nat, n': nat, lines: nat, lines': nat)
    requires 0 < n && 0 < n' && n != n' && 1 < lines && 1 < lines' && lines' * n' <= lines * n
    ensures var c := SecondLineMark(n, lines * n);
      !SameCorner(c, n, c[..lines' * n'], n', Min(lines, lines'))
  {
    MulMono(2, lines, n);
    MulMono(2, lines', n');
    var c := SecondLineMark(n, lines * n);
    assert PictureByte(c, n, 1, 0) == 1;
    assert PictureByte(c[..lines' * n'], n', 1, 0) == 0;
  }

  // The part of a visible window's picture that its old and its new size both have is the same after wh.
  ghost predicate ResizeSurvives(g: Geometry, m: Mem, w: Win, wm: Wm, width: int, height: int)
    requires Fits(g, m) && w.visible && CanResize(g, w, wm, width, height)
  {
    var a, b := w.Area(), Sized(w, wm, width, height).Area();
    RectIsPositive(g, a);
    RectIsPositive(g, b);
    SameCorner(Grab(g, m, a), RowLen(g, a), Grab(g, ResizeWin(g, m, w, wm, width, height).0, b), RowLen(g, b),
               Min(w.h, height) + 1)
  }

  lemma ResizeShows(g: Geometry, m: Mem, w: Win, wm: Wm, width: int, height: int)
    requires Fits(g, m) && w.visible && CanResize(g, w, wm, width, height)
    ensures var a, b := w.Area(), Sized(w, wm, width, height).Area();
      && 0 <= Size(g, b) <= Size(g, a)
      && Grab(g, ResizeWin(g, m, w, wm, width, height).0, b) == Grab(g, m, a)[..Size(g, b)]
  {
    var b := Sized(w, wm, width, height).Area();
    RectIsPositive(g, b);
    var (m1, w1) := HideWin(g, m, w);
    assert Sized(w1, wm, width, height).Area() == b;
    GrabBlit(g, m1, b, Grab(g, m, w.Area())[..Size(g, b)]);
  }

  lemma ResizeCuts(g: Geometry, m: Mem, w: Win, wm: Wm, width: int, height: int, n: nat, n': nat)
    requires Fits(g, m) && w.visible && CanResize(g, w, wm, width, height) && 0 <= w.h && 0 <= height
    requires n == RowLen(g, w.Area()) && n' == RowLen(g, Sized(w, wm, width, height).Area())
    ensures var c, cut := Grab(g, m, w.Area()), (height + 1) * n';
      && 0 <= cut <= |c| == (w.h + 1) * n
      && (ResizeSurvives(g, m, w, wm, width, height) <==> SameCorner(c, n, c[..cut], n', Min(w.h + 1, height + 1)))
  {
    ResizeShows(g, m, w, wm, width, height);
  }

  /** So a visible window that is resized keeps, on every screen, the part of its picture that both sizes
      have, if and only if its width stays or one of the two sizes has a single line. */
  lemma ResizeKeepsPicture(g: Geometry, w: Win, wm: Wm, width: int, height: int)
    requires g.Valid() && w.visible && CanResize(g, w, wm, width, height)
    ensures (forall m :: Fits(g, m) ==> ResizeSurvives(g, m, w, wm, width, height)) <==>
      width == w.w || Min(height, w.h) == 0
  {
    var a, b := w.Area(), Sized(w, wm, width, height).Area();
    RectIsPositive(g, a);
    RectIsPositive(g, b);
    var n, n', lines, lines' := RowLen(g, a), RowLen(g, b), w.h + 1, height + 1;
    assert Size(g, a) == lines * n && Size(g, b) == lines' * n';
    SameRowLen(g, w.w, width);
    CornerExactly(n, n', lines, lines');
    if n == n' || Min(lines, lines') == 1 {
      forall m | Fits(g, m)
        ensures ResizeSurvives(g, m, w, wm, width, height)
      {
        ResizeCuts(g, m, w, wm, width, height, n, n');
      }
    } else {
      var c: Mem :| |c| == lines * n && !SameCorner(c, n, c[..lines' * n'], n', Min(lines, lines'));
      var m := ScreenOf(g, a, c);
      ResizeCuts(g, m, w, wm, width, height, n, n');
      assert !ResizeSurvives(g, m, w, wm, width, height);
    }
  }

  // A screen with a given picture in a rectangle.
  function ScreenOf(g: Geometry, r: Rect, c: Mem): (m: Mem)
    requires g.Valid() && OnScreen(g, r) && |c| == Size(g, r)
    ensures Fits(g, m) && Grab(g, m, r) == c
  {
    var black := seq(g.stride * g.yres, _ => 0);
    GrabBlit(g, black, r, c);
    Blit(g, black, r, c)
  }

  lemma SameRowLen(g: Geometry, w: int, w': int)
    requires g.Valid()
    ensures (w + 1) * g.bpp == (w' + 1) * g.bpp <==> w == w'
  {
    if w < w' {
      MulMono(w + 2, w' + 1, g.bpp);
    } else if w' < w {
      MulMono(w' + 2, w + 1, g.bpp);
    }
  }

  // Window `i` is in order, shown, and may be resized at a place free for the new size, and its picture
  // does not survive that.
  ghost predicate Mangles(g: Geometry, d: Desktop, i: nat, wm: Wm, width: int, height: int) {
    && Inv(g, d) && i < |d.wins| && d.wins[i].visible
    && CanResize(g, d.wins[i], wm, width, height)
    && FreePlace(d, i, Sized(d.wins[i], wm, width, height).Area())
    && !ResizeSurvives(g, d.m, d.wins[i], wm, width, height)
  }

  // A shown window of two by two pixels.
  function SmallWin(): Win { Win(true, 0, 0, 1, 1, false, Some([0, 0, 0, 0]), None) }

  /** Such a window, alone on its screen, narrowed to one pixel's width. */
  lemma ResizeCanFail()
    ensures Mangles(Geometry(2, 2, 2, 1), Desktop([1, 2, 3, 4], [SmallWin()]), 0, NoWm, 0, 1)
  {
    Narrowed(Geometry(2, 2, 2, 1), Desktop([1, 2, 3, 4], [SmallWin()]));
  }

  lemma Narrowed(g: Geometry, d: Desktop)
    requires g.xres == g.yres == g.stride == 2 && g.bpp == 1 && |d.m| == 4 && d.m[1] != d.m[2]
    requires |d.wins| == 1 && d.wins[0].bg.Some? && |d.wins[0].bg.value| == 4
    requires d.wins[0] == Win(true, 0, 0, 1, 1, false, d.wins[0].bg, None)
    ensures Mangles(g, d, 0, NoWm, 0, 1)
  {
    var w := d.wins[0];
    SmallPicture(g, d.m);
    assert w.Area() == Rect(0, 0, 1, 1) && Sized(w, NoWm, 0, 1).Area() == Rect(0, 0, 0, 1);
    assert WinOk(g, w) && CanResize(g, w, NoWm, 0, 1);
    SecondLineDiffers(g, d, 0, NoWm, 0, 1, 2, 1);
  }

  lemma SmallPicture(g: Geometry, m: Mem)
    requires g.xres == g.yres == g.stride == 2 && g.bpp == 1 && |m| == 4
    ensures var a, b := Rect(0, 0, 1, 1), Rect(0, 0, 0, 1);
      && Fits(g, m) && OnScreen(g, a) && OnScreen(g, b)
      && RowLen(g, a) == 2 && Size(g, a) == 4 && RowLen(g, b) == 1 && Size(g, b) == 2
      && Grab(g, m, a)[1] == m[1] && Grab(g, m, a)[2] == m[2]
  {
    var a := Rect(0, 0, 1, 1);
    assert RowLen(g, a) == 2 && Size(g, a) == 4;
    GrabPixel(g, m, a, 1, 0, 0);
    GrabPixel(g, m, a, 0, 1, 0);
  }

  // The second line of the resized picture starts with another byte than that of the old one.
  lemma SecondLineDiffers(g: Geometry, d: Desktop, i: nat, wm: Wm, width: int, height: int, n: nat, n': nat)
    requires Inv(g, d) && i < |d.wins| && d.wins[i].visible && CanResize(g, d.wins[i], wm, width, height)
    requires FreePlace(d, i, Sized(d.wins[i], wm, width, height).Area()) && 0 < d.wins[i].h && 0 < height
    requires n == RowLen(g, d.wins[i].Area()) && n' == RowLen(g, Sized(d.wins[i], wm, width, height).Area())
    requires n < Size(g, d.wins[i].Area()) && n' < Size(g, Sized(d.wins[i], wm, width, height).Area())
    requires n' < Size(g, d.wins[i].Area()) && Grab(g, d.m, d.wins[i].Area())[n] != Grab(g, d.m, d.wins[i].Area())[n']
    ensures Mangles(g, d, i, wm, width, height)
  {
    var w := d.wins[i];
    ResizeShows(g, d.m, w, wm, width, height);
    var a, b := w.Area(), Sized(w, wm, width, height).Area();
    RectIsPositive(g, a);
    RectIsPositive(g, b);
    var c, c' := Grab(g, d.m, a), Grab(g, ResizeWin(g, d.m, w, wm, width, height).0, b);
    assert PictureByte(c, n, 1, 0) == c[n];
    assert PictureByte(c', n', 1, 0) == c'[n'];
  }

  // ---------------------------------------------------------------- the three widgets

  // Status::draw: two texts side by side, each in a box, over a filled rectangle.
  function StatusShapes(tx: nat, t2x: nat, font: nat, ink: seq<Mem>): seq<Shape>
    requires |ink| == 5
  {
    [Shape(0, 0, tx + t2x + 6, font + 3, ink[0]),
     Shape(0, 0, tx + 3, font + 3, ink[1]),
     Shape(3 + tx, 0, t2x + 3, font + 3, ink[2]),
     Shape(3, 3, tx, font, ink[3]),
     Shape(3 + tx + 3, 3, t2x, font, ink[4])]
  }

  // Preedit::draw and LookupChoice::draw: `rows` lines of text in a box, nothing when empty.
  function ListShapes(tx: nat, rows: nat, font: nat, ink: seq<Mem>): seq<Shape>
    requires |ink| == 3
  {
    var border := if rows > 0 then 3 else 0;
    [Shape(0, 0, tx + border, font * rows + border, ink[0]),
     Shape(0, 0, tx + border, font * rows + border, ink[1]),
     Shape(border, border, tx, font * rows, ink[2])]
  }

  /** The status window is always font + 3 high, and its first shape fills it. */
  lemma StatusExtent(tx: nat, t2x: nat, font: nat, ink: seq<Mem>)
    requires |ink| == 5
    ensures var s := StatusShapes(tx, t2x, font, ink);
      && IsExtent(s, tx + t2x + 6, font + 3)
      && Within(s)
      && (s[0].x, s[0].y, s[0].xMax, s[0].yMax) == (0, 0, tx + t2x + 6, font + 3)
  {
    var s := StatusShapes(tx, t2x, font, ink);
    assert s[0] in s;
  }

  /** Which shape a pixel of the status window is from: each text is whole, framed on all sides where the
      frames are, and the filled rectangle is nowhere to be seen. */
  lemma StatusPixels(tx: nat, t2x: nat, font: nat, ink: seq<Mem>, x: int, y: int)
    requires |ink| == 5 && 0 <= x <= tx + t2x + 6 && 0 <= y <= font + 3
    ensures var n := Top(StatusShapes(tx, t2x, font, ink), x, y);
      n == if y >= 3 && 3 <= x <= 3 + tx then 3 else if y >= 3 && 6 + tx <= x then 4
           else if 3 + tx <= x then 2 else 1
  {
    var s := StatusShapes(tx, t2x, font, ink);
    TopIs(s, x, y, if y >= 3 && 3 <= x <= 3 + tx then 3 else if y >= 3 && 6 + tx <= x then 4
                   else if 3 + tx <= x then 2 else 1);
  }

  /** The preedit window has at most one line, so both stay within what PlacementsNeverMeet needs. */
  lemma ListExtent(tx: nat, rows: nat, font: nat, ink: seq<Mem>)
    requires |ink| == 3
    ensures var s := ListShapes(tx, rows, font, ink);
      var border := if rows > 0 then 3 else 0;
      && IsExtent(s, tx + border, font * rows + border)
      && Within(s)
      && (s[0].x, s[0].y, s[0].xMax, s[0].yMax) == (0, 0, tx + border, font * rows + border)
      && (rows <= 1 ==> font * rows + border <= font + 7)
  {
    var s := ListShapes(tx, rows, font, ink);
    assert s[0] in s;
  }

  /** And of the other two: the text wherever it reaches, and its frame around it. */
  lemma ListPixels(tx: nat, rows: nat, font: nat, ink: seq<Mem>, x: int, y: int)
    requires |ink| == 3
    requires var border := if rows > 0 then 3 else 0; 0 <= x <= tx + border && 0 <= y <= font * rows + border
    ensures var border := if rows > 0 then 3 else 0;
      Top(ListShapes(tx, rows, font, ink), x, y) == if border <= x && border <= y then 2 else 1
  {
    var s := ListShapes(tx, rows, font, ink);
    var border := if rows > 0 then 3 else 0;
    assert Touches(s[1], x, y);
    assert Touches(s[2], x, y) <==> border <= x && border <= y;
    TopIs(s, x, y, if border <= x && border <= y then 2 else 1);
  }
}
