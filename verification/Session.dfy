/**
 The window manager: focus, cursor moves and refresh brackets over all attached windows, and what
 whole runs of them keep.
 */
module Session {
  import opened Basics
  import opened Raster
  import opened Overlay
  import opened Placement
  import opened Rendering

  // The manager's fields, and the windows of its map in the order the map iterates over them.
  datatype Cwm = Cwm(g: Geometry, cursorX: int, cursorY: int, focus: bool, gaps: seq<Gaps>, d: Desktop) {
    function Sight(): View { View(g.xres, g.yres, cursorX, cursorY) }

    function WmOf(i: nat): Wm
      requires i < |gaps|
    {
      Managed(Sight(), gaps[i])
    }

    function PlaceOf(i: nat): Rect
      requires i < |gaps| && i < |d.wins|
    {
      PlacedArea(Sight(), gaps[i], d.wins[i].w, d.wins[i].h)
    }
  }

  // ---------------------------------------------------------------- the code's loops

  // The first `n` windows shown, one after the other ...
  function ShowUpTo(g: Geometry, d: Desktop, n: nat): (r: Desktop)
    requires Fits(g, d.m) && n <= |d.wins|
    requires forall i :: 0 <= i < n && !d.wins[i].visible ==> CanShow(g, d.wins[i])
    ensures |r.m| == |d.m| && |r.wins| == |d.wins|
    ensures forall i :: n <= i < |d.wins| ==> r.wins[i] == d.wins[i]
  {
    if n == 0 then d else
    var d1 := ShowUpTo(g, d, n - 1);
    With(d1, n - 1, ShowWin(g, d1.m, d1.wins[n - 1]))
  }

  // ... hidden ...
  function HideUpTo(g: Geometry, d: Desktop, n: nat): (r: Desktop)
    requires Fits(g, d.m) && n <= |d.wins|
    requires forall i :: 0 <= i < n && d.wins[i].visible ==> CanHide(g, d.wins[i])
    ensures |r.m| == |d.m| && |r.wins| == |d.wins|
    ensures forall i :: n <= i < |d.wins| ==> r.wins[i] == d.wins[i]
  {
    if n == 0 then d else
    var d1 := HideUpTo(g, d, n - 1);
    With(d1, n - 1, HideWin(g, d1.m, d1.wins[n - 1]))
  }

  // ... or sent to their places.
  function MoveUpTo(g: Geometry, v: View, gaps: seq<Gaps>, d: Desktop, n: nat): (r: Desktop)
    requires Fits(g, d.m) && n <= |d.wins| == |gaps|
    requires forall i :: 0 <= i < n ==> CanPlace(g, v, gaps[i], d.wins[i])
    ensures |r.m| == |d.m| && |r.wins| == |d.wins|
    ensures forall i :: n <= i < |d.wins| ==> r.wins[i] == d.wins[i]
  {
    if n == 0 then d else
    var d1 := MoveUpTo(g, v, gaps, d, n - 1);
    var w := d1.wins[n - 1];
    assert CanPlace(g, v, gaps[n - 1], d.wins[n - 1]) && w == d.wins[n - 1];
    var (x, y) := Place(v, gaps[n - 1], w.w, w.h);
    With(d1, n - 1, MoveWin(g, d1.m, w, x, y))
  }

  predicate CanPlace(g: Geometry, v: View, s: Gaps, w: Win) {
    var (x, y) := Place(v, s, w.w, w.h);
    CanMove(g, w, x, y)
  }

  predicate CanFocus(c: Cwm, focus: bool) {
    && Fits(c.g, c.d.m)
    && forall i :: 0 <= i < |c.d.wins| ==>
      if focus then (!c.d.wins[i].visible ==> CanShow(c.g, c.d.wins[i]))
      else (c.d.wins[i].visible ==> CanHide(c.g, c.d.wins[i]))
  }

  // Cwm::set_focus
  function SetFocus(c: Cwm, focus: bool): Cwm
    requires CanFocus(c, focus)
  {
    if focus == c.focus || c.d.wins == [] then c else
    var n := |c.d.wins|;
    c.(focus := focus, d := if focus then ShowUpTo(c.g, c.d, n) else HideUpTo(c.g, c.d, n))
  }

  predicate CanPosition(c: Cwm, x: int, y: int) {
    && Fits(c.g, c.d.m) && |c.gaps| == |c.d.wins|
    && forall i :: 0 <= i < |c.d.wins| ==> CanPlace(c.g, View(c.g.xres, c.g.yres, x, y), c.gaps[i], c.d.wins[i])
  }

  // Cwm::set_position
  function SetPosition(c: Cwm, x: int, y: int): Cwm
    requires CanPosition(c, x, y)
  {
    if x == c.cursorX && y == c.cursorY then c else
    var c1 := c.(cursorX := x, cursorY := y);
    c1.(d := MoveUpTo(c.g, c1.Sight(), c.gaps, c.d, |c.d.wins|))
  }

  predicate CanDrawWidget(c: Cwm, i: nat, shapes: seq<Shape>) {
    && Fits(c.g, c.d.m) && |c.gaps| == |c.d.wins| && i < |c.d.wins|
    && CanRender(c.g, c.d.m, c.d.wins[i], c.WmOf(i), shapes)
  }

  // Widget::render of one of the attached windows.
  function DrawWidget(c: Cwm, i: nat, shapes: seq<Shape>): Cwm
    requires CanDrawWidget(c, i, shapes)
  {
    c.(d := With(c.d, i, RenderWin(c.g, c.d.m, c.d.wins[i], c.WmOf(i), shapes)))
  }

  // ---------------------------------------------------------------- the invariant

  ghost predicate CwmInv(c: Cwm) {
    && Inv(c.g, c.d)
    && |c.gaps| == |c.d.wins|
    && (forall i :: 0 <= i < |c.d.wins| ==> c.d.wins[i].visible == c.focus && Placed(c.d.wins[i], c.WmOf(i)))
  }

  // Every window's place is on the screen, and no two of them meet.
  ghost predicate Roomy(c: Cwm) {
    && |c.gaps| == |c.d.wins|
    && (forall i :: 0 <= i < |c.d.wins| ==> OnScreen(c.g, c.PlaceOf(i)))
    && (forall i, j :: 0 <= i < j < |c.d.wins| ==> Disjoint(c.PlaceOf(i), c.PlaceOf(j)))
  }

  // ---------------------------------------------------------------- what the loops mean

  ghost predicate AllOnScreen(g: Geometry, s: Scene) {
    forall i :: 0 <= i < |s.panes| ==> OnScreen(g, s.panes[i].area)
  }

  // The first `n` panes visible; a pane without a picture shows what is below it.
  ghost function Unveiled(g: Geometry, s: Scene, n: nat): (r: Scene)
    requires Fits(g, s.base) && n <= |s.panes| && AllOnScreen(g, s)
    ensures |r.panes| == |s.panes|
  {
    s.(panes := seq(|s.panes|, i requires 0 <= i < |s.panes| =>
      var p := s.panes[i];
      if i < n then
        Pane(true, p.area, if p.content.Some? then p.content else Some(Grab(g, s.base, p.area)))
      else p))
  }

  ghost function Veiled(s: Scene, n: nat): (r: Scene)
    requires n <= |s.panes|
    ensures |r.panes| == |s.panes|
  {
    s.(panes := seq(|s.panes|, i requires 0 <= i < |s.panes| =>
      var p := s.panes[i]; if i < n then p.(visible := false) else p))
  }

  ghost function Rearranged(s: Scene, places: seq<Rect>, n: nat): (r: Scene)
    requires n <= |s.panes| == |places|
    ensures |r.panes| == |s.panes|
  {
    s.(panes := seq(|s.panes|, i requires 0 <= i < |s.panes| =>
      var p := s.panes[i]; if i < n then p.(area := places[i]) else p))
  }

  ghost predicate AllApart(s: Scene) {
    forall i, j :: 0 <= i < j < |s.panes| ==> Disjoint(s.panes[i].area, s.panes[j].area)
  }

  lemma UnveiledNone(g: Geometry, s: Scene)
    requires Fits(g, s.base) && AllOnScreen(g, s)
    ensures Unveiled(g, s, 0) == s
  {
    assert Unveiled(g, s, 0).panes == s.panes;
  }

  lemma UnveiledStep(g: Geometry, s: Scene, n: nat)
    requires Fits(g, s.base) && 0 < n <= |s.panes| && AllOnScreen(g, s)
    ensures SceneShow(g, Unveiled(g, s, n - 1), n - 1) == Unveiled(g, s, n)
  {
    assert SceneShow(g, Unveiled(g, s, n - 1), n - 1).panes == Unveiled(g, s, n).panes;
  }

  lemma ShowStep(g: Geometry, d: Desktop, d1: Desktop, n: nat)
    requires Inv(g, d) && Inv(g, d1) && 0 < n <= |d.wins| == |d1.wins|
    requires AllOnScreen(g, Meaning(g, d)) && AllApart(Meaning(g, d))
    requires Meaning(g, d1) == Unveiled(g, Meaning(g, d), n - 1)
    ensures !d1.wins[n - 1].visible ==> CanShow(g, d1.wins[n - 1])
    ensures var d2 := With(d1, n - 1, ShowWin(g, d1.m, d1.wins[n - 1]));
      Inv(g, d2) && Meaning(g, d2) == Unveiled(g, Meaning(g, d), n)
  {
    forall j | 0 <= j < |d1.wins|
      ensures d1.wins[j].Area() == Meaning(g, d).panes[j].area
    {
      assert Meaning(g, d1).panes[j] == Unveiled(g, Meaning(g, d), n - 1).panes[j];
    }
    assert OnScreen(g, Meaning(g, d).panes[n - 1].area);
    ShowRefines(g, d1, n - 1);
    UnveiledStep(g, Meaning(g, d), n);
  }

  lemma {:induction false} ShowUpToRefines(g: Geometry, d: Desktop, n: nat)
    requires Inv(g, d) && n <= |d.wins|
    requires AllOnScreen(g, Meaning(g, d)) && AllApart(Meaning(g, d))
    ensures forall i :: 0 <= i < n && !d.wins[i].visible ==> CanShow(g, d.wins[i])
    ensures Inv(g, ShowUpTo(g, d, n))
    ensures Meaning(g, ShowUpTo(g, d, n)) == Unveiled(g, Meaning(g, d), n)
  {
    if n == 0 {
      UnveiledNone(g, Meaning(g, d));
    } else {
      ShowUpToRefines(g, d, n - 1);
      ShowStep(g, d, ShowUpTo(g, d, n - 1), n);
    }
  }

  lemma VeiledNone(s: Scene)
    ensures Veiled(s, 0) == s
  {
    assert Veiled(s, 0).panes == s.panes;
  }

  lemma VeiledStep(s: Scene, n: nat)
    requires 0 < n <= |s.panes|
    ensures SceneHide(Veiled(s, n - 1), n - 1) == Veiled(s, n)
  {
    assert SceneHide(Veiled(s, n - 1), n - 1).panes == Veiled(s, n).panes;
  }

  lemma HideStep(g: Geometry, d: Desktop, d1: Desktop, n: nat)
    requires Inv(g, d) && Inv(g, d1) && 0 < n <= |d.wins| == |d1.wins|
    requires Meaning(g, d1) == Veiled(Meaning(g, d), n - 1)
    requires d1.wins[n - 1] == d.wins[n - 1]
    ensures d.wins[n - 1].visible ==> CanHide(g, d.wins[n - 1])
    ensures var d2 := With(d1, n - 1, HideWin(g, d1.m, d1.wins[n - 1]));
      Inv(g, d2) && Meaning(g, d2) == Veiled(Meaning(g, d), n)
  {
    HideRefines(g, d1, n - 1);
    VeiledStep(Meaning(g, d), n);
  }

  lemma {:induction false} HideUpToRefines(g: Geometry, d: Desktop, n: nat)
    requires Inv(g, d) && n <= |d.wins|
    ensures forall i :: 0 <= i < n && d.wins[i].visible ==> CanHide(g, d.wins[i])
    ensures Inv(g, HideUpTo(g, d, n))
    ensures Meaning(g, HideUpTo(g, d, n)) == Veiled(Meaning(g, d), n)
  {
    if n == 0 {
      VeiledNone(Meaning(g, d));
    } else {
      HideUpToRefines(g, d, n - 1);
      HideStep(g, d, HideUpTo(g, d, n - 1), n);
    }
  }

  // Moving window after window, each finds its place clear: of the windows that have already
  // moved and of the windows that have yet to.
  ghost predicate ClearWay(g: Geometry, d: Desktop, places: seq<Rect>)
    requires |places| == |d.wins|
  {
    && (forall i :: 0 <= i < |d.wins| && d.wins[i].visible ==> OnScreen(g, places[i]))
    && (forall i, j :: 0 <= i < j < |d.wins| && d.wins[i].visible && d.wins[j].visible ==>
      Disjoint(places[i], places[j]) && Disjoint(places[i], d.wins[j].Area()))
  }

  ghost function Places(v: View, gaps: seq<Gaps>, wins: seq<Win>): (r: seq<Rect>)
    requires |gaps| == |wins|
    ensures |r| == |wins|
  {
    seq(|wins|, i requires 0 <= i < |wins| => PlacedArea(v, gaps[i], wins[i].w, wins[i].h))
  }

  lemma RearrangedNone(s: Scene, places: seq<Rect>)
    requires |s.panes| == |places|
    ensures Rearranged(s, places, 0) == s
  {
    assert Rearranged(s, places, 0).panes == s.panes;
  }

  lemma RearrangedStep(s: Scene, places: seq<Rect>, n: nat, x: int, y: int)
    requires 0 < n <= |s.panes| == |places|
    requires var a := s.panes[n - 1].area;
      places[n - 1] == Rect(x, y, x + (a.x2 - a.x1), y + (a.y2 - a.y1))
    ensures SceneMove(Rearranged(s, places, n - 1), n - 1, x, y) == Rearranged(s, places, n)
  {
    assert SceneMove(Rearranged(s, places, n - 1), n - 1, x, y).panes == Rearranged(s, places, n).panes;
  }

  lemma WayIsClear(g: Geometry, d: Desktop, d1: Desktop, places: seq<Rect>, n: nat)
    requires Inv(g, d) && Inv(g, d1) && n < |d.wins| == |d1.wins| == |places|
    requires ClearWay(g, d, places) && d.wins[n].visible
    requires Meaning(g, d1) == Rearranged(Meaning(g, d), places, n)
    ensures FreePlace(d1, n, places[n])
  {
    forall j | 0 <= j < |d.wins| && j != n && d1.wins[j].visible
      ensures Disjoint(places[n], d1.wins[j].Area())
    {
      assert Meaning(g, d1).panes[j] == Rearranged(Meaning(g, d), places, n).panes[j];
    }
  }

  lemma {:induction false} MoveUpToRefines(g: Geometry, v: View, gaps: seq<Gaps>, d: Desktop, n: nat)
    requires Inv(g, d) && n <= |d.wins| == |gaps|
    requires ClearWay(g, d, Places(v, gaps, d.wins))
    ensures forall i :: 0 <= i < n ==> CanPlace(g, v, gaps[i], d.wins[i])
    ensures Inv(g, MoveUpTo(g, v, gaps, d, n))
    ensures Meaning(g, MoveUpTo(g, v, gaps, d, n)) == Rearranged(Meaning(g, d), Places(v, gaps, d.wins), n)
  {
    if n == 0 {
      RearrangedNone(Meaning(g, d), Places(v, gaps, d.wins));
    } else {
      MoveUpToRefines(g, v, gaps, d, n - 1);
      MoveStep(g, v, gaps, d, MoveUpTo(g, v, gaps, d, n - 1), n);
    }
  }

  lemma MoveStep(g: Geometry, v: View, gaps: seq<Gaps>, d: Desktop, d1: Desktop, n: nat)
    requires Inv(g, d) && Inv(g, d1) && 0 < n <= |d.wins| == |gaps| == |d1.wins|
    requires ClearWay(g, d, Places(v, gaps, d.wins))
    requires Meaning(g, d1) == Rearranged(Meaning(g, d), Places(v, gaps, d.wins), n - 1)
    requires d1.wins[n - 1] == d.wins[n - 1]
    ensures CanPlace(g, v, gaps[n - 1], d1.wins[n - 1])
    ensures var w := d1.wins[n - 1];
      var (x, y) := Place(v, gaps[n - 1], w.w, w.h);
      var d2 := With(d1, n - 1, MoveWin(g, d1.m, w, x, y));
      Inv(g, d2) && Meaning(g, d2) == Rearranged(Meaning(g, d), Places(v, gaps, d.wins), n)
  {
    var places := Places(v, gaps, d.wins);
    var w := d1.wins[n - 1];
    var (x, y) := Place(v, gaps[n - 1], w.w, w.h);
    assert w.At(x, y).Area() == places[n - 1];
    if w.visible {
      WayIsClear(g, d, d1, places, n - 1);
    }
    MoveRefines(g, d1, n - 1, x, y);
    assert Meaning(g, d).panes[n - 1].area == w.Area();
    RearrangedStep(Meaning(g, d), places, n, x, y);
  }

  // ---------------------------------------------------------------- what the manager keeps

  lemma SameArea(w: Win, w': Win, wm: Wm)
    requires w.Area() == w'.Area()
    ensures (w.x, w.y, w.w, w.h) == (w'.x, w'.y, w'.w, w'.h)
    ensures Placed(w, wm) ==> Placed(w', wm)
  {
  }

  // The invariant follows from what the scene says about visibility and place.
  lemma InvFromScene(c: Cwm, c': Cwm)
    requires CwmInv(c) && Inv(c'.g, c'.d)
    requires c'.g == c.g && c'.gaps == c.gaps && c'.Sight() == c.Sight() && |c'.d.wins| == |c.d.wins|
    requires forall i :: 0 <= i < |c.d.wins| ==>
      Meaning(c.g, c'.d).panes[i].area == Meaning(c.g, c.d).panes[i].area
    requires forall i :: 0 <= i < |c.d.wins| ==> Meaning(c.g, c'.d).panes[i].visible == c'.focus
    ensures CwmInv(c')
  {
    forall i | 0 <= i < |c.d.wins|
      ensures c'.d.wins[i].visible == c'.focus && Placed(c'.d.wins[i], c'.WmOf(i))
    {
      assert Meaning(c.g, c'.d).panes[i].area == Meaning(c.g, c.d).panes[i].area;
      assert Meaning(c.g, c'.d).panes[i].visible == c'.focus;
      SameArea(c.d.wins[i], c'.d.wins[i], c.WmOf(i));
    }
  }

  ghost function FocusScene(g: Geometry, s: Scene, focus: bool): (r: Scene)
    requires Fits(g, s.base) && (focus ==> AllOnScreen(g, s))
    ensures |r.panes| == |s.panes|
  {
    if focus then Unveiled(g, s, |s.panes|) else Veiled(s, |s.panes|)
  }

  // In a settled session the panes are where the manager wants them.
  lemma RoomyScene(c: Cwm)
    requires CwmInv(c) && Roomy(c)
    ensures AllOnScreen(c.g, Meaning(c.g, c.d)) && AllApart(Meaning(c.g, c.d))
  {
    forall i | 0 <= i < |c.d.wins|
      ensures Meaning(c.g, c.d).panes[i].area == c.PlaceOf(i)
    {
      assert Placed(c.d.wins[i], c.WmOf(i));
    }
  }

  /** set_focus shows or hides every window; the base and every picture stay. */
  lemma SetFocusRefines(c: Cwm, focus: bool)
    requires CwmInv(c) && (focus ==> Roomy(c))
    ensures CanFocus(c, focus)
    ensures focus ==> AllOnScreen(c.g, Meaning(c.g, c.d))
    ensures var c' := SetFocus(c, focus);
      && CwmInv(c')
      && c' == c.(focus := c'.focus, d := c'.d)
      && (c.d.wins != [] ==> c'.focus == focus)
      && Meaning(c.g, c'.d) == FocusScene(c.g, Meaning(c.g, c.d), focus)
  {
    var n := |c.d.wins|;
    var s := Meaning(c.g, c.d);
    if focus {
      RoomyScene(c);
      ShowUpToRefines(c.g, c.d, n);
    } else {
      HideUpToRefines(c.g, c.d, n);
    }
    if focus == c.focus || n == 0 {
      assert FocusScene(c.g, s, focus).panes == s.panes;
    } else {
      InvFromScene(c, SetFocus(c, focus));
    }
  }

  /** set_position sends every window to its place for the new cursor.  Hidden windows can always
      go; visible ones can when each finds its way clear. */
  lemma SetPositionRefines(c: Cwm, x: int, y: int)
    requires CwmInv(c)
    requires ClearWay(c.g, c.d, Places(View(c.g.xres, c.g.yres, x, y), c.gaps, c.d.wins))
    ensures CanPosition(c, x, y)
    ensures var c' := SetPosition(c, x, y);
      && CwmInv(c')
      && c' == c.(cursorX := x, cursorY := y, d := c'.d)
      && Meaning(c.g, c'.d) ==
        Rearranged(Meaning(c.g, c.d), Places(View(c.g.xres, c.g.yres, x, y), c.gaps, c.d.wins), |c.d.wins|)
  {
    var v := View(c.g.xres, c.g.yres, x, y);
    var n := |c.d.wins|;
    var places := Places(v, c.gaps, c.d.wins);
    MoveUpToRefines(c.g, v, c.gaps, c.d, n);
    if x == c.cursorX && y == c.cursorY {
      PlacesAreAreas(c);
      assert Rearranged(Meaning(c.g, c.d), places, n).panes == Meaning(c.g, c.d).panes;
    } else {
      MovedInv(c, SetPosition(c, x, y), places);
    }
  }

  lemma PlacesAreAreas(c: Cwm)
    requires CwmInv(c)
    ensures forall i :: 0 <= i < |c.d.wins| ==>
      Meaning(c.g, c.d).panes[i].area == Places(c.Sight(), c.gaps, c.d.wins)[i]
  {
    forall i | 0 <= i < |c.d.wins|
      ensures Meaning(c.g, c.d).panes[i].area == Places(c.Sight(), c.gaps, c.d.wins)[i]
    {
      assert Placed(c.d.wins[i], c.WmOf(i));
    }
  }

  lemma MovedInv(c: Cwm, c': Cwm, places: seq<Rect>)
    requires CwmInv(c) && Inv(c.g, c'.d) && |c'.d.wins| == |c.d.wins| == |places|
    requires c'.g == c.g && c'.gaps == c.gaps && c'.focus == c.focus
    requires places == Places(c'.Sight(), c.gaps, c.d.wins)
    requires Meaning(c.g, c'.d) == Rearranged(Meaning(c.g, c.d), places, |c.d.wins|)
    ensures CwmInv(c')
  {
    forall i | 0 <= i < |c.d.wins|
      ensures c'.d.wins[i].visible == c'.focus && Placed(c'.d.wins[i], c'.WmOf(i))
    {
      assert Meaning(c.g, c'.d).panes[i] == Rearranged(Meaning(c.g, c.d), places, |c.d.wins|).panes[i];
      assert Meaning(c.g, c.d).panes[i].visible == c.focus;
    }
  }

  /** Rendering a widget changes that widget's pane and nothing else. */
  lemma DrawWidgetRefines(c: Cwm, i: nat, shapes: seq<Shape>)
    requires CwmInv(c) && CanDrawWidget(c, i, shapes) && Within(shapes)
    requires c.focus ==> FreePlace(c.d, i, Measured(c.g, c.d.m, c.d.wins[i], c.WmOf(i), shapes).Area())
    ensures var c' := DrawWidget(c, i, shapes);
      var w := c.d.wins[i];
      && CwmInv(c')
      && c' == c.(d := c'.d)
      && Meaning(c.g, c'.d) == SceneRender(Meaning(c.g, c.d), i, Measured(c.g, c.d.m, w, c.WmOf(i), shapes).Area(),
                                           Picture(c.g, c.d.m, w, c.WmOf(i), shapes))
  {
    var w := c.d.wins[i];
    RenderRefines(c.g, c.d, i, c.WmOf(i), shapes);
    RenderMeasures(c.g, c.d.m, w, c.WmOf(i), shapes);
  }

  // ---------------------------------------------------------------- the refresh bracket

  /** With every window hidden the screen is the base. */
  lemma HiddenShowsBase(g: Geometry, d: Desktop)
    requires Inv(g, d) && forall i :: 0 <= i < |d.wins| ==> !d.wins[i].visible
    ensures Base(g, d) == d.m
  {
  }

  // The terminal paints the whole screen anew, as it pleases.
  function Repaint(c: Cwm, m: Mem): Cwm {
    c.(d := Desktop(m, c.d.wins))
  }

  lemma RepaintRefines(c: Cwm, m: Mem)
    requires CwmInv(c) && !c.focus && |m| == |c.d.m|
    ensures CwmInv(Repaint(c, m))
    ensures Meaning(c.g, Repaint(c, m).d) == Meaning(c.g, c.d).(base := m)
  {
    HiddenShowsBase(c.g, Repaint(c, m).d);
    assert Meaning(c.g, Repaint(c, m).d).panes == Meaning(c.g, c.d).panes;
  }

  // ucimf_refresh_begin, a repaint, ucimf_cursor_position, ucimf_refresh_end.
  function Bracket(c: Cwm, m: Mem, x: int, y: int): (r: Option<Cwm>) {
    if !CanFocus(c, false) then None else
    var c1 := SetFocus(c, false);
    var c2 := Repaint(c1, m);
    if !CanPosition(c2, x, y) then None else
    var c3 := SetPosition(c2, x, y);
    if !CanFocus(c3, c.focus) then None else
    Some(SetFocus(c3, c.focus))
  }

  // The same windows with the cursor elsewhere.
  function Elsewhere(c: Cwm, x: int, y: int): Cwm {
    c.(cursorX := x, cursorY := y)
  }

  /** Up to the moment the terminal may paint: the windows are gone and the base is on the screen. */
  lemma RefreshBegin(c: Cwm)
    requires CwmInv(c) && c.d.wins != []
    ensures CanFocus(c, false)
    ensures var c1 := SetFocus(c, false);
      && CwmInv(c1) && !c1.focus
      && c1.d.m == Base(c.g, c.d)
      && Meaning(c.g, c1.d) == Veiled(Meaning(c.g, c.d), |c.d.wins|)
  {
    SetFocusRefines(c, false);
    HiddenShowsBase(c.g, SetFocus(c, false).d);
  }

  lemma BracketMoves(c: Cwm, c1: Cwm, m: Mem, x: int, y: int)
    requires CwmInv(c) && CwmInv(c1) && c.d.wins != [] && |m| == |c.d.m| == |c1.d.m|
    requires c1 == c.(focus := false, d := c1.d)
    requires Meaning(c.g, c1.d) == Veiled(Meaning(c.g, c.d), |c.d.wins|)
    ensures CanPosition(Repaint(c1, m), x, y)
    ensures var c3 := SetPosition(Repaint(c1, m), x, y);
      && CwmInv(c3)
      && c3 == Elsewhere(c, x, y).(focus := false, d := c3.d)
      && |c3.d.wins| == |c.d.wins|
      && Meaning(c.g, c3.d).base == m
      && (forall i :: 0 <= i < |c.d.wins| ==>
        Meaning(c.g, c3.d).panes[i] ==
          Meaning(c.g, c.d).panes[i].(visible := false, area := Elsewhere(c, x, y).PlaceOf(i)))
  {
    RepaintRefines(c1, m);
    var c2 := Repaint(c1, m);
    SetPositionRefines(c2, x, y);
    var c3 := SetPosition(c2, x, y);
    forall i | 0 <= i < |c.d.wins|
      ensures Meaning(c.g, c3.d).panes[i] ==
          Meaning(c.g, c.d).panes[i].(visible := false, area := Elsewhere(c, x, y).PlaceOf(i))
    {
      assert Meaning(c.g, c1.d).panes[i] == Veiled(Meaning(c.g, c.d), |c.d.wins|).panes[i];
      SameArea(c.d.wins[i], c1.d.wins[i], c.WmOf(i));
    }
  }

  /**
   The refresh bracket: whatever the terminal paints and wherever the cursor goes in between, the
   bracket succeeds, and afterwards the new screen carries every window with its old picture and
   its old visibility at its new place.
   */
  lemma RefreshBracket(c: Cwm, m: Mem, x: int, y: int)
    requires CwmInv(c) && c.d.wins != [] && |m| == |c.d.m|
    requires c.focus ==> Roomy(Elsewhere(c, x, y))
    ensures Bracket(c, m, x, y).Some?
    ensures var c' := Bracket(c, m, x, y).value;
      && CwmInv(c')
      && c' == Elsewhere(c, x, y).(d := c'.d)
      && |c'.d.wins| == |c.d.wins|
      && Meaning(c.g, c'.d).base == m
      && (forall i :: 0 <= i < |c.d.wins| ==>
        Meaning(c.g, c'.d).panes[i] == Meaning(c.g, c.d).panes[i].(area := Elsewhere(c, x, y).PlaceOf(i)))
  {
    RefreshBegin(c);
    var c1 := SetFocus(c, false);
    SetFocusRefines(c, false);
    BracketMoves(c, c1, m, x, y);
    var c3 := SetPosition(Repaint(c1, m), x, y);
    BracketEnds(c, c3, x, y);
    BracketShows(c, c3, x, y);
  }

  lemma BracketEnds(c: Cwm, c3: Cwm, x: int, y: int)
    requires CwmInv(c) && CwmInv(c3) && |c3.d.wins| == |c.d.wins|
    requires c3 == Elsewhere(c, x, y).(focus := false, d := c3.d)
    requires forall i :: 0 <= i < |c.d.wins| ==>
        Meaning(c.g, c3.d).panes[i] ==
          Meaning(c.g, c.d).panes[i].(visible := false, area := Elsewhere(c, x, y).PlaceOf(i))
    ensures forall i :: 0 <= i < |c.d.wins| ==> c3.PlaceOf(i) == Elsewhere(c, x, y).PlaceOf(i)
  {
    forall i | 0 <= i < |c.d.wins|
      ensures c3.PlaceOf(i) == Elsewhere(c, x, y).PlaceOf(i)
    {
      assert Meaning(c.g, c3.d).panes[i].area == Elsewhere(c, x, y).PlaceOf(i);
      assert Meaning(c.g, c3.d).panes[i].area == c3.d.wins[i].Area();
      assert Placed(c3.d.wins[i], c3.WmOf(i));
    }
  }

  lemma BracketShows(c: Cwm, c3: Cwm, x: int, y: int)
    requires CwmInv(c) && CwmInv(c3) && |c3.d.wins| == |c.d.wins| > 0
    requires c3 == Elsewhere(c, x, y).(focus := false, d := c3.d)
    requires forall i :: 0 <= i < |c.d.wins| ==> c3.PlaceOf(i) == Elsewhere(c, x, y).PlaceOf(i)
    requires forall i :: 0 <= i < |c.d.wins| ==>
        Meaning(c.g, c3.d).panes[i] ==
          Meaning(c.g, c.d).panes[i].(visible := false, area := Elsewhere(c, x, y).PlaceOf(i))
    requires c.focus ==> Roomy(Elsewhere(c, x, y))
    ensures CanFocus(c3, c.focus)
    ensures var c' := SetFocus(c3, c.focus);
      && CwmInv(c')
      && c' == Elsewhere(c, x, y).(d := c'.d)
      && |c'.d.wins| == |c.d.wins|
      && Meaning(c.g, c'.d).base == Meaning(c.g, c3.d).base
      && (forall i :: 0 <= i < |c.d.wins| ==>
        Meaning(c.g, c'.d).panes[i] == Meaning(c.g, c.d).panes[i].(area := Elsewhere(c, x, y).PlaceOf(i)))
  {
    SetFocusRefines(c3, c.focus);
    var c' := SetFocus(c3, c.focus);
    forall i | 0 <= i < |c.d.wins|
      ensures Meaning(c.g, c'.d).panes[i] == Meaning(c.g, c.d).panes[i].(area := Elsewhere(c, x, y).PlaceOf(i))
    {
      assert Meaning(c.g, c'.d).panes[i] == FocusScene(c.g, Meaning(c.g, c3.d), c.focus).panes[i];
      assert Meaning(c.g, c.d).panes[i].visible == c.focus;
    }
  }

  // ---------------------------------------------------------------- whole runs

  datatype Event =
    | Focus(on: bool)                          // ucimf_switch
    | Refresh(image: Mem, x: int, y: int)      // a refresh bracket around a repaint
    | Cursor(x: int, y: int)                   // ucimf_cursor_position alone
    | Draw(i: nat, shapes: seq<Shape>)         // a widget renders

  ghost predicate Allowed(c: Cwm, e: Event) {
    CwmInv(c) && c.d.wins != [] &&
    match e
    case Focus(on) => on ==> Roomy(c)
    case Refresh(m, x, y) => |m| == |c.d.m| && (c.focus ==> Roomy(Elsewhere(c, x, y)))
    case Cursor(x, y) => ClearWay(c.g, c.d, Places(View(c.g.xres, c.g.yres, x, y), c.gaps, c.d.wins))
    case Draw(i, shapes) =>
      && CanDrawWidget(c, i, shapes) && Within(shapes)
      && (c.focus ==> FreePlace(c.d, i, Measured(c.g, c.d.m, c.d.wins[i], c.WmOf(i), shapes).Area()))
  }

  ghost function Step(c: Cwm, e: Event): Cwm
    requires Allowed(c, e)
  {
    match e
    case Focus(on) => SetFocusRefines(c, on); SetFocus(c, on)
    case Refresh(m, x, y) => RefreshBracket(c, m, x, y); Bracket(c, m, x, y).value
    case Cursor(x, y) => SetPositionRefines(c, x, y); SetPosition(c, x, y)
    case Draw(i, shapes) => DrawWidget(c, i, shapes)
  }

  ghost predicate AllowedRun(c: Cwm, es: seq<Event>)
    decreases |es|
  {
    es == [] || (Allowed(c, es[0]) && AllowedRun(Step(c, es[0]), es[1..]))
  }

  ghost function Run(c: Cwm, es: seq<Event>): Cwm
    requires AllowedRun(c, es)
    decreases |es|
  {
    if es == [] then c else Run(Step(c, es[0]), es[1..])
  }

  lemma StepKeeps(c: Cwm, e: Event)
    requires Allowed(c, e)
    ensures CwmInv(Step(c, e)) && Step(c, e).d.wins != []
    ensures Step(c, e).g == c.g && Step(c, e).gaps == c.gaps
    ensures Base(c.g, Step(c, e).d) == if e.Refresh? then e.image else Base(c.g, c.d)
  {
    match e
    case Focus(on) => SetFocusRefines(c, on);
    case Refresh(m, x, y) => RefreshBracket(c, m, x, y);
    case Cursor(x, y) => SetPositionRefines(c, x, y);
    case Draw(i, shapes) => DrawWidgetRefines(c, i, shapes);
  }

  // ---------------------------------------------------------------- what a run leaves to be seen

  // What the terminal painted last, how the windows were switched and where the cursor went last, and
  // what each window drew last.
  datatype History = History(image: Mem, on: bool, at: Point, drawn: seq<Option<seq<Shape>>>)

  function Next(h: History, e: Event): History {
    match e
    case Focus(on) => h.(on := on)
    case Refresh(m, x, y) => h.(image := m, at := Point(x, y))
    case Cursor(x, y) => h.(at := Point(x, y))
    case Draw(i, shapes) => if i < |h.drawn| then h.(drawn := h.drawn[i := Some(shapes)]) else h
  }

  function Past(h: History, es: seq<Event>): History
    decreases |es|
  {
    if es == [] then h else Past(Next(h, es[0]), es[1..])
  }

  // The pane has a picture of the shapes, if there are any, and is as large as they ask for.
  ghost predicate Carries(g: Geometry, p: Pane, o: Option<seq<Shape>>) {
    o.Some? ==>
      p.content.Some? && Portrays(g.bpp, o.value, p.area.x2 - p.area.x1, p.area.y2 - p.area.y1, p.content.value)
  }

  // The pane is seen if the windows are switched on, stands by the cursor, and carries its last drawing.
  ghost predicate PaneTells(g: Geometry, p: Pane, on: bool, at: Point, s: Gaps, o: Option<seq<Shape>>) {
    && p.visible == on && Carries(g, p, o)
    && ByCursor(p.area, View(g.xres, g.yres, at.x, at.y), s, p.area.x2 - p.area.x1, p.area.y2 - p.area.y1)
  }

  // The session is as its history has it.
  ghost predicate Follows(c: Cwm, h: History) {
    && Inv(c.g, c.d) && |c.d.wins| == |c.gaps| == |h.drawn|
    && Base(c.g, c.d) == h.image && c.focus == h.on && Point(c.cursorX, c.cursorY) == h.at
    && forall i :: 0 <= i < |h.drawn| ==> Carries(c.g, Meaning(c.g, c.d).panes[i], h.drawn[i])
  }

  // A pane of a settled session stands by the cursor.
  lemma SettledPane(c: Cwm, h: History, i: nat)
    requires CwmInv(c) && Follows(c, h) && i < |c.d.wins|
    ensures PaneTells(c.g, Meaning(c.g, c.d).panes[i], h.on, h.at, c.gaps[i], h.drawn[i])
  {
    var w := c.d.wins[i];
    assert Placed(w, c.WmOf(i)) && Carries(c.g, Meaning(c.g, c.d).panes[i], h.drawn[i]);
    PlacedByCursor(w.Area(), c.Sight(), c.gaps[i], w.w, w.h);
  }

  // From `c` to `c'` pane `i` has come to carry `o`, focus and cursor have become `on` and `at`.
  ghost predicate Told(c: Cwm, c': Cwm, i: nat, on: bool, at: Point, o: Option<seq<Shape>>) {
    && CwmInv(c') && |c'.d.wins| == |c.d.wins| && c'.g == c.g && c'.gaps == c.gaps
    && c'.focus == on && Point(c'.cursorX, c'.cursorY) == at
    && i < |c'.d.wins| && Carries(c.g, Meaning(c.g, c'.d).panes[i], o)
  }

  lemma FocusTells(c: Cwm, on: bool, i: nat, o: Option<seq<Shape>>)
    requires CwmInv(c) && (on ==> Roomy(c)) && i < |c.d.wins| && Carries(c.g, Meaning(c.g, c.d).panes[i], o)
    ensures CanFocus(c, on) && Told(c, SetFocus(c, on), i, on, Point(c.cursorX, c.cursorY), o)
  {
    SetFocusRefines(c, on);
    FocusCarries(c.g, Meaning(c.g, c.d), on, i, o);
  }

  lemma FocusCarries(g: Geometry, s: Scene, on: bool, i: nat, o: Option<seq<Shape>>)
    requires Fits(g, s.base) && (on ==> AllOnScreen(g, s)) && i < |s.panes| && Carries(g, s.panes[i], o)
    ensures Carries(g, FocusScene(g, s, on).panes[i], o)
  {
  }

  lemma RefreshTells(c: Cwm, m: Mem, x: int, y: int, i: nat, o: Option<seq<Shape>>)
    requires CwmInv(c) && i < |c.d.wins| && Carries(c.g, Meaning(c.g, c.d).panes[i], o)
    requires |m| == |c.d.m| && (c.focus ==> Roomy(Elsewhere(c, x, y)))
    ensures Bracket(c, m, x, y).Some? && Told(c, Bracket(c, m, x, y).value, i, c.focus, Point(x, y), o)
  {
    RefreshBracket(c, m, x, y);
    MovedCarries(c, Meaning(c.g, c.d).panes[i], View(c.g.xres, c.g.yres, x, y), i, o);
  }

  lemma CursorTells(c: Cwm, x: int, y: int, i: nat, o: Option<seq<Shape>>)
    requires CwmInv(c) && i < |c.d.wins| && Carries(c.g, Meaning(c.g, c.d).panes[i], o)
    requires ClearWay(c.g, c.d, Places(View(c.g.xres, c.g.yres, x, y), c.gaps, c.d.wins))
    ensures CanPosition(c, x, y) && Told(c, SetPosition(c, x, y), i, c.focus, Point(x, y), o)
  {
    SetPositionRefines(c, x, y);
    var v := View(c.g.xres, c.g.yres, x, y);
    assert Meaning(c.g, SetPosition(c, x, y).d).panes[i] ==
      Rearranged(Meaning(c.g, c.d), Places(v, c.gaps, c.d.wins), |c.d.wins|).panes[i];
    MovedCarries(c, Meaning(c.g, c.d).panes[i], v, i, o);
  }

  lemma DrawTells(c: Cwm, j: nat, shapes: seq<Shape>, i: nat, o: Option<seq<Shape>>)
    requires CwmInv(c) && i < |c.d.wins| && Carries(c.g, Meaning(c.g, c.d).panes[i], o)
    requires Allowed(c, Draw(j, shapes))
    ensures Told(c, DrawWidget(c, j, shapes), i, c.focus, Point(c.cursorX, c.cursorY),
                 if i == j then Some(shapes) else o)
  {
    DrawWidgetRefines(c, j, shapes);
    PicturePortrays(c.g, c.d.m, c.d.wins[j], c.WmOf(j), shapes);
  }

  // One event: the session goes on following its history.
  lemma StepFollows(c: Cwm, e: Event, h: History)
    requires Allowed(c, e) && Follows(c, h)
    ensures Follows(Step(c, e), Next(h, e))
  {
    StepKeeps(c, e);
    var c' := Step(c, e);
    forall i | 0 <= i < |h.drawn|
      ensures Told(c, c', i, Next(h, e).on, Next(h, e).at, Next(h, e).drawn[i])
    {
      assert Carries(c.g, Meaning(c.g, c.d).panes[i], h.drawn[i]);
      match e
      case Focus(on) => FocusTells(c, on, i, h.drawn[i]);
      case Refresh(m, x, y) => RefreshTells(c, m, x, y, i, h.drawn[i]);
      case Cursor(x, y) => CursorTells(c, x, y, i, h.drawn[i]);
      case Draw(j, shapes) => DrawTells(c, j, shapes, i, h.drawn[i]);
    }
    assert Told(c, c', 0, Next(h, e).on, Next(h, e).at, Next(h, e).drawn[0]);
  }

  // A move changes neither size nor picture.
  lemma MovedCarries(c: Cwm, p: Pane, v: View, i: nat, o: Option<seq<Shape>>)
    requires CwmInv(c) && i < |c.d.wins| && p.area == c.d.wins[i].Area() && Carries(c.g, p, o)
    ensures Carries(c.g, p.(area := PlacedArea(v, c.gaps[i], c.d.wins[i].w, c.d.wins[i].h)), o)
  {
  }

  lemma {:induction false} RunFollows(c: Cwm, es: seq<Event>, h: History)
    requires CwmInv(c) && c.d.wins != [] && AllowedRun(c, es) && Follows(c, h)
    ensures var c' := Run(c, es); CwmInv(c') && c'.g == c.g && c'.gaps == c.gaps && Follows(c', Past(h, es))
    decreases |es|
  {
    if es != [] {
      StepKeeps(c, es[0]);
      StepFollows(c, es[0], h);
      RunFollows(Step(c, es[0]), es[1..], Next(h, es[0]));
    }
  }

  // The screen is told by the history: the last paint, and over it the panes; these are seen if they were
  // switched on last, each by the last cursor and with the picture of its last drawing.
  ghost predicate ScreenTells(c: Cwm, h: History)
    requires Inv(c.g, c.d) && |c.d.wins| == |c.gaps| == |h.drawn|
  {
    && Shows(c.g, c.d.m, Meaning(c.g, c.d)) && Meaning(c.g, c.d).base == h.image
    && (!h.on ==> c.d.m == h.image)
    && forall i :: 0 <= i < |c.gaps| ==>
      PaneTells(c.g, Meaning(c.g, c.d).panes[i], h.on, h.at, c.gaps[i], h.drawn[i])
  }

  lemma FollowedScreen(c: Cwm, h: History)
    requires CwmInv(c) && Follows(c, h)
    ensures ScreenTells(c, h)
  {
    ScreenIsOverlay(c.g, c.d);
    if !c.focus {
      HiddenShowsBase(c.g, c.d);
    }
    forall i | 0 <= i < |c.gaps|
      ensures PaneTells(c.g, Meaning(c.g, c.d).panes[i], h.on, h.at, c.gaps[i], h.drawn[i])
    {
      SettledPane(c, h, i);
    }
  }

  // Where the window's left and top edge are: right of the cursor, and below or above it.
  function LeftOf(g: Geometry, at: Point, s: Gaps, w: int): int { Min(at.x + s.x, g.xres - 16 - w) }

  function TopOf(g: Geometry, at: Point, s: Gaps, h: int): int {
    if at.y + s.y + h <= g.yres - 16 then at.y + s.y else at.y - s.y - h
  }

  // Byte `b` of pixel (x, y) of a window at (left, top) is seen from the last of its shapes there.
  ghost predicate SeenFrom(g: Geometry, m: Mem, left: int, top: int, shapes: seq<Shape>, x: int, y: int, b: int) {
    var at := ScreenAt(g, left + x, top + y, b);
    0 <= at < |m| && Inked(g.bpp, shapes, x, y, b, m[at], m[at])
  }

  /** What is seen of a window that is switched on: each of its pixels, right of and below or above the
      cursor, is from the last shape over it. */
  lemma SeenPixel(c: Cwm, h: History, i: nat, shapes: seq<Shape>, w: int, height: int, x: int, y: int, b: int)
    requires CwmInv(c) && Follows(c, h) && h.on && i < |h.drawn| && h.drawn[i] == Some(shapes)
    requires IsExtent(shapes, w, height) && 0 <= x <= w && 0 <= y <= height && 0 <= b < c.g.bpp
    ensures SeenFrom(c.g, c.d.m, LeftOf(c.g, h.at, c.gaps[i], w), TopOf(c.g, h.at, c.gaps[i], height), shapes, x, y, b)
  {
    var p := Meaning(c.g, c.d).panes[i];
    SettledPane(c, h, i);
    ExtentUnique(shapes, w, height, p.area.x2 - p.area.x1, p.area.y2 - p.area.y1);
    SeenInPane(c.g, c.d.m, p.area, shapes, w, height, x, y, b);
  }

  lemma SeenInPane(g: Geometry, m: Mem, a: Rect, shapes: seq<Shape>, w: int, height: int, x: int, y: int, b: int)
    requires Fits(g, m) && OnScreen(g, a) && a.x2 == a.x1 + w && a.y2 == a.y1 + height
    requires Portrays(g.bpp, shapes, w, height, Grab(g, m, a)) && 0 <= x <= w && 0 <= y <= height && 0 <= b < g.bpp
    ensures SeenFrom(g, m, a.x1, a.y1, shapes, x, y, b)
  {
    assert FromShapes(g.bpp, shapes, w, Grab(g, m, a), x, y, b);
    GrabPixel(g, m, a, a.x1 + x, a.y1 + y, b);
    assert PictureAt(g.bpp, a, a.x1 + x, a.y1 + y, b) == PaneAt(g.bpp, w, x, y, b);
  }

  /**
   Over any run of focus switches, refresh brackets, cursor moves and renderings, in any order:
   the screen is what the terminal painted last, overlaid with the visible windows as they were
   drawn last; nothing else the windows ever drew stays behind.
   */
  lemma RunKeeps(c: Cwm, es: seq<Event>, h: History)
    requires CwmInv(c) && c.d.wins != [] && AllowedRun(c, es) && Follows(c, h)
    ensures var c' := Run(c, es);
      && CwmInv(c') && c'.g == c.g && c'.gaps == c.gaps
      && Follows(c', Past(h, es)) && ScreenTells(c', Past(h, es))
  {
    RunFollows(c, es, h);
    FollowedScreen(Run(c, es), Past(h, es));
  }

  // ---------------------------------------------------------------- the three windows

  // A window as its constructor leaves it.
  function NewWin(): Win { Win(false, 0, 0, 0, 0, true, None, None) }

  function Startup(g: Geometry, gaps: seq<Gaps>, m: Mem): Cwm {
    Cwm(g, 0, 0, false, gaps, Desktop(m, seq(|gaps|, _ => NewWin())))
  }

  // A session that has shown nothing yet.  Its windows may still be where they were made.
  ghost predicate Unseen(c: Cwm) {
    && Inv(c.g, c.d) && |c.gaps| == |c.d.wins| && !c.focus
    && forall i :: 0 <= i < |c.d.wins| ==> !c.d.wins[i].visible
  }

  lemma StartsUnseen(g: Geometry, gaps: seq<Gaps>, m: Mem)
    requires Fits(g, m)
    ensures Unseen(Startup(g, gaps, m))
  {
  }

  /** Rendering in such a session leaves the screen alone; a window that comes out larger than a pixel
      is then at its place, and those that were stay there. */
  lemma UnseenDraws(c: Cwm, i: nat, shapes: seq<Shape>)
    requires Unseen(c) && CanDrawWidget(c, i, shapes) && Within(shapes)
    ensures var c' := DrawWidget(c, i, shapes);
      && Unseen(c') && c' == c.(d := c'.d) && c'.d.m == c.d.m && |c'.d.wins| == |c.d.wins|
      && (forall j :: 0 <= j < |c.d.wins| && j != i ==> c'.d.wins[j] == c.d.wins[j])
      && (Placed(c.d.wins[i], c.WmOf(i)) || c'.d.wins[i].w > 0 || c'.d.wins[i].h > 0 ==>
        Placed(c'.d.wins[i], c'.WmOf(i)))
  {
    var w := c.d.wins[i];
    var c' := DrawWidget(c, i, shapes);
    RenderRefines(c.g, c.d, i, c.WmOf(i), shapes);
    HiddenShowsBase(c.g, c.d);
    HiddenShowsBase(c.g, c'.d);
    MeasureAllExtent(c.g, c.d.m, PseudoWin(c.g, c.d.m, w, c.WmOf(i), true).1, c.WmOf(i), shapes);
  }

  /** The first cursor position that differs from the manager's own settles the session. */
  lemma UnseenMoves(c: Cwm, x: int, y: int)
    requires Unseen(c) && (x != c.cursorX || y != c.cursorY)
    ensures CanPosition(c, x, y)
    ensures var c' := SetPosition(c, x, y);
      Unseen(c') && CwmInv(c') && c'.d.m == c.d.m && c' == c.(cursorX := x, cursorY := y, d := c'.d)
  {
    var v := View(c.g.xres, c.g.yres, x, y);
    MoveUpToRefines(c.g, v, c.gaps, c.d, |c.gaps|);
    MovedInvFresh(c, SetPosition(c, x, y), Places(v, c.gaps, c.d.wins));
    HiddenShowsBase(c.g, c.d);
    HiddenShowsBase(c.g, SetPosition(c, x, y).d);
  }

  lemma UnseenRepaints(c: Cwm, m: Mem)
    requires Unseen(c) && |m| == |c.d.m|
    ensures Unseen(Repaint(c, m))
  {
  }

  // What may happen before anything is shown.
  ghost predicate EarlyAllowed(c: Cwm, e: Event) {
    match e
    case Focus(on) => !on
    case Refresh(m, x, y) => |m| == |c.d.m|
    case Cursor(x, y) => true
    case Draw(i, shapes) => CanDrawWidget(c, i, shapes) && Within(shapes)
  }

  // The new screen, if the event paints one, and the new cursor, if it moves it.
  ghost function EarlyStep(c: Cwm, e: Event): Cwm
    requires Unseen(c) && EarlyAllowed(c, e)
  {
    match e
    case Focus(on) => SetFocus(c, on)
    case Refresh(m, x, y) => UnseenRepaints(c, m); Moved(Repaint(c, m), x, y)
    case Cursor(x, y) => Moved(c, x, y)
    case Draw(i, shapes) => DrawWidget(c, i, shapes)
  }

  ghost function Moved(c: Cwm, x: int, y: int): Cwm
    requires Unseen(c)
  {
    if x == c.cursorX && y == c.cursorY then c else UnseenMoves(c, x, y); SetPosition(c, x, y)
  }

  lemma EarlyStepKeeps(c: Cwm, e: Event)
    requires Unseen(c) && EarlyAllowed(c, e)
    ensures var c' := EarlyStep(c, e);
      Unseen(c') && c'.g == c.g && c'.gaps == c.gaps && c'.d.m == if e.Refresh? then e.image else c.d.m
  {
    match e
    case Focus(on) =>
    case Refresh(m, x, y) =>
      UnseenRepaints(c, m);
      EarlyMoved(Repaint(c, m), x, y);
    case Cursor(x, y) => EarlyMoved(c, x, y);
    case Draw(i, shapes) => UnseenDraws(c, i, shapes);
  }

  lemma EarlyMoved(c: Cwm, x: int, y: int)
    requires Unseen(c)
    ensures Unseen(Moved(c, x, y)) && Moved(c, x, y).g == c.g && Moved(c, x, y).gaps == c.gaps
    ensures Moved(c, x, y).d.m == c.d.m
  {
    if x != c.cursorX || y != c.cursorY {
      UnseenMoves(c, x, y);
    }
  }

  ghost predicate EarlyRunAllowed(c: Cwm, es: seq<Event>)
    requires Unseen(c)
    decreases |es|
  {
    es == [] ||
    (EarlyAllowed(c, es[0]) &&
     (EarlyStepKeeps(c, es[0]); EarlyRunAllowed(EarlyStep(c, es[0]), es[1..])))
  }

  ghost function EarlyRun(c: Cwm, es: seq<Event>): Cwm
    requires Unseen(c) && EarlyRunAllowed(c, es)
    decreases |es|
  {
    if es == [] then c else EarlyStepKeeps(c, es[0]); EarlyRun(EarlyStep(c, es[0]), es[1..])
  }

  // An early event: the session goes on following its history.
  lemma EarlyFollows(c: Cwm, e: Event, h: History)
    requires Unseen(c) && EarlyAllowed(c, e) && Follows(c, h)
    ensures Follows(EarlyStep(c, e), Next(h, e))
  {
    EarlyStepKeeps(c, e);
    HiddenShowsBase(c.g, EarlyStep(c, e).d);
    match e
    case Focus(on) =>
    case Refresh(m, x, y) =>
      HiddenShowsBase(c.g, Repaint(c, m).d);
      RepaintFollows(c, m, h);
      MovedFollows(Repaint(c, m), x, y, h.(image := m));
    case Cursor(x, y) => MovedFollows(c, x, y, h);
    case Draw(i, shapes) => UnseenDrawFollows(c, i, shapes, h);
  }

  lemma RepaintFollows(c: Cwm, m: Mem, h: History)
    requires Unseen(c) && |m| == |c.d.m| && Follows(c, h)
    ensures Follows(Repaint(c, m), h.(image := m))
  {
    var c' := Repaint(c, m);
    HiddenShowsBase(c.g, c'.d);
    forall i | 0 <= i < |h.drawn|
      ensures Carries(c.g, Meaning(c.g, c'.d).panes[i], h.drawn[i])
    {
      assert Meaning(c.g, c'.d).panes[i] == Meaning(c.g, c.d).panes[i];
    }
  }

  lemma MovedFollows(c: Cwm, x: int, y: int, h: History)
    requires Unseen(c) && Follows(c, h)
    ensures Follows(Moved(c, x, y), h.(at := Point(x, y)))
  {
    if x != c.cursorX || y != c.cursorY {
      UnseenMoves(c, x, y);
      var v, c', n := View(c.g.xres, c.g.yres, x, y), SetPosition(c, x, y), |c.gaps|;
      MoveUpToRefines(c.g, v, c.gaps, c.d, n);
      forall i | 0 <= i < n
        ensures Carries(c.g, Meaning(c.g, c'.d).panes[i], h.drawn[i])
      {
        assert Carries(c.g, Meaning(c.g, c.d).panes[i], h.drawn[i]);
        assert Meaning(c.g, c'.d).panes[i] == Rearranged(Meaning(c.g, c.d), Places(v, c.gaps, c.d.wins), n).panes[i];
      }
    }
  }

  lemma UnseenDrawFollows(c: Cwm, i: nat, shapes: seq<Shape>, h: History)
    requires Unseen(c) && CanDrawWidget(c, i, shapes) && Within(shapes) && Follows(c, h)
    ensures Follows(DrawWidget(c, i, shapes), h.(drawn := h.drawn[i := Some(shapes)]))
  {
    UnseenDraws(c, i, shapes);
    RenderRefines(c.g, c.d, i, c.WmOf(i), shapes);
    PicturePortrays(c.g, c.d.m, c.d.wins[i], c.WmOf(i), shapes);
  }

  /** Whatever happens before the windows are first switched on, the session follows its history and the
      screen is what the terminal painted; and the first move after it settles the session. */
  lemma {:induction false} EarlyRunKeeps(c: Cwm, es: seq<Event>, h: History, x: int, y: int)
    requires Unseen(c) && EarlyRunAllowed(c, es) && Follows(c, h)
    ensures var c' := EarlyRun(c, es);
      && Unseen(c') && c'.g == c.g && c'.gaps == c.gaps
      && Follows(c', Past(h, es)) && c'.d.m == Past(h, es).image
      && (x != c'.cursorX || y != c'.cursorY ==>
        CanPosition(c', x, y) && CwmInv(SetPosition(c', x, y)) && SetPosition(c', x, y).d.m == c'.d.m)
    decreases |es|
  {
    if es == [] {
      HiddenShowsBase(c.g, c.d);
      if x != c.cursorX || y != c.cursorY {
        UnseenMoves(c, x, y);
      }
    } else {
      EarlyStepKeeps(c, es[0]);
      EarlyFollows(c, es[0], h);
      EarlyRunKeeps(EarlyStep(c, es[0]), es[1..], Next(h, es[0]), x, y);
    }
  }

  /** So does a fresh session's first cursor position away from the origin. */
  lemma FirstPosition(g: Geometry, gaps: seq<Gaps>, m: Mem, x: int, y: int)
    requires Fits(g, m) && (x != 0 || y != 0)
    ensures CanPosition(Startup(g, gaps, m), x, y)
    ensures CwmInv(SetPosition(Startup(g, gaps, m), x, y))
    ensures Base(g, SetPosition(Startup(g, gaps, m), x, y).d) == m
  {
    StartsUnseen(g, gaps, m);
    UnseenMoves(Startup(g, gaps, m), x, y);
    HiddenShowsBase(g, SetPosition(Startup(g, gaps, m), x, y).d);
  }

  lemma MovedInvFresh(c: Cwm, c': Cwm, places: seq<Rect>)
    requires Inv(c.g, c.d) && Inv(c.g, c'.d) && |c'.d.wins| == |c.d.wins| == |places| == |c.gaps|
    requires c'.g == c.g && c'.gaps == c.gaps && !c'.focus
    requires forall i :: 0 <= i < |c.d.wins| ==> !c.d.wins[i].visible
    requires places == Places(c'.Sight(), c.gaps, c.d.wins)
    requires Meaning(c.g, c'.d) == Rearranged(Meaning(c.g, c.d), places, |c.d.wins|)
    ensures CwmInv(c')
  {
    forall i | 0 <= i < |c.d.wins|
      ensures !c'.d.wins[i].visible && Placed(c'.d.wins[i], c'.WmOf(i))
    {
      assert Meaning(c.g, c'.d).panes[i] == Rearranged(Meaning(c.g, c.d), places, |c.d.wins|).panes[i];
    }
  }

  // A window's own place is on the screen: narrow enough, and room below or above the cursor.
  predicate OwnRoom(c: Cwm, i: nat)
    requires i < |c.gaps| && i < |c.d.wins|
  {
    && c.d.wins[i].w <= c.g.xres - 16
    && (c.cursorY + c.gaps[i].y + c.d.wins[i].h <= c.g.yres - 16 || c.gaps[i].y + c.d.wins[i].h <= c.cursorY)
  }

  lemma OwnRoomIsEnough(c: Cwm, i: nat)
    requires i < |c.gaps| && i < |c.d.wins| && c.gaps[i].x == 0 && 0 < c.gaps[i].y
    requires 0 <= c.d.wins[i].w && 0 <= c.d.wins[i].h
    requires 0 <= c.cursorX && 0 <= c.cursorY < c.g.yres
    ensures OnScreen(c.g, c.PlaceOf(i)) <==> OwnRoom(c, i)
  {
    HorizontalPlacement(c.Sight(), c.gaps[i], c.d.wins[i].w, c.d.wins[i].h);
    VerticalPlacement(c.Sight(), c.gaps[i], c.d.wins[i].w, c.d.wins[i].h);
  }

  /**
   With the gaps of ucimf_init, whichever order the map iterates in, a layout is roomy exactly when
   each window has room of its own: that they never meet needs no checking.
   */
  lemma UcimfRoomy(c: Cwm, font: nat, s: nat, p: nat, l: nat)
    requires |c.d.wins| == |c.gaps| == 3
    requires s < 3 && p < 3 && l < 3 && s != p && p != l && l != s
    requires c.gaps[s] == StatusGaps(font) && c.gaps[p] == PreeditGaps(font) && c.gaps[l] == LookupGaps(font)
    requires forall i :: 0 <= i < 3 ==> 0 <= c.d.wins[i].w && 0 <= c.d.wins[i].h
    requires c.d.wins[s].h <= font + 7 && c.d.wins[p].h <= font + 7
    requires 0 <= c.cursorX && 0 <= c.cursorY < c.g.yres
    ensures Roomy(c) <==> OwnRoom(c, s) && OwnRoom(c, p) && OwnRoom(c, l)
  {
    var ws := c.d.wins;
    PlacementsNeverMeet(c.Sight(), font, ws[s].w, ws[s].h, ws[p].w, ws[p].h, ws[l].w, ws[l].h);
    OwnRoomIsEnough(c, s);
    OwnRoomIsEnough(c, p);
    OwnRoomIsEnough(c, l);
    RoomyAnyOrder(c, s, p, l);
  }

  /**
   Nor when a widget renders: at whatever size it comes out, a status or preedit window within its
   height and a candidate window of any height have a free place.
   */
  lemma RenderFindsPlace(c: Cwm, font: nat, s: nat, p: nat, l: nat, i: nat, shapes: seq<Shape>)
    requires CwmInv(c) && CanDrawWidget(c, i, shapes) && |c.d.wins| == 3
    requires s < 3 && p < 3 && l < 3 && s != p && p != l && l != s
    requires c.gaps[s] == StatusGaps(font) && c.gaps[p] == PreeditGaps(font) && c.gaps[l] == LookupGaps(font)
    requires c.d.wins[s].h <= font + 7 && c.d.wins[p].h <= font + 7
    requires i == l || Measured(c.g, c.d.m, c.d.wins[i], c.WmOf(i), shapes).h <= font + 7
    ensures FreePlace(c.d, i, Measured(c.g, c.d.m, c.d.wins[i], c.WmOf(i), shapes).Area())
  {
    var r := Measured(c.g, c.d.m, c.d.wins[i], c.WmOf(i), shapes);
    RenderMeasures(c.g, c.d.m, c.d.wins[i], c.WmOf(i), shapes);
    var ws := c.d.wins[i := r];
    assert forall k :: 0 <= k < 3 ==> Placed(c.d.wins[k], c.WmOf(k));
    assert forall k :: 0 <= k < 3 ==> Placed(ws[k], c.WmOf(k)) && ws[k].h >= 0;
    PlacedApart(c, font, s, p, l, ws);
    assert forall j :: 0 <= j < 3 && j != i ==> Disjoint(ws[i].Area(), ws[j].Area());
  }

  // Windows of any size, each at its place.
  lemma PlacedApart(c: Cwm, font: nat, s: nat, p: nat, l: nat, ws: seq<Win>)
    requires |ws| == |c.gaps| == 3
    requires s < 3 && p < 3 && l < 3 && s != p && p != l && l != s
    requires c.gaps[s] == StatusGaps(font) && c.gaps[p] == PreeditGaps(font) && c.gaps[l] == LookupGaps(font)
    requires forall k :: 0 <= k < 3 ==> Placed(ws[k], c.WmOf(k)) && ws[k].h >= 0
    requires ws[s].h <= font + 7 && ws[p].h <= font + 7
    ensures forall i, j :: 0 <= i < 3 && 0 <= j < 3 && i != j ==> Disjoint(ws[i].Area(), ws[j].Area())
  {
    PlacementsNeverMeet(c.Sight(), font, ws[s].w, ws[s].h, ws[p].w, ws[p].h, ws[l].w, ws[l].h);
    AreaIsPlace(ws[s], c.Sight(), c.gaps[s]);
    AreaIsPlace(ws[p], c.Sight(), c.gaps[p]);
    AreaIsPlace(ws[l], c.Sight(), c.gaps[l]);
    var a, b, d := ws[s].Area(), ws[p].Area(), ws[l].Area();
    assert Disjoint(a, b) && Disjoint(a, d) && Disjoint(b, d);
    forall i, j | 0 <= i < 3 && 0 <= j < 3 && i != j
      ensures Disjoint(ws[i].Area(), ws[j].Area())
    {
      assert i == s || i == p || i == l;
      assert j == s || j == p || j == l;
    }
  }

  lemma AreaIsPlace(w: Win, v: View, s: Gaps)
    requires Placed(w, Managed(v, s))
    ensures w.Area() == PlacedArea(v, s, w.w, w.h)
  {
  }

  lemma RoomyAnyOrder(c: Cwm, s: nat, p: nat, l: nat)
    requires |c.d.wins| == |c.gaps| == 3
    requires s < 3 && p < 3 && l < 3 && s != p && p != l && l != s
    requires Disjoint(c.PlaceOf(s), c.PlaceOf(p)) && Disjoint(c.PlaceOf(s), c.PlaceOf(l))
    requires Disjoint(c.PlaceOf(p), c.PlaceOf(l))
    ensures Roomy(c) <==> OnScreen(c.g, c.PlaceOf(s)) && OnScreen(c.g, c.PlaceOf(p)) && OnScreen(c.g, c.PlaceOf(l))
  {
    var rs := [c.PlaceOf(0), c.PlaceOf(1), c.PlaceOf(2)];
    assert forall i :: 0 <= i < 3 ==> rs[i] == c.PlaceOf(i);
    ApartAnyOrder(rs, s, p, l);
  }

  lemma ApartAnyOrder(rs: seq<Rect>, s: nat, p: nat, l: nat)
    requires |rs| == 3
    requires s < 3 && p < 3 && l < 3 && s != p && p != l && l != s
    requires Disjoint(rs[s], rs[p]) && Disjoint(rs[s], rs[l]) && Disjoint(rs[p], rs[l])
    ensures forall i, j :: 0 <= i < j < 3 ==> Disjoint(rs[i], rs[j])
  {
  }
}
