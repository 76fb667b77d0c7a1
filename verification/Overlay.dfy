/**
 What showing, hiding and moving a save-under window does to the screen, and what it means.

 `Win` is the state a Window and its GraphPort hold between calls; the functions `ShowWin`,
 `HideWin` and `MoveWin` follow the pixel traffic of the code.  A `Scene` is the meaning: a base
 image with panes over it.  The theorems say that the traffic implements the scene: the screen
 always is the overlay of the visible panes over the base, and no operation ever changes the
 base or a pane it is not about.
 */
module Overlay {
  import opened Basics
  import opened Raster

  datatype Win = Win(visible: bool, x: int, y: int, w: int, h: int, pseudo: bool,
                     bg: Option<Mem>, fg: Option<Mem>)
  {
    function Area(): Rect { Rect(x, y, x + w, y + h) }

    function At(x': int, y': int): Win { this.(x := x', y := y') }
  }

  // ---------------------------------------------------------------- the code's steps

  // The demands of SaveRect and RstrRect when a hidden window is shown.
  predicate CanShow(g: Geometry, w: Win) {
    && OnScreen(g, w.Area())
    && (w.fg.Some? ==> |w.fg.value| >= Size(g, w.Area()))
  }

  predicate CanHide(g: Geometry, w: Win) {
    && OnScreen(g, w.Area())
    && (w.bg.Some? ==> |w.bg.value| >= Size(g, w.Area()))
  }

  // pop_bg_buf and pop_fg_buf: the start of the buffer goes back to the screen, if there is one.
  function PopBuf(g: Geometry, m: Mem, r: Rect, b: Option<Mem>): (m': Mem)
    requires Fits(g, m) && OnScreen(g, r) && (b.Some? ==> |b.value| >= Size(g, r))
    ensures |m'| == |m|
  {
    if b.Some? then BlitHead(g, m, r, b.value) else m
  }

  lemma PopWhole(g: Geometry, m: Mem, r: Rect, c: Mem)
    requires Fits(g, m) && OnScreen(g, r) && |c| == Size(g, r)
    ensures PopBuf(g, m, r, Some(c)) == Blit(g, m, r, c)
  {
    assert c[..Size(g, r)] == c;
  }

  // push_bg_buf, then pop_fg_buf.
  function ShowWin(g: Geometry, m: Mem, w: Win): (r: (Mem, Win))
    requires Fits(g, m) && (!w.visible ==> CanShow(g, w))
    ensures |r.0| == |m|
    ensures r.1.Area() == w.Area()
  {
    if w.visible then (m, w) else
      (PopBuf(g, m, w.Area(), w.fg), w.(visible := true, bg := Some(Grab(g, m, w.Area())), fg := None))
  }

  // push_fg_buf, then pop_bg_buf.
  function HideWin(g: Geometry, m: Mem, w: Win): (r: (Mem, Win))
    requires Fits(g, m) && (w.visible ==> CanHide(g, w))
    ensures |r.0| == |m|
    ensures r.1.Area() == w.Area()
  {
    if !w.visible then (m, w) else
      (PopBuf(g, m, w.Area(), w.bg), w.(visible := false, fg := Some(Grab(g, m, w.Area())), bg := None))
  }

  predicate CanMove(g: Geometry, w: Win, x: int, y: int) {
    w.visible ==> CanHide(g, w) && OnScreen(g, w.At(x, y).Area())
  }

  function MoveWin(g: Geometry, m: Mem, w: Win, x: int, y: int): (r: (Mem, Win))
    requires Fits(g, m) && CanMove(g, w, x, y)
    ensures |r.0| == |m|
  {
    var (m1, w1) := HideWin(g, m, w);
    var w2 := w1.At(x, y);
    if w.visible then ShowWin(g, m1, w2) else (m1, w2)
  }

  // ---------------------------------------------------------------- a desktop of windows

  datatype Desktop = Desktop(m: Mem, wins: seq<Win>)

  ghost predicate WinOk(g: Geometry, w: Win) {
    && 0 <= w.w && 0 <= w.h
    && (w.pseudo ==> w.w == w.h == 0)
    && (w.visible ==>
      OnScreen(g, w.Area()) && w.fg.None? && w.bg.Some? && |w.bg.value| == Size(g, w.Area()))
    && (!w.visible ==>
      w.bg.None? && (w.fg.Some? ==> |w.fg.value| == Size(g, w.Area())))
  }

  ghost predicate Apart(wins: seq<Win>) {
    forall i, j :: 0 <= i < j < |wins| && wins[i].visible && wins[j].visible ==>
      Disjoint(wins[i].Area(), wins[j].Area())
  }

  ghost predicate Inv(g: Geometry, d: Desktop) {
    && Fits(g, d.m)
    && (forall i :: 0 <= i < |d.wins| ==> WinOk(g, d.wins[i]))
    && Apart(d.wins)
  }

  // Window `i` would not touch any other visible window if its area were `r`.
  ghost predicate FreePlace(d: Desktop, i: nat, r: Rect) {
    forall j :: 0 <= j < |d.wins| && j != i && d.wins[j].visible ==> Disjoint(r, d.wins[j].Area())
  }

  // ---------------------------------------------------------------- the meaning

  datatype Pane = Pane(visible: bool, area: Rect, content: Option<Mem>)
  datatype Scene = Scene(base: Mem, panes: seq<Pane>)

  // The visible window covering byte `k`, or -1.
  ghost function Owner(g: Geometry, wins: seq<Win>, k: nat): (o: int)
    requires g.Valid()
    ensures -1 <= o < |wins|
    ensures o >= 0 ==> wins[o].visible && Covers(g, wins[o].Area(), k)
    ensures o < 0 ==> forall i :: 0 <= i < |wins| && wins[i].visible ==> !Covers(g, wins[i].Area(), k)
  {
    if wins == [] then -1 else
    var n := |wins| - 1;
    if wins[n].visible && Covers(g, wins[n].Area(), k) then n else Owner(g, wins[..n], k)
  }

  lemma OwnerIs(g: Geometry, wins: seq<Win>, k: nat, i: nat)
    requires g.Valid() && Apart(wins)
    requires i < |wins| && wins[i].visible && Covers(g, wins[i].Area(), k)
    ensures Owner(g, wins, k) == i
  {
  }

  // The image under all visible windows.
  ghost function Base(g: Geometry, d: Desktop): (b: Mem)
    requires Inv(g, d)
    ensures |b| == |d.m|
  {
    seq(|d.m|, k requires 0 <= k < |d.m| =>
      var o := Owner(g, d.wins, k);
      if o < 0 then d.m[k] else
        PosInRect(g, d.wins[o].Area(), k); d.wins[o].bg.value[Pos(g, d.wins[o].Area(), k)])
  }

  ghost function Content(g: Geometry, m: Mem, w: Win): Option<Mem>
    requires Fits(g, m) && WinOk(g, w)
  {
    if w.visible then Some(Grab(g, m, w.Area())) else w.fg
  }

  ghost function Meaning(g: Geometry, d: Desktop): (s: Scene)
    requires Inv(g, d)
    ensures |s.panes| == |d.wins|
  {
    Scene(Base(g, d),
      seq(|d.wins|, i requires 0 <= i < |d.wins| =>
        Pane(d.wins[i].visible, d.wins[i].Area(), Content(g, d.m, d.wins[i]))))
  }

  ghost predicate InPanes(g: Geometry, panes: seq<Pane>, k: nat)
    requires g.Valid()
  {
    exists i :: 0 <= i < |panes| && panes[i].visible && Covers(g, panes[i].area, k)
  }

  // `m` shows the visible panes, and the base where there are none.
  ghost predicate Shows(g: Geometry, m: Mem, s: Scene)
    requires Fits(g, m)
  {
    && |m| == |s.base|
    && (forall p :: p in s.panes && p.visible ==> OnScreen(g, p.area) && p.content == Some(Grab(g, m, p.area)))
    && (forall k :: 0 <= k < |m| && !InPanes(g, s.panes, k) ==> m[k] == s.base[k])
  }

  // The scene operations: each changes one pane.
  ghost function SceneShow(g: Geometry, s: Scene, i: nat): Scene
    requires Fits(g, s.base) && i < |s.panes| && OnScreen(g, s.panes[i].area)
  {
    var p := s.panes[i];
    s.(panes := s.panes[i := p.(visible := true,
      content := if p.content.Some? then p.content else Some(Grab(g, s.base, p.area)))])
  }

  ghost function SceneHide(s: Scene, i: nat): Scene
    requires i < |s.panes|
  {
    s.(panes := s.panes[i := s.panes[i].(visible := false)])
  }

  ghost function SceneMove(s: Scene, i: nat, x: int, y: int): Scene
    requires i < |s.panes|
  {
    var a := s.panes[i].area;
    s.(panes := s.panes[i := s.panes[i].(area := Rect(x, y, x + (a.x2 - a.x1), y + (a.y2 - a.y1)))])
  }

  // ---------------------------------------------------------------- the theorems

  /** The screen is the base overlaid with the visible windows. */
  lemma ScreenIsOverlay(g: Geometry, d: Desktop)
    requires Inv(g, d)
    ensures Shows(g, d.m, Meaning(g, d))
  {
    var s := Meaning(g, d);
    forall k | 0 <= k < |d.m|
      ensures InPanes(g, s.panes, k) || d.m[k] == s.base[k]
    {
      var o := Owner(g, d.wins, k);
      if o >= 0 {
        assert s.panes[o].visible && Covers(g, s.panes[o].area, k);
      }
    }
  }

  /** A scene determines its screen. */
  lemma ShowsUnique(g: Geometry, m: Mem, m': Mem, s: Scene)
    requires Fits(g, m) && Fits(g, m') && Shows(g, m, s) && Shows(g, m', s)
    ensures m == m'
  {
    forall k | 0 <= k < |m|
      ensures m[k] == m'[k]
    {
      if InPanes(g, s.panes, k) {
        var i :| 0 <= i < |s.panes| && s.panes[i].visible && Covers(g, s.panes[i].area, k);
        GrabAt(g, m, s.panes[i].area, k);
        GrabAt(g, m', s.panes[i].area, k);
      }
    }
  }

  function With(d: Desktop, i: nat, r: (Mem, Win)): Desktop
    requires i < |d.wins|
  {
    Desktop(r.0, d.wins[i := r.1])
  }

  /** Showing a window at a free place: the base stays, and only that pane appears. */
  lemma ShowRefines(g: Geometry, d: Desktop, i: nat)
    requires Inv(g, d) && i < |d.wins|
    requires OnScreen(g, d.wins[i].Area()) && FreePlace(d, i, d.wins[i].Area())
    ensures Inv(g, With(d, i, ShowWin(g, d.m, d.wins[i])))
    ensures Meaning(g, With(d, i, ShowWin(g, d.m, d.wins[i]))) == SceneShow(g, Meaning(g, d), i)
  {
    var w := d.wins[i];
    var d' := With(d, i, ShowWin(g, d.m, w));
    if w.visible {
      assert d' == d;
    } else {
      ShowKeepsBase(g, d, i);
      OnlyInside(g, d, d', i);
      if w.fg.Some? {
        PopWhole(g, d.m, w.Area(), w.fg.value);
        GrabBlit(g, d.m, w.Area(), w.fg.value);
      } else {
        NotOwned(g, d, i);
      }
    }
    assert Meaning(g, d').panes == SceneShow(g, Meaning(g, d), i).panes;
  }

  lemma ShowKeepsInv(g: Geometry, d: Desktop, i: nat)
    requires Inv(g, d) && i < |d.wins|
    requires OnScreen(g, d.wins[i].Area()) && FreePlace(d, i, d.wins[i].Area())
    ensures Inv(g, With(d, i, ShowWin(g, d.m, d.wins[i])))
  {
  }

  lemma ShowKeepsBase(g: Geometry, d: Desktop, i: nat)
    requires Inv(g, d) && i < |d.wins| && !d.wins[i].visible
    requires OnScreen(g, d.wins[i].Area()) && FreePlace(d, i, d.wins[i].Area())
    ensures Inv(g, With(d, i, ShowWin(g, d.m, d.wins[i])))
    ensures Base(g, With(d, i, ShowWin(g, d.m, d.wins[i]))) == Base(g, d)
  {
    ShowKeepsInv(g, d, i);
    forall k | 0 <= k < |d.m|
      ensures Base(g, With(d, i, ShowWin(g, d.m, d.wins[i])))[k] == Base(g, d)[k]
    {
      ShowKeepsBaseAt(g, d, i, k);
    }
  }

  lemma ShowKeepsBaseAt(g: Geometry, d: Desktop, i: nat, k: nat)
    requires Inv(g, d) && i < |d.wins| && !d.wins[i].visible && k < |d.m|
    requires OnScreen(g, d.wins[i].Area()) && FreePlace(d, i, d.wins[i].Area())
    requires Inv(g, With(d, i, ShowWin(g, d.m, d.wins[i])))
    ensures Base(g, With(d, i, ShowWin(g, d.m, d.wins[i])))[k] == Base(g, d)[k]
  {
    var d' := With(d, i, ShowWin(g, d.m, d.wins[i]));
    var o := Owner(g, d'.wins, k);
    if o == i {
      assert Owner(g, d.wins, k) < 0;
      GrabAt(g, d.m, d.wins[i].Area(), k);
    } else if o >= 0 {
      OwnerIs(g, d.wins, k, o);
    } else {
      assert !Covers(g, d'.wins[i].Area(), k);
      assert forall j :: 0 <= j < |d.wins| && j != i ==> d.wins[j] == d'.wins[j];
      assert Owner(g, d.wins, k) < 0;
    }
  }

  // Where no visible window is, the base is on the screen.
  lemma NotOwned(g: Geometry, d: Desktop, i: nat)
    requires Inv(g, d) && i < |d.wins| && !d.wins[i].visible
    requires OnScreen(g, d.wins[i].Area()) && FreePlace(d, i, d.wins[i].Area())
    ensures Grab(g, Base(g, d), d.wins[i].Area()) == Grab(g, d.m, d.wins[i].Area())
  {
    GrabEqual(g, Base(g, d), d.m, d.wins[i].Area());
  }

  // A change confined to a free place leaves the other visible windows' contents alone.
  lemma OnlyInside(g: Geometry, d: Desktop, d': Desktop, i: nat)
    requires Inv(g, d) && |d'.wins| == |d.wins| && |d'.m| == |d.m| && i < |d.wins|
    requires FreePlace(d, i, d.wins[i].Area())
    requires forall k :: 0 <= k < |d.m| && !Covers(g, d.wins[i].Area(), k) ==> d'.m[k] == d.m[k]
    ensures forall j :: 0 <= j < |d.wins| && j != i ==>
      Content(g, d'.m, d.wins[j]) == Content(g, d.m, d.wins[j])
  {
    forall j | 0 <= j < |d.wins| && j != i && d.wins[j].visible
      ensures Content(g, d'.m, d.wins[j]) == Content(g, d.m, d.wins[j])
    {
      GrabEqual(g, d'.m, d.m, d.wins[j].Area());
    }
  }

  /** Hiding a window: the base stays, the window keeps its picture, the others theirs. */
  lemma HideRefines(g: Geometry, d: Desktop, i: nat)
    requires Inv(g, d) && i < |d.wins|
    ensures Inv(g, With(d, i, HideWin(g, d.m, d.wins[i])))
    ensures Meaning(g, With(d, i, HideWin(g, d.m, d.wins[i]))) == SceneHide(Meaning(g, d), i)
  {
    var w := d.wins[i];
    var d' := With(d, i, HideWin(g, d.m, w));
    if !w.visible {
      assert d' == d;
      assert Meaning(g, d').panes == SceneHide(Meaning(g, d), i).panes;
    } else {
      PopWhole(g, d.m, w.Area(), w.bg.value);
      OnlyInside(g, d, d', i);
      forall k | 0 <= k < |d.m|
        ensures Base(g, d')[k] == Base(g, d)[k]
      {
        var o := Owner(g, d'.wins, k);
        if o >= 0 {
          OwnerIs(g, d.wins, k, o);
        } else if Covers(g, w.Area(), k) {
          OwnerIs(g, d.wins, k, i);
          PosInRect(g, w.Area(), k);
        } else {
          assert forall j :: 0 <= j < |d.wins| && d.wins[j].visible ==> j == i || d'.wins[j].visible;
        }
      }
      assert Base(g, d') == Base(g, d);
      assert Meaning(g, d').panes == SceneHide(Meaning(g, d), i).panes;
    }
  }

  /** Moving a window, shown or hidden, to a free place: it carries its picture along. */
  lemma MoveRefines(g: Geometry, d: Desktop, i: nat, x: int, y: int)
    requires Inv(g, d) && i < |d.wins|
    requires d.wins[i].visible ==>
      OnScreen(g, d.wins[i].At(x, y).Area()) && FreePlace(d, i, d.wins[i].At(x, y).Area())
    ensures Inv(g, With(d, i, MoveWin(g, d.m, d.wins[i], x, y)))
    ensures Meaning(g, With(d, i, MoveWin(g, d.m, d.wins[i], x, y))) == SceneMove(Meaning(g, d), i, x, y)
  {
    var w := d.wins[i];
    var d' := With(d, i, MoveWin(g, d.m, w, x, y));
    var d1 := With(d, i, HideWin(g, d.m, w));
    HideRefines(g, d, i);
    var d2 := With(d1, i, (d1.m, d1.wins[i].At(x, y)));
    HiddenChange(g, d1, i, d1.wins[i].At(x, y));
    if w.visible {
      ShowRefines(g, d2, i);
      assert d' == With(d2, i, ShowWin(g, d2.m, d2.wins[i]));
    } else {
      assert d' == d2;
    }
    assert Meaning(g, d').panes == SceneMove(Meaning(g, d), i, x, y).panes;
  }

  lemma HiddenChange(g: Geometry, d: Desktop, i: nat, w: Win)
    requires Inv(g, d) && i < |d.wins| && !d.wins[i].visible
    requires WinOk(g, w) && !w.visible
    ensures Inv(g, With(d, i, (d.m, w)))
    ensures Meaning(g, With(d, i, (d.m, w))) ==
      Meaning(g, d).(panes := Meaning(g, d).panes[i := Pane(false, w.Area(), w.fg)])
  {
    var d' := With(d, i, (d.m, w));
    SameBase(g, d, d');
    assert Meaning(g, d').panes == Meaning(g, d).panes[i := Pane(false, w.Area(), w.fg)];
  }

  // Hidden windows have no part in the base.
  lemma SameBase(g: Geometry, d: Desktop, d': Desktop)
    requires Inv(g, d) && Inv(g, d') && d.m == d'.m && |d.wins| == |d'.wins|
    requires forall i :: 0 <= i < |d.wins| ==>
      d.wins[i] == d'.wins[i] || (!d.wins[i].visible && !d'.wins[i].visible)
    ensures Base(g, d') == Base(g, d)
  {
    forall k | 0 <= k < |d.m|
      ensures Base(g, d')[k] == Base(g, d)[k]
    {
      var o := Owner(g, d.wins, k);
      if o >= 0 {
        OwnerIs(g, d'.wins, k, o);
      } else {
        assert forall i :: 0 <= i < |d.wins| && d'.wins[i].visible ==> d.wins[i].visible;
        assert Owner(g, d'.wins, k) < 0;
      }
    }
  }

  // ---------------------------------------------------------------- the order of hiding

  // Two hidden windows are shown one after the other, then hidden in the same order, which is
  // what set_focus(true) and set_focus(false) do to the windows of its map.
  function ShowThenHide(g: Geometry, m: Mem, a: Win, b: Win): (r: Mem)
    requires Fits(g, m) && !a.visible && !b.visible && CanShow(g, a) && CanShow(g, b)
    ensures |r| == |m|
  {
    var (m1, a1) := ShowWin(g, m, a);
    var (m2, b1) := ShowWin(g, m1, b);
    var (m3, a2) := HideWin(g, m2, a1);
    HideWin(g, m3, b1).0
  }

  // The trouble: the second window saved the first one's picture as its background.
  lemma ShowThenHideAt(g: Geometry, m: Mem, a: Win, b: Win, k: nat)
    requires Fits(g, m) && !a.visible && !b.visible && CanShow(g, a) && CanShow(g, b) && k < |m|
    ensures Covers(g, a.Area(), k) ==> 0 <= Pos(g, a.Area(), k) < Size(g, a.Area())
    ensures ShowThenHide(g, m, a, b)[k] ==
      if Covers(g, a.Area(), k) && Covers(g, b.Area(), k) && a.fg.Some?
      then a.fg.value[Pos(g, a.Area(), k)] else m[k]
  {
    var (m1, a1) := ShowWin(g, m, a);
    if Covers(g, a.Area(), k) {
      GrabAt(g, m, a.Area(), k);
    }
    if Covers(g, b.Area(), k) {
      GrabAt(g, m1, b.Area(), k);
    }
  }

  /**
   For any two windows, overlapping or not, that sequence brings the screen back exactly when,
   wherever the two overlap, the first window's picture is what was on the screen before.
   */
  lemma SameOrderHiding(g: Geometry, m: Mem, a: Win, b: Win)
    requires Fits(g, m) && !a.visible && !b.visible && CanShow(g, a) && CanShow(g, b)
    ensures ShowThenHide(g, m, a, b) == m <==>
      (a.fg.Some? ==> forall k :: 0 <= k < |m| && Covers(g, a.Area(), k) && Covers(g, b.Area(), k) ==>
        0 <= Pos(g, a.Area(), k) < |a.fg.value| && a.fg.value[Pos(g, a.Area(), k)] == m[k])
  {
    forall k | 0 <= k < |m|
      ensures Covers(g, a.Area(), k) ==> 0 <= Pos(g, a.Area(), k) < Size(g, a.Area())
      ensures ShowThenHide(g, m, a, b)[k] ==
        if Covers(g, a.Area(), k) && Covers(g, b.Area(), k) && a.fg.Some?
        then a.fg.value[Pos(g, a.Area(), k)] else m[k]
    {
      ShowThenHideAt(g, m, a, b, k);
    }
  }

  // Two hidden windows that can be shown, after which the screen is `m'`.
  ghost predicate Leaves(g: Geometry, m: Mem, a: Win, b: Win, m': Mem) {
    && Fits(g, m) && !a.visible && !b.visible && CanShow(g, a) && CanShow(g, b)
    && ShowThenHide(g, m, a, b) == m'
  }

  // A hidden window over pixel `x` of a line of pixels, with a picture.
  function HiddenPixelWin(x: int, picture: Byte): Win {
    Win(false, x, 0, 0, 0, false, None, Some([picture]))
  }

  /** Two overlapping one-pixel windows after which the screen is not what it was. */
  lemma SameOrderHidingCanFail()
    ensures Leaves(Geometry(1, 1, 1, 1), [0], HiddenPixelWin(0, 1), HiddenPixelWin(0, 2), [1])
  {
    SameSpot(Geometry(1, 1, 1, 1), [0], 0, 1, 2, [1]);
  }

  lemma SameSpot(g: Geometry, m: Mem, x: nat, p: Byte, q: Byte, m': Mem)
    requires g.yres == 1 && g.bpp == 1 && x < g.xres == g.stride == |m| && m' == m[x := p]
    ensures Leaves(g, m, HiddenPixelWin(x, p), HiddenPixelWin(x, q), m')
  {
    var a, b := HiddenPixelWin(x, p), HiddenPixelWin(x, q);
    var r := Rect(x, 0, x, 0);
    assert a.Area() == r && b.Area() == r;
    OnePixel(g, x);
    forall k | 0 <= k < |m|
      ensures ShowThenHide(g, m, a, b)[k] == m'[k]
    {
      ShowThenHideAt(g, m, a, b, k);
      OneCovered(g, x, k);
    }
  }

  lemma OneCovered(g: Geometry, x: nat, k: nat)
    requires g.yres == 1 && g.bpp == 1 && x < g.xres == g.stride && k < g.stride
    ensures Covers(g, Rect(x, 0, x, 0), k) <==> k == x
  {
    DivModUnique(0, k, g.stride);
    assert k / 1 == k;
  }

  /** Hidden in the opposite order, the screen always comes back. */
  lemma OppositeOrderHiding(g: Geometry, m: Mem, a: Win, b: Win)
    requires Fits(g, m) && !a.visible && !b.visible && CanShow(g, a) && CanShow(g, b)
    ensures var (m1, a1) := ShowWin(g, m, a);
      var (m2, b1) := ShowWin(g, m1, b);
      var (m3, b2) := HideWin(g, m2, b1);
      HideWin(g, m3, a1).0 == m
  {
    var (m1, a1) := ShowWin(g, m, a);
    var (m2, b1) := ShowWin(g, m1, b);
    SaveChangeRestore(g, m1, m2, b.Area());
    SaveChangeRestore(g, m, m1, a.Area());
    PopWhole(g, m2, b.Area(), Grab(g, m1, b.Area()));
    PopWhole(g, m1, a.Area(), Grab(g, m, a.Area()));
  }

  /**
   Moving a visible window onto another visible one: the other's picture survives its next hide
   exactly when the two pictures agree where they come to overlap.
   */
  lemma MoveOnto(g: Geometry, d: Desktop, i: nat, j: nat, x: int, y: int)
    requires Inv(g, d) && i < |d.wins| && j < |d.wins| && i != j
    requires d.wins[i].visible && d.wins[j].visible && OnScreen(g, d.wins[i].At(x, y).Area())
    ensures var a := d.wins[i].At(x, y).Area();
      var pic := Grab(g, d.m, d.wins[i].Area());
      HideWin(g, MoveWin(g, d.m, d.wins[i], x, y).0, d.wins[j]).1.fg == Some(Grab(g, d.m, d.wins[j].Area()))
      <==>
      forall k :: 0 <= k < |d.m| && Covers(g, a, k) && Covers(g, d.wins[j].Area(), k) ==>
        0 <= Pos(g, a, k) < |pic| && pic[Pos(g, a, k)] == d.m[k]
  {
    var w, b := d.wins[i], d.wins[j].Area();
    var a := w.At(x, y).Area();
    var pic := Grab(g, d.m, w.Area());
    var m' := MoveWin(g, d.m, w, x, y).0;
    forall k | 0 <= k < |d.m| && Covers(g, b, k)
      ensures Covers(g, a, k) ==> 0 <= Pos(g, a, k) < |pic|
      ensures m'[k] == if Covers(g, a, k) then pic[Pos(g, a, k)] else d.m[k]
    {
      MovedAt(g, d, i, j, x, y, k);
    }
    if Grab(g, m', b) == Grab(g, d.m, b) {
      forall k | 0 <= k < |d.m| && Covers(g, b, k)
        ensures m'[k] == d.m[k]
      {
        GrabAt(g, m', b, k);
        GrabAt(g, d.m, b, k);
      }
    } else {
      if forall k :: 0 <= k < |d.m| && Covers(g, b, k) ==> m'[k] == d.m[k] {
        GrabEqual(g, m', d.m, b);
      }
    }
  }

  /** Two one-pixel windows with different pictures, side by side; the left one moved onto the right
      one takes its picture away. */
  lemma MoveOntoCanFail()
    ensures Spoils(Geometry(2, 1, 2, 1), Desktop([1, 2], [OnePixelWin(0), OnePixelWin(1)]), 0, 1, 1, 0)
  {
    SideBySide(Geometry(2, 1, 2, 1), Desktop([1, 2], [OnePixelWin(0), OnePixelWin(1)]), 0, 1);
  }

  // Both windows are in order and shown, window `i` may move to the place, and then the next hide of
  // window `j` does not save the picture that window had.
  ghost predicate Spoils(g: Geometry, d: Desktop, i: nat, j: nat, x: int, y: int) {
    && Inv(g, d) && i < |d.wins| && j < |d.wins| && i != j && d.wins[i].visible && d.wins[j].visible
    && CanMove(g, d.wins[i], x, y)
    && HideWin(g, MoveWin(g, d.m, d.wins[i], x, y).0, d.wins[j]).1.fg != Some(Grab(g, d.m, d.wins[j].Area()))
  }

  // A visible window over pixel `x` of a line of pixels.
  function OnePixelWin(x: int): Win { Win(true, x, 0, 0, 0, false, Some([0]), None) }

  lemma SideBySide(g: Geometry, d: Desktop, x: nat, y: nat)
    requires g.yres == 1 && g.bpp == 1 && x < y < g.xres == g.stride == |d.m| && d.m[x] != d.m[y]
    requires d.wins == [OnePixelWin(x), OnePixelWin(y)]
    ensures Spoils(g, d, 0, 1, y, 0)
  {
    OnePixel(g, x);
    OnePixel(g, y);
    var a, b := Rect(x, 0, x, 0), Rect(y, 0, y, 0);
    assert d.wins[0].Area() == a && d.wins[1].Area() == b && d.wins[0].At(y, 0).Area() == b;
    assert Disjoint(a, b);
    GrabAt(g, d.m, a, x);
    assert Grab(g, d.m, a)[0] == d.m[x];
    MoveOnto(g, d, 0, 1, y, 0);
  }

  lemma OnePixel(g: Geometry, x: nat)
    requires g.yres == 1 && g.bpp == 1 && x < g.xres == g.stride
    ensures OnScreen(g, Rect(x, 0, x, 0)) && Size(g, Rect(x, 0, x, 0)) == 1
    ensures Covers(g, Rect(x, 0, x, 0), x) && Pos(g, Rect(x, 0, x, 0), x) == 0
  {
    OneCovered(g, x, x);
    DivModUnique(0, x, g.stride);
  }

  lemma MovedAt(g: Geometry, d: Desktop, i: nat, j: nat, x: int, y: int, k: nat)
    requires Inv(g, d) && i < |d.wins| && j < |d.wins| && i != j
    requires d.wins[i].visible && d.wins[j].visible && OnScreen(g, d.wins[i].At(x, y).Area())
    requires k < |d.m| && Covers(g, d.wins[j].Area(), k)
    ensures var a := d.wins[i].At(x, y).Area();
      var pic := Grab(g, d.m, d.wins[i].Area());
      && (Covers(g, a, k) ==> 0 <= Pos(g, a, k) < |pic|)
      && MoveWin(g, d.m, d.wins[i], x, y).0[k] == if Covers(g, a, k) then pic[Pos(g, a, k)] else d.m[k]
  {
    var w := d.wins[i];
    if Covers(g, w.At(x, y).Area(), k) {
      PosInRect(g, w.At(x, y).Area(), k);
    }
    assert Disjoint(w.Area(), d.wins[j].Area());
  }
}
