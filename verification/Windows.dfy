/**
 The classes: a window and its graph port, drawing on a framebuffer, under a window manager.

 Each method is proved to do to the heap what the corresponding function of Overlay, Rendering or
 Session does to values; the theorems about those functions are theirs.
 */
module Windows {
  import opened Basics
  import opened Raster
  import opened FrameBuffers
  import opened Overlay
  import opened Placement
  import opened Rendering
  import Session

  ghost function Saved(buffer: array?<Byte>): Option<Mem>
    reads buffer
  {
    if buffer == null then None else Some(buffer[..])
  }

  // Desktops each of which is the one before with one more window shown ...
  ghost predicate ShowPlan(g: Geometry, plan: seq<Desktop>) {
    forall k :: 0 <= k < |plan| - 1 ==> ShowsNext(g, plan, k)
  }

  ghost predicate ShowsNext(g: Geometry, plan: seq<Desktop>, k: nat)
    requires k < |plan| - 1
  {
    var d := plan[k];
    && Fits(g, d.m) && k < |d.wins| && (!d.wins[k].visible ==> CanShow(g, d.wins[k]))
    && plan[k + 1] == With(d, k, ShowWin(g, d.m, d.wins[k]))
  }

  ghost function PlanToShow(g: Geometry, d: Desktop): (plan: seq<Desktop>)
    requires Fits(g, d.m) && forall k :: 0 <= k < |d.wins| && !d.wins[k].visible ==> CanShow(g, d.wins[k])
    ensures |plan| == |d.wins| + 1 && plan[0] == d && plan[|d.wins|] == Session.ShowUpTo(g, d, |d.wins|)
    ensures ShowPlan(g, plan)
  {
    var plan := seq(|d.wins| + 1, k requires 0 <= k <= |d.wins| => Session.ShowUpTo(g, d, k));
    assert ShowPlan(g, plan) by {
      forall k | 0 <= k < |d.wins|
        ensures ShowsNext(g, plan, k)
      {
        assert plan[k].wins[k] == d.wins[k];
      }
    }
    plan
  }

  // ... hidden ...
  ghost predicate HidePlan(g: Geometry, plan: seq<Desktop>) {
    forall k :: 0 <= k < |plan| - 1 ==> HidesNext(g, plan, k)
  }

  ghost predicate HidesNext(g: Geometry, plan: seq<Desktop>, k: nat)
    requires k < |plan| - 1
  {
    var d := plan[k];
    && Fits(g, d.m) && k < |d.wins| && (d.wins[k].visible ==> CanHide(g, d.wins[k]))
    && plan[k + 1] == With(d, k, HideWin(g, d.m, d.wins[k]))
  }

  ghost function PlanToHide(g: Geometry, d: Desktop): (plan: seq<Desktop>)
    requires Fits(g, d.m) && forall k :: 0 <= k < |d.wins| && d.wins[k].visible ==> CanHide(g, d.wins[k])
    ensures |plan| == |d.wins| + 1 && plan[0] == d && plan[|d.wins|] == Session.HideUpTo(g, d, |d.wins|)
    ensures HidePlan(g, plan)
  {
    var plan := seq(|d.wins| + 1, k requires 0 <= k <= |d.wins| => Session.HideUpTo(g, d, k));
    assert HidePlan(g, plan) by {
      forall k | 0 <= k < |d.wins|
        ensures HidesNext(g, plan, k)
      {
        assert plan[k].wins[k] == d.wins[k];
      }
    }
    plan
  }

  // ... or sent to its place.
  ghost predicate MovePlan(g: Geometry, v: View, gaps: seq<Gaps>, plan: seq<Desktop>) {
    |gaps| == |plan| - 1 && forall k :: 0 <= k < |plan| - 1 ==> MovesNext(g, v, gaps, plan, k)
  }

  ghost predicate MovesNext(g: Geometry, v: View, gaps: seq<Gaps>, plan: seq<Desktop>, k: nat)
    requires k < |plan| - 1 == |gaps|
  {
    var d := plan[k];
    && Fits(g, d.m) && k < |d.wins| && Session.CanPlace(g, v, gaps[k], d.wins[k])
    && var (x, y) := Place(v, gaps[k], d.wins[k].w, d.wins[k].h);
       plan[k + 1] == With(d, k, MoveWin(g, d.m, d.wins[k], x, y))
  }

  ghost function PlanToMove(g: Geometry, v: View, gaps: seq<Gaps>, d: Desktop): (plan: seq<Desktop>)
    requires Fits(g, d.m) && |gaps| == |d.wins|
    requires forall k :: 0 <= k < |d.wins| ==> Session.CanPlace(g, v, gaps[k], d.wins[k])
    ensures |plan| == |d.wins| + 1 && plan[0] == d && plan[|d.wins|] == Session.MoveUpTo(g, v, gaps, d, |d.wins|)
    ensures MovePlan(g, v, gaps, plan)
  {
    var plan := seq(|d.wins| + 1, k requires 0 <= k <= |d.wins| => Session.MoveUpTo(g, v, gaps, d, k));
    assert MovePlan(g, v, gaps, plan) by {
      forall k | 0 <= k < |d.wins|
        ensures MovesNext(g, v, gaps, plan, k)
      {
        assert plan[k].wins[k] == d.wins[k];
      }
    }
    plan
  }

  class GraphPort {
    const gdev: FrameBuffer
    var win: Window?
    var pseudo: bool
    var bufBg: array?<Byte>
    var bufFg: array?<Byte>
    var xTmp: int
    var yTmp: int

    constructor (gdev: FrameBuffer)
      ensures this.gdev == gdev && win == null && pseudo && bufBg == null && bufFg == null
    {
      this.gdev := gdev;
      win, pseudo, bufBg, bufFg, xTmp, yTmp := null, true, null, null, 0, 0;
    }

    ghost predicate Ready()
      reads this, win
    {
      && win != null && win.gp == this && gdev.Valid()
      && bufBg != gdev.mem && bufFg != gdev.mem
    }

    method PushBgBuf()
      requires Ready() && OnScreen(gdev.g, win.Area())
      modifies `bufBg
      ensures Ready() && fresh(bufBg) && Saved(bufBg) == Some(Grab(gdev.g, gdev.mem[..], win.Area()))
    {
      bufBg := null;
      bufBg := gdev.SaveRect(win.Area());
    }

    method PushFgBuf()
      requires Ready() && OnScreen(gdev.g, win.Area())
      modifies `bufFg
      ensures Ready() && fresh(bufFg) && Saved(bufFg) == Some(Grab(gdev.g, gdev.mem[..], win.Area()))
    {
      bufFg := null;
      bufFg := gdev.SaveRect(win.Area());
    }

    method PopBgBuf()
      requires Ready() && OnScreen(gdev.g, win.Area())
      requires bufBg != null ==> bufBg.Length >= Size(gdev.g, win.Area())
      modifies `bufBg, gdev.mem
      ensures Ready() && bufBg == null
      ensures gdev.mem[..] == PopBuf(gdev.g, old(gdev.mem[..]), win.Area(), old(Saved(bufBg)))
    {
      if bufBg != null {
        gdev.RstrRect(win.Area(), bufBg);
        bufBg := null;
      }
    }

    method PopFgBuf()
      requires Ready() && OnScreen(gdev.g, win.Area())
      requires bufFg != null ==> bufFg.Length >= Size(gdev.g, win.Area())
      modifies `bufFg, gdev.mem
      ensures Ready() && bufFg == null
      ensures gdev.mem[..] == PopBuf(gdev.g, old(gdev.mem[..]), win.Area(), old(Saved(bufFg)))
    {
      if bufFg != null {
        gdev.RstrRect(win.Area(), bufFg);
        bufFg := null;
      }
    }

    method SetPseudo(flag: bool)
      requires Ready() && win.Valid()
      requires flag && !pseudo ==> CanResize(gdev.g, win.State(), win.Manager(), 0, 0)
      modifies this, win, gdev.mem
      ensures win == old(win) && Ready() && win.Valid() && win.wm == old(win.wm)
      ensures (gdev.mem[..], win.State())
        == PseudoWin(gdev.g, old(gdev.mem[..]), old(win.State()), old(win.Manager()), flag)
    {
      if flag != pseudo && flag {
        win.Wh(0, 0);
      }
      pseudo := flag;
    }

    method SetXY(x: int, y: int)
      modifies `xTmp, `yTmp
      ensures xTmp == x && yTmp == y
    {
      xTmp, yTmp := x, y;
    }

    // In pseudo mode a shape is measured, otherwise it is drawn at its place in the window.
    method Draw(s: Shape)
      requires Ready() && win.Valid()
      requires pseudo ==> CanMeasure(gdev.g, win.State(), win.Manager(), s.x + s.xMax, s.y + s.yMax)
      requires !pseudo ==> CanDraw(gdev.g, win.State().Area(), s)
      modifies this, win, gdev.mem
      ensures win == old(win) && Ready() && win.Valid() && win.wm == old(win.wm)
      ensures (gdev.mem[..], win.State()) ==
        if old(pseudo) then
          MeasureWin(gdev.g, old(gdev.mem[..]), old(win.State()), old(win.Manager()), s.x + s.xMax, s.y + s.yMax)
        else
          (Blit(gdev.g, old(gdev.mem[..]), s.Box(old(win.State().Area())), s.ink), old(win.State()))
    {
      if pseudo {
        win.Measure(s.x + s.xMax, s.y + s.yMax);
      } else {
        SetXY(win.posX + s.x, win.posY + s.y);
        gdev.Paint(Rect(xTmp, yTmp, xTmp + s.xMax, yTmp + s.yMax), s.ink);
      }
    }
  }

  class Window {
    const gp: GraphPort
    var visible: bool
    var posX: int
    var posY: int
    var width: int
    var height: int
    var wm: Cwm?

    constructor (gdev: FrameBuffer)
      requires gdev.Valid()
      ensures Valid() && fresh(gp) && gp.gdev == gdev && wm == null
      ensures State() == Session.NewWin()
    {
      visible, posX, posY, width, height := false, 0, 0, 0, 0;
      gp := new GraphPort(gdev);
      wm := null;
      new;
      gp.win := this;
    }

    function Area(): Rect
      reads this
    {
      Rect(posX, posY, posX + width, posY + height)
    }

    ghost function State(): Win
      reads this, gp, gp.bufBg, gp.bufFg
    {
      Win(visible, posX, posY, width, height, gp.pseudo, Saved(gp.bufBg), Saved(gp.bufFg))
    }

    ghost predicate Valid()
      reads this, gp, wm
    {
      && gp.win == this && gp.gdev.Valid()
      && gp.bufBg != gp.gdev.mem && gp.bufFg != gp.gdev.mem
      && (wm != null ==> this in wm.shifts && wm.shifts[this].cwm == wm)
    }

    // What the window's manager would tell it.
    ghost function Manager(): Wm
      requires Valid()
      reads this, gp, wm
    {
      if wm == null then NoWm else Managed(wm.Sight(), wm.shifts[this].gaps)
    }

    method Show()
      requires Valid() && (!visible ==> CanShow(gp.gdev.g, State()))
      modifies this, gp, gp.gdev.mem
      ensures Valid() && wm == old(wm)
      ensures (gp.gdev.mem[..], State()) == ShowWin(gp.gdev.g, old(gp.gdev.mem[..]), old(State()))
    {
      if !visible {
        visible := true;
        gp.PushBgBuf();
        gp.PopFgBuf();
      }
    }

    method Hide()
      requires Valid() && (visible ==> CanHide(gp.gdev.g, State()))
      modifies this, gp, gp.gdev.mem
      ensures Valid() && wm == old(wm)
      ensures (gp.gdev.mem[..], State()) == HideWin(gp.gdev.g, old(gp.gdev.mem[..]), old(State()))
    {
      if visible {
        visible := false;
        gp.PushFgBuf();
        gp.PopBgBuf();
      }
    }

    method Wh(newWidth: int, newHeight: int)
      requires Valid() && CanResize(gp.gdev.g, State(), Manager(), newWidth, newHeight)
      modifies this, gp, gp.gdev.mem
      ensures Valid() && wm == old(wm)
      ensures (gp.gdev.mem[..], State())
        == ResizeWin(gp.gdev.g, old(gp.gdev.mem[..]), old(State()), old(Manager()), newWidth, newHeight)
    {
      var prevVisible := visible;
      Hide();
      width, height := newWidth, newHeight;
      if wm != null {
        wm.Update(this);
      }
      if prevVisible {
        Show();
      }
    }

    method Xy(newX: int, newY: int)
      requires Valid() && CanMove(gp.gdev.g, State(), newX, newY)
      modifies this, gp, gp.gdev.mem
      ensures Valid() && wm == old(wm)
      ensures (gp.gdev.mem[..], State()) == MoveWin(gp.gdev.g, old(gp.gdev.mem[..]), old(State()), newX, newY)
    {
      var prevVisible := visible;
      Hide();
      posX, posY := newX, newY;
      if prevVisible {
        Show();
      }
    }

    method Measure(maxX: int, maxY: int)
      requires Valid() && CanMeasure(gp.gdev.g, State(), Manager(), maxX, maxY)
      modifies this, gp, gp.gdev.mem
      ensures Valid() && wm == old(wm)
      ensures (gp.gdev.mem[..], State())
        == MeasureWin(gp.gdev.g, old(gp.gdev.mem[..]), old(State()), old(Manager()), maxX, maxY)
    {
      var maxWidth, maxHeight, isLarger := width, height, false;
      if maxX > width {
        maxWidth, isLarger := maxX, true;
      }
      if maxY > height {
        maxHeight, isLarger := maxY, true;
      }
      if isLarger {
        Wh(maxWidth, maxHeight);
      }
    }

    // Widget::render, for a widget whose drawing consists of `shapes`.
    method Render(shapes: seq<Shape>)
      requires Valid() && CanRender(gp.gdev.g, gp.gdev.mem[..], State(), Manager(), shapes)
      modifies this, gp, gp.gdev.mem
      ensures Valid() && wm == old(wm)
      ensures (gp.gdev.mem[..], State())
        == RenderWin(gp.gdev.g, old(gp.gdev.mem[..]), old(State()), old(Manager()), shapes)
    {
      var prevVisible := visible;
      Estimate(shapes);
      Capture(shapes);
      if prevVisible {
        Show();
      }
    }

    // The first half of render: out of sight, find the size and with it the place.
    method Estimate(shapes: seq<Shape>)
      requires Valid() && (visible ==> CanHide(gp.gdev.g, State()))
      modifies this, gp, gp.gdev.mem
      ensures Valid() && wm == old(wm)
      ensures gp.gdev.mem[..] == HideWin(gp.gdev.g, old(gp.gdev.mem[..]), old(State())).0
      ensures State() == Measured(gp.gdev.g, old(gp.gdev.mem[..]), old(State()), old(Manager()), shapes)
    {
      Hide();
      gp.SetPseudo(true);
      DrawMeasuring(shapes);
    }

    // The second half of render: draw on the screen, keep the picture, put the screen back.
    method Capture(shapes: seq<Shape>)
      requires Valid() && OnScreen(gp.gdev.g, State().Area())
      requires forall s :: s in shapes ==> CanDraw(gp.gdev.g, State().Area(), s)
      modifies this, gp, gp.gdev.mem
      ensures Valid() && wm == old(wm)
      ensures var g, m, w := gp.gdev.g, old(gp.gdev.mem[..]), old(State());
        && gp.gdev.mem[..] == Blit(g, DrawAll(g, m, w.Area(), shapes), w.Area(), Grab(g, m, w.Area()))
        && State() == w.(pseudo := false, bg := None, fg := Some(Grab(g, DrawAll(g, m, w.Area(), shapes), w.Area())))
    {
      gp.PushBgBuf();
      gp.SetPseudo(false);
      DrawReal(shapes);
      TakeBack();
    }

    method TakeBack()
      requires Valid() && OnScreen(gp.gdev.g, State().Area())
      requires State().bg.Some? && |State().bg.value| == Size(gp.gdev.g, State().Area())
      modifies this, gp, gp.gdev.mem
      ensures Valid() && wm == old(wm)
      ensures var g, m, w := gp.gdev.g, old(gp.gdev.mem[..]), old(State());
        && gp.gdev.mem[..] == Blit(g, m, w.Area(), w.bg.value)
        && State() == w.(bg := None, fg := Some(Grab(g, m, w.Area())))
    {
      PopWhole(gp.gdev.g, gp.gdev.mem[..], State().Area(), State().bg.value);
      gp.PushFgBuf();
      gp.PopBgBuf();
    }

    // A widget's draw() while its port is in pseudo mode ...
    method DrawMeasuring(shapes: seq<Shape>)
      requires Valid() && gp.pseudo && !visible
      modifies this, gp, gp.gdev.mem
      ensures Valid() && wm == old(wm)
      ensures gp.gdev.mem[..] == old(gp.gdev.mem[..])
      ensures State() == MeasureAll(gp.gdev.g, old(gp.gdev.mem[..]), old(State()), old(Manager()), shapes)
    {
      ghost var m, w0 := gp.gdev.mem[..], State();
      for n := 0 to |shapes|
        invariant Valid() && wm == old(wm) && gp.gdev.mem[..] == m
        invariant State() == MeasureAll(gp.gdev.g, m, w0, old(Manager()), shapes[..n])
      {
        assert shapes[..n + 1][..n] == shapes[..n];
        gp.Draw(shapes[n]);
      }
      assert shapes[..|shapes|] == shapes;
    }

    // ... and when it is not.
    method DrawReal(shapes: seq<Shape>)
      requires Valid() && !gp.pseudo && (forall s :: s in shapes ==> CanDraw(gp.gdev.g, State().Area(), s))
      modifies this, gp, gp.gdev.mem
      ensures Valid() && wm == old(wm)
      ensures State() == old(State())
      ensures gp.gdev.mem[..] == DrawAll(gp.gdev.g, old(gp.gdev.mem[..]), old(State().Area()), shapes)
    {
      ghost var m, w0 := gp.gdev.mem[..], State();
      for n := 0 to |shapes|
        invariant Valid() && wm == old(wm) && State() == w0
        invariant gp.gdev.mem[..] == DrawAll(gp.gdev.g, m, w0.Area(), shapes[..n])
      {
        assert shapes[..n + 1][..n] == shapes[..n];
        assert shapes[n] in shapes;
        gp.Draw(shapes[n]);
      }
      assert shapes[..|shapes|] == shapes;
    }
  }

  // StatusShift, PreeditShift and LookupChoiceShift have the same update and differ in their gaps.
  class Shift {
    const gaps: Gaps
    const cwm: Cwm

    constructor (xShift: int, yShift: int, cwm: Cwm)
      ensures gaps == Gaps(xShift, yShift) && this.cwm == cwm
    {
      gaps, this.cwm := Gaps(xShift, yShift), cwm;
    }

    method Update(win: Window)
      requires win.Valid()
      requires CanMove(win.gp.gdev.g, win.State(),
                       Place(cwm.Sight(), gaps, win.width, win.height).0,
                       Place(cwm.Sight(), gaps, win.width, win.height).1)
      modifies win, win.gp, win.gp.gdev.mem
      ensures win.Valid() && win.wm == old(win.wm)
      ensures var (x, y) := old(Place(cwm.Sight(), gaps, win.width, win.height));
        (win.gp.gdev.mem[..], win.State())
          == MoveWin(win.gp.gdev.g, old(win.gp.gdev.mem[..]), old(win.State()), x, y)
    {
      var xres, yres := cwm.gdev.g.xres - 16, cwm.gdev.g.yres - 16;
      var x, y := cwm.cursorX, cwm.cursorY;
      var height, width := win.height, win.width;
      var overX, overY := (x + width) - xres, (y + height) - yres;
      var shiftX, shiftY := gaps.x, gaps.y;
      if overX + shiftX > 0 {
        shiftX := -1 * overX;
      }
      if overY + shiftY > 0 {
        shiftY := shiftY * -1;
        shiftY := shiftY - height;
      }
      win.Xy(x + shiftX, y + shiftY);
    }
  }

  class Cwm {
    const gdev: FrameBuffer
    var cursorX: int
    var cursorY: int
    var focus: bool
    var order: seq<Window>            // the keys of the map, in the order it iterates over them
    var shifts: map<Window, Shift>
    ghost var owned: set<Window>      // the windows of the map
    ghost var ports: set<GraphPort>   // and their graph ports

    constructor (gdev: FrameBuffer)
      ensures this.gdev == gdev && cursorX == cursorY == 0 && !focus && order == [] && shifts == map[]
      ensures owned == {} && ports == {}
    {
      this.gdev := gdev;
      cursorX, cursorY, focus, order, shifts := 0, 0, false, [], map[];
      owned, ports := {}, {};
    }

    function Sight(): View
      reads this
    {
      View(gdev.g.xres, gdev.g.yres, cursorX, cursorY)
    }

    method Update(cw: Window)
      requires cw in shifts && shifts[cw].cwm == this && cw.Valid()
      requires CanMove(cw.gp.gdev.g, cw.State(),
                       Place(Sight(), shifts[cw].gaps, cw.width, cw.height).0,
                       Place(Sight(), shifts[cw].gaps, cw.width, cw.height).1)
      modifies cw, cw.gp, cw.gp.gdev.mem
      ensures cw.Valid() && cw.wm == old(cw.wm)
      ensures var (x, y) := old(Place(Sight(), shifts[cw].gaps, cw.width, cw.height));
        (cw.gp.gdev.mem[..], cw.State())
          == MoveWin(cw.gp.gdev.g, old(cw.gp.gdev.mem[..]), old(cw.State()), x, y)
    {
      var s := shifts[cw];
      s.Update(cw);
    }

    ghost predicate Valid()
      reads this, owned, ports
    {
      && gdev.Valid()
      && (forall i, j :: 0 <= i < j < |order| ==> order[i] != order[j])
      && (forall w :: w in order ==> w in owned && w.gp in ports)
      && (forall w :: w in order ==>
        w.gp.gdev == gdev && w.wm == this && w in shifts && shifts[w].cwm == this && w.Valid())
    }

    ghost function Desk(): (d: Desktop)
      requires Valid()
      reads *
      ensures |d.wins| == |order|
      ensures forall i :: 0 <= i < |order| ==> d.wins[i] == order[i].State()
    {
      Desktop(gdev.mem[..], seq(|order|, i requires 0 <= i < |order| reads * => order[i].State()))
    }

    ghost function AllGaps(): (s: seq<Gaps>)
      requires Valid()
      reads this, owned, ports
      ensures |s| == |order|
    {
      seq(|order|, i requires 0 <= i < |order| && order[i] in shifts reads this => shifts[order[i]].gaps)
    }

    ghost function State(): Session.Cwm
      requires Valid()
      reads *
    {
      Session.Cwm(gdev.g, cursorX, cursorY, focus, AllGaps(), Desk())
    }

    // One round of each loop: the other windows do not notice.
    method ShowAt(i: nat)
      requires Valid() && i < |order| && (!order[i].visible ==> CanShow(gdev.g, order[i].State()))
      modifies order[i], order[i].gp, gdev.mem
      ensures Valid() && AllGaps() == old(AllGaps())
      ensures Desk() == old(With(Desk(), i, ShowWin(gdev.g, gdev.mem[..], order[i].State())))
    {
      order[i].Show();
      assert Desk().wins == old(Desk()).wins[i := order[i].State()];
    }

    method HideAt(i: nat)
      requires Valid() && i < |order| && (order[i].visible ==> CanHide(gdev.g, order[i].State()))
      modifies order[i], order[i].gp, gdev.mem
      ensures Valid() && AllGaps() == old(AllGaps())
      ensures Desk() == old(With(Desk(), i, HideWin(gdev.g, gdev.mem[..], order[i].State())))
    {
      order[i].Hide();
      assert Desk().wins == old(Desk()).wins[i := order[i].State()];
    }

    method UpdateAt(i: nat)
      requires Valid() && i < |order| && Session.CanPlace(gdev.g, Sight(), AllGaps()[i], order[i].State())
      modifies order[i], order[i].gp, gdev.mem
      ensures Valid() && AllGaps() == old(AllGaps())
      ensures Desk() == old(
        var w := order[i].State();
        var (x, y) := Place(Sight(), AllGaps()[i], w.w, w.h);
        With(Desk(), i, MoveWin(gdev.g, gdev.mem[..], w, x, y)))
    {
      var w := order[i];
      var s := shifts[w];
      s.Update(w);
      assert Desk().wins == old(Desk()).wins[i := order[i].State()];
    }

    // The desktop as a value.
    ghost predicate Holds(d: Desktop, gaps: seq<Gaps>)
      reads *
    {
      Valid() && AllGaps() == gaps && Desk() == d
    }

    // One round of the loop, along a plan of desktops.
    method ShowNext(i: nat, ghost plan: seq<Desktop>, ghost gaps: seq<Gaps>)
      requires i < |order| == |plan| - 1 && ShowPlan(gdev.g, plan) && Holds(plan[i], gaps)
      modifies owned, ports, gdev.mem
      ensures Holds(plan[i + 1], gaps)
    {
      assert ShowsNext(gdev.g, plan, i) && Desk().wins[i] == order[i].State();
      ShowAt(i);
    }

    method ShowAlong(ghost plan: seq<Desktop>, ghost gaps: seq<Gaps>)
      requires |order| == |plan| - 1 && ShowPlan(gdev.g, plan) && Holds(plan[0], gaps)
      modifies owned, ports, gdev.mem
      ensures Holds(plan[|order|], gaps)
    {
      for i := 0 to |order|
        invariant Holds(plan[i], gaps)
      {
        ShowNext(i, plan, gaps);
      }
    }

    method ShowAll()
      requires Valid() && forall i :: 0 <= i < |order| && !Desk().wins[i].visible ==> CanShow(gdev.g, Desk().wins[i])
      modifies owned, ports, gdev.mem
      ensures Valid() && AllGaps() == old(AllGaps())
      ensures Desk() == Session.ShowUpTo(gdev.g, old(Desk()), |order|)
    {
      ghost var plan := PlanToShow(gdev.g, Desk());
      ShowAlong(plan, AllGaps());
    }

    method HideNext(i: nat, ghost plan: seq<Desktop>, ghost gaps: seq<Gaps>)
      requires i < |order| == |plan| - 1 && HidePlan(gdev.g, plan) && Holds(plan[i], gaps)
      modifies owned, ports, gdev.mem
      ensures Holds(plan[i + 1], gaps)
    {
      assert HidesNext(gdev.g, plan, i) && Desk().wins[i] == order[i].State();
      HideAt(i);
    }

    method HideAlong(ghost plan: seq<Desktop>, ghost gaps: seq<Gaps>)
      requires |order| == |plan| - 1 && HidePlan(gdev.g, plan) && Holds(plan[0], gaps)
      modifies owned, ports, gdev.mem
      ensures Holds(plan[|order|], gaps)
    {
      for i := 0 to |order|
        invariant Holds(plan[i], gaps)
      {
        HideNext(i, plan, gaps);
      }
    }

    method HideAll()
      requires Valid() && forall i :: 0 <= i < |order| && Desk().wins[i].visible ==> CanHide(gdev.g, Desk().wins[i])
      modifies owned, ports, gdev.mem
      ensures Valid() && AllGaps() == old(AllGaps())
      ensures Desk() == Session.HideUpTo(gdev.g, old(Desk()), |order|)
    {
      ghost var plan := PlanToHide(gdev.g, Desk());
      HideAlong(plan, AllGaps());
    }

    method UpdateNext(i: nat, ghost plan: seq<Desktop>, ghost gaps: seq<Gaps>)
      requires i < |order| == |plan| - 1 && MovePlan(gdev.g, Sight(), gaps, plan) && Holds(plan[i], gaps)
      modifies owned, ports, gdev.mem
      ensures Holds(plan[i + 1], gaps)
    {
      assert MovesNext(gdev.g, Sight(), gaps, plan, i) && Desk().wins[i] == order[i].State();
      UpdateAt(i);
    }

    method UpdateAlong(ghost plan: seq<Desktop>, ghost gaps: seq<Gaps>, ghost v: View)
      requires |order| == |plan| - 1 && MovePlan(gdev.g, v, gaps, plan) && Holds(plan[0], gaps) && v == Sight()
      modifies owned, ports, gdev.mem
      ensures Holds(plan[|order|], gaps)
    {
      for i := 0 to |order|
        invariant Holds(plan[i], gaps) && v == Sight()
      {
        UpdateNext(i, plan, gaps);
      }
    }

    method UpdateAll()
      requires Valid()
      requires forall i :: 0 <= i < |order| ==> Session.CanPlace(gdev.g, Sight(), AllGaps()[i], Desk().wins[i])
      modifies owned, ports, gdev.mem
      ensures Valid() && AllGaps() == old(AllGaps())
      ensures Desk() == Session.MoveUpTo(gdev.g, Sight(), AllGaps(), old(Desk()), |order|)
    {
      ghost var plan := PlanToMove(gdev.g, Sight(), AllGaps(), Desk());
      UpdateAlong(plan, AllGaps(), Sight());
    }

    method ChangeFocus(newFocus: bool)
      requires Valid()
      modifies `focus
      ensures Valid() && focus == newFocus
      ensures AllGaps() == old(AllGaps()) && Desk() == old(Desk())
    {
      ghost var d := Desk();
      focus := newFocus;
      assert Desk().wins == d.wins;
    }

    method SetFocus(newFocus: bool)
      requires Valid() && Session.CanFocus(State(), newFocus)
      modifies `focus, owned, ports, gdev.mem
      ensures Valid() && State() == Session.SetFocus(old(State()), newFocus)
    {
      if newFocus != focus && order != [] {
        if newFocus {
          FocusOn();
        } else {
          FocusOff();
        }
      }
    }

    method FocusOn()
      requires Valid() && forall i :: 0 <= i < |order| && !Desk().wins[i].visible ==> CanShow(gdev.g, Desk().wins[i])
      modifies `focus, owned, ports, gdev.mem
      ensures Valid() && focus == true && AllGaps() == old(AllGaps())
      ensures Desk() == Session.ShowUpTo(gdev.g, old(Desk()), |order|)
    {
      ChangeFocus(true);
      ShowAll();
    }

    method FocusOff()
      requires Valid() && forall i :: 0 <= i < |order| && Desk().wins[i].visible ==> CanHide(gdev.g, Desk().wins[i])
      modifies `focus, owned, ports, gdev.mem
      ensures Valid() && focus == false && AllGaps() == old(AllGaps())
      ensures Desk() == Session.HideUpTo(gdev.g, old(Desk()), |order|)
    {
      ChangeFocus(false);
      HideAll();
    }

    method MoveCursor(newX: int, newY: int)
      requires Valid()
      modifies `cursorX, `cursorY
      ensures Valid() && cursorX == newX && cursorY == newY
      ensures AllGaps() == old(AllGaps()) && Desk() == old(Desk())
    {
      ghost var d := Desk();
      cursorX, cursorY := newX, newY;
      assert Desk().wins == d.wins;
    }

    method SetPosition(newX: int, newY: int)
      requires Valid() && Session.CanPosition(State(), newX, newY)
      modifies `cursorX, `cursorY, owned, ports, gdev.mem
      ensures Valid() && State() == Session.SetPosition(old(State()), newX, newY)
    {
      if newX != cursorX || newY != cursorY {
        ghost var c := State();
        MoveCursor(newX, newY);
        UpdateAll();
        assert Desk() == Session.MoveUpTo(c.g, c.(cursorX := newX, cursorY := newY).Sight(), c.gaps, c.d, |c.d.wins|);
      }
    }

    // The map is ordered by address; nothing is known about where the new key goes.
    method AttachWindow(newWin: Window, newShift: Shift)
      requires Valid() && newWin.Valid() && newWin.gp.gdev == gdev && newShift.cwm == this
      requires newWin !in order && newWin.wm == null
      modifies `order, `shifts, `owned, `ports, newWin`wm
      ensures Valid() && newWin.wm == this
      ensures shifts == old(shifts)[newWin := newShift]
      ensures owned == old(owned) + {newWin} && ports == old(ports) + {newWin.gp}
      ensures exists k :: 0 <= k <= |old(order)| && order == old(order[..k]) + [newWin] + old(order[k..])
    {
      var k :| 0 <= k <= |order|;
      shifts := shifts[newWin := newShift];
      order := order[..k] + [newWin] + order[k..];
      owned, ports := owned + {newWin}, ports + {newWin.gp};
      newWin.wm := this;
    }
  }

  // The state of the library's refresh calls.
  class Ucimf {
    const cwm: Cwm
    var prevFocus: bool

    constructor (cwm: Cwm)
      ensures this.cwm == cwm && !prevFocus
    {
      this.cwm, prevFocus := cwm, false;
    }

    method NoteFocus()
      requires cwm.Valid()
      modifies this
      ensures cwm.Valid() && prevFocus == cwm.focus && cwm.State() == old(cwm.State())
    {
      ghost var d := cwm.Desk();
      prevFocus := cwm.focus;
      assert cwm.Desk().wins == d.wins;
    }

    method RefreshBegin()
      requires cwm.Valid() && Session.CanFocus(cwm.State(), false)
      modifies this, cwm`focus, cwm.owned, cwm.ports, cwm.gdev.mem
      ensures cwm.Valid() && cwm.State() == Session.SetFocus(old(cwm.State()), false)
      ensures prevFocus == old(cwm.focus)
    {
      NoteFocus();
      cwm.SetFocus(false);
    }

    method RefreshEnd()
      requires cwm.Valid() && Session.CanFocus(cwm.State(), prevFocus)
      modifies cwm`focus, cwm.owned, cwm.ports, cwm.gdev.mem
      ensures cwm.Valid() && cwm.State() == Session.SetFocus(old(cwm.State()), prevFocus)
    {
      cwm.SetFocus(prevFocus);
    }

    method CursorPosition(x: int, y: int)
      requires cwm.Valid() && Session.CanPosition(cwm.State(), x, y)
      modifies cwm`cursorX, cwm`cursorY, cwm.owned, cwm.ports, cwm.gdev.mem
      ensures cwm.Valid() && cwm.State() == Session.SetPosition(old(cwm.State()), x, y)
    {
      cwm.SetPosition(x, y);
    }

    // What the terminal does between begin and end.
    method Repaint(image: Mem)
      requires cwm.Valid() && |image| == cwm.gdev.mem.Length
      modifies cwm.gdev.mem
      ensures cwm.Valid() && cwm.State() == Session.Repaint(old(cwm.State()), image)
    {
      ghost var d := cwm.Desk();
      var mem := cwm.gdev.mem;
      forall i | 0 <= i < mem.Length {
        mem[i] := image[i];
      }
      assert mem[..] == image;
      assert cwm.Desk().wins == d.wins;
    }

    // How jfbterm brackets its refresh.
    method TermRefresh(image: Mem, x: int, y: int)
      requires cwm.Valid() && Session.CwmInv(cwm.State()) && cwm.order != []
      requires |image| == cwm.gdev.mem.Length
      requires cwm.focus ==> Session.Roomy(Session.Elsewhere(cwm.State(), x, y))
      modifies this, cwm`focus, cwm`cursorX, cwm`cursorY, cwm.owned, cwm.ports, cwm.gdev.mem
      ensures cwm.Valid()
      ensures Some(cwm.State()) == Session.Bracket(old(cwm.State()), image, x, y)
    {
      Session.RefreshBracket(cwm.State(), image, x, y);
      BeginAndPaint(image);
      MoveAndEnd(x, y);
    }

    method BeginAndPaint(image: Mem)
      requires cwm.Valid() && Session.CanFocus(cwm.State(), false) && |image| == cwm.gdev.mem.Length
      modifies this, cwm`focus, cwm.owned, cwm.ports, cwm.gdev.mem
      ensures cwm.Valid() && prevFocus == old(cwm.focus)
      ensures cwm.State() == Session.Repaint(Session.SetFocus(old(cwm.State()), false), image)
    {
      RefreshBegin();
      Repaint(image);
    }

    method MoveAndEnd(x: int, y: int)
      requires cwm.Valid() && Session.CanPosition(cwm.State(), x, y)
      requires Session.CanFocus(Session.SetPosition(cwm.State(), x, y), prevFocus)
      modifies cwm`focus, cwm`cursorX, cwm`cursorY, cwm.owned, cwm.ports, cwm.gdev.mem
      ensures cwm.Valid()
      ensures cwm.State() == Session.SetFocus(Session.SetPosition(old(cwm.State()), x, y), prevFocus)
    {
      CursorPosition(x, y);
      RefreshEnd();
    }
  }
}
