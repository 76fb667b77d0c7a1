/**
 ucimf's own three windows: with the gaps ucimf_init gives them and the shapes their widgets draw,
 everything Session asks of a layout comes down to each window having room for itself.
 */
module ThreeWindows {
  import opened Basics
  import opened Raster
  import opened Overlay
  import opened Placement
  import opened Rendering
  import opened Session

  // The font's height, and which place in the manager's map each window has.
  datatype Kit = Kit(font: nat, status: nat, preedit: nat, choices: nat)

  ghost predicate HasKit(c: Cwm, k: Kit) {
    && |c.d.wins| == |c.gaps| == 3
    && k.status < 3 && k.preedit < 3 && k.choices < 3
    && k.status != k.preedit && k.preedit != k.choices && k.choices != k.status
    && c.gaps[k.status] == StatusGaps(k.font)
    && c.gaps[k.preedit] == PreeditGaps(k.font)
    && c.gaps[k.choices] == LookupGaps(k.font)
  }

  // The status and preedit windows stay within the height that keeps the three apart.
  ghost predicate KitInv(c: Cwm, k: Kit) {
    && CwmInv(c) && HasKit(c, k)
    && c.d.wins[k.status].h <= k.font + 7 && c.d.wins[k.preedit].h <= k.font + 7
  }

  predicate CursorOnScreen(c: Cwm) {
    0 <= c.cursorX && 0 <= c.cursorY < c.g.yres
  }

  // Each window has room of its own: narrow enough, and enough lines below or above the cursor.
  ghost predicate Room(c: Cwm) {
    && |c.d.wins| == |c.gaps| == 3
    && CursorOnScreen(c) && OwnRoom(c, 0) && OwnRoom(c, 1) && OwnRoom(c, 2)
  }

  predicate RoomFor(c: Cwm, i: nat, w: int, h: int)
    requires i < |c.gaps|
  {
    && CursorOnScreen(c)
    && w <= c.g.xres - 16
    && (c.cursorY + c.gaps[i].y + h <= c.g.yres - 16 || c.gaps[i].y + h <= c.cursorY)
  }

  // ---------------------------------------------------------------- what happens

  // What the shapes of a widget leave: one image a shape.
  type FiveInks = s: seq<Mem> | |s| == 5 witness [[], [], [], [], []]
  type ThreeInks = s: seq<Mem> | |s| == 3 witness [[], [], []]

  datatype Action =
    | Switch(on: bool)
    | Bracket(image: Mem, x: int, y: int)
    | Position(x: int, y: int)
    | DrawStatus(tx: nat, t2x: nat, five: FiveInks)
    | DrawPreedit(tx: nat, rows: nat, ink: ThreeInks)
    | DrawChoices(tx: nat, rows: nat, ink: ThreeInks)

  // What a shape leaves is an image of its box.
  predicate InkFits(g: Geometry, shapes: seq<Shape>) {
    forall s :: s in shapes ==>
      0 <= s.xMax && 0 <= s.yMax && |s.ink| == (s.yMax + 1) * ((s.xMax + 1) * g.bpp)
  }

  function Border(rows: nat): nat { if rows > 0 then 3 else 0 }

  ghost predicate Possible(c: Cwm, k: Kit, a: Action)
    requires HasKit(c, k)
  {
    match a
    case Switch(on) => on ==> Room(c)
    case Bracket(m, x, y) => |m| == |c.d.m| && (c.focus ==> Room(Elsewhere(c, x, y)))
    case Position(x, y) => ClearWay(c.g, c.d, Places(View(c.g.xres, c.g.yres, x, y), c.gaps, c.d.wins))
    case DrawStatus(tx, t2x, ink) =>
      && InkFits(c.g, StatusShapes(tx, t2x, k.font, ink))
      && RoomFor(c, k.status, tx + t2x + 6, k.font + 3)
    case DrawPreedit(tx, rows, ink) =>
      && rows <= 1 && InkFits(c.g, ListShapes(tx, rows, k.font, ink))
      && RoomFor(c, k.preedit, tx + Border(rows), k.font * rows + Border(rows))
    case DrawChoices(tx, rows, ink) =>
      && InkFits(c.g, ListShapes(tx, rows, k.font, ink))
      && RoomFor(c, k.choices, tx + Border(rows), k.font * rows + Border(rows))
  }

  function EventOf(k: Kit, a: Action): Event {
    match a
    case Switch(on) => Focus(on)
    case Bracket(m, x, y) => Refresh(m, x, y)
    case Position(x, y) => Cursor(x, y)
    case DrawStatus(tx, t2x, ink) => Draw(k.status, StatusShapes(tx, t2x, k.font, ink))
    case DrawPreedit(tx, rows, ink) => Draw(k.preedit, ListShapes(tx, rows, k.font, ink))
    case DrawChoices(tx, rows, ink) => Draw(k.choices, ListShapes(tx, rows, k.font, ink))
  }

  // ---------------------------------------------------------------- drawing

  // Where a window is before its manager has ever placed it.
  predicate AtOrigin(w: Win) { w.x == w.y == w.w == w.h == 0 }

  // A window of the size its shapes ask for is on the screen, and so are the shapes.
  lemma MeasuredFits(c: Cwm, i: nat, shapes: seq<Shape>, w: nat, h: nat)
    requires Inv(c.g, c.d) && |c.gaps| == |c.d.wins| && i < |c.d.wins| && c.gaps[i].x == 0 && 0 < c.gaps[i].y
    requires IsExtent(shapes, w, h) && Within(shapes) && InkFits(c.g, shapes) && RoomFor(c, i, w, h)
    requires var r := Measured(c.g, c.d.m, c.d.wins[i], c.WmOf(i), shapes); Placed(r, c.WmOf(i)) || AtOrigin(r)
    ensures CanDrawWidget(c, i, shapes)
    ensures var r := Measured(c.g, c.d.m, c.d.wins[i], c.WmOf(i), shapes); r.w == w && r.h == h
  {
    var r := Measured(c.g, c.d.m, c.d.wins[i], c.WmOf(i), shapes);
    RenderMeasures(c.g, c.d.m, c.d.wins[i], c.WmOf(i), shapes);
    ExtentUnique(shapes, w, h, r.w, r.h);
    var area := r.Area();
    if Placed(r, c.WmOf(i)) {
      AreaIsPlace(r, c.Sight(), c.gaps[i]);
      HorizontalPlacement(c.Sight(), c.gaps[i], w, h);
      VerticalPlacement(c.Sight(), c.gaps[i], w, h);
    }
    assert OnScreen(c.g, area);
    forall s | s in shapes
      ensures CanDraw(c.g, area, s)
    {
      BoxFits(c.g, area, s, w, h);
    }
  }

  lemma DrawFits(c: Cwm, i: nat, shapes: seq<Shape>, w: nat, h: nat)
    requires CwmInv(c) && i < |c.d.wins| && c.gaps[i].x == 0 && 0 < c.gaps[i].y
    requires IsExtent(shapes, w, h) && Within(shapes) && InkFits(c.g, shapes) && RoomFor(c, i, w, h)
    ensures CanDrawWidget(c, i, shapes)
    ensures var r := Measured(c.g, c.d.m, c.d.wins[i], c.WmOf(i), shapes); r.w == w && r.h == h
  {
    RenderMeasures(c.g, c.d.m, c.d.wins[i], c.WmOf(i), shapes);
    assert Placed(c.d.wins[i], c.WmOf(i));
    MeasuredFits(c, i, shapes, w, h);
  }

  lemma BoxFits(g: Geometry, a: Rect, s: Shape, w: nat, h: nat)
    requires OnScreen(g, a) && a.x2 == a.x1 + w && a.y2 == a.y1 + h
    requires 0 <= s.x && 0 <= s.y && 0 <= s.xMax && 0 <= s.yMax && s.x + s.xMax <= w && s.y + s.yMax <= h
    requires |s.ink| == (s.yMax + 1) * ((s.xMax + 1) * g.bpp)
    ensures CanDraw(g, a, s)
  {
    var b := s.Box(a);
    assert b.x2 - b.x1 + 1 == s.xMax + 1 && b.y2 - b.y1 + 1 == s.yMax + 1;
  }

  lemma RenderedSize(g: Geometry, m: Mem, w: Win, wm: Wm, shapes: seq<Shape>)
    requires Fits(g, m) && CanRender(g, m, w, wm, shapes)
    ensures RenderWin(g, m, w, wm, shapes).1.h == Measured(g, m, w, wm, shapes).h
  {
  }

  /** A widget with room for itself can draw at any time, shown or hidden. */
  lemma DrawKeepsKit(c: Cwm, k: Kit, i: nat, shapes: seq<Shape>, w: nat, h: nat)
    requires KitInv(c, k) && i < 3
    requires IsExtent(shapes, w, h) && Within(shapes) && InkFits(c.g, shapes) && RoomFor(c, i, w, h)
    requires i == k.choices || h <= k.font + 7
    ensures Allowed(c, Draw(i, shapes)) && KitInv(Step(c, Draw(i, shapes)), k)
  {
    assert i == k.status || i == k.preedit || i == k.choices;
    DrawFits(c, i, shapes, w, h);
    RenderFindsPlace(c, k.font, k.status, k.preedit, k.choices, i, shapes);
    StepKeeps(c, Draw(i, shapes));
    RenderedSize(c.g, c.d.m, c.d.wins[i], c.WmOf(i), shapes);
  }

  lemma StatusKeepsKit(c: Cwm, k: Kit, tx: nat, t2x: nat, ink: FiveInks)
    requires KitInv(c, k) && InkFits(c.g, StatusShapes(tx, t2x, k.font, ink))
    requires RoomFor(c, k.status, tx + t2x + 6, k.font + 3)
    ensures Allowed(c, Draw(k.status, StatusShapes(tx, t2x, k.font, ink)))
    ensures KitInv(Step(c, Draw(k.status, StatusShapes(tx, t2x, k.font, ink))), k)
  {
    StatusExtent(tx, t2x, k.font, ink);
    DrawKeepsKit(c, k, k.status, StatusShapes(tx, t2x, k.font, ink), tx + t2x + 6, k.font + 3);
  }

  lemma ListKeepsKit(c: Cwm, k: Kit, i: nat, tx: nat, rows: nat, ink: ThreeInks)
    requires KitInv(c, k) && i < 3 && (i == k.choices || rows <= 1)
    requires InkFits(c.g, ListShapes(tx, rows, k.font, ink))
    requires RoomFor(c, i, tx + Border(rows), k.font * rows + Border(rows))
    ensures Allowed(c, Draw(i, ListShapes(tx, rows, k.font, ink)))
    ensures KitInv(Step(c, Draw(i, ListShapes(tx, rows, k.font, ink))), k)
  {
    ListExtent(tx, rows, k.font, ink);
    DrawKeepsKit(c, k, i, ListShapes(tx, rows, k.font, ink), tx + Border(rows), k.font * rows + Border(rows));
  }

  // ---------------------------------------------------------------- the other actions

  lemma HeightOfPane(g: Geometry, d: Desktop, i: nat)
    requires Inv(g, d) && i < |d.wins|
    ensures var a := Meaning(g, d).panes[i].area; d.wins[i].h == a.y2 - a.y1
  {
  }

  // Panes of the same height mean windows of the same height.
  lemma SameHeights(c: Cwm, c': Cwm, k: Kit)
    requires KitInv(c, k) && CwmInv(c') && c'.gaps == c.gaps && |c'.d.wins| == 3
    requires forall i :: 0 <= i < 3 ==>
      var a, b := Meaning(c'.g, c'.d).panes[i].area, Meaning(c.g, c.d).panes[i].area; a.y2 - a.y1 == b.y2 - b.y1
    ensures KitInv(c', k)
  {
    HeightOfPane(c.g, c.d, k.status);
    HeightOfPane(c'.g, c'.d, k.status);
    HeightOfPane(c.g, c.d, k.preedit);
    HeightOfPane(c'.g, c'.d, k.preedit);
  }

  lemma SizesNotNegative(c: Cwm)
    requires CwmInv(c)
    ensures forall i :: 0 <= i < |c.d.wins| ==> 0 <= c.d.wins[i].w && 0 <= c.d.wins[i].h
  {
    assert forall i :: 0 <= i < |c.d.wins| ==> WinOk(c.g, c.d.wins[i]);
  }

  // With the cursor elsewhere the windows are not at their places yet.
  lemma RoomElsewhere(c: Cwm, k: Kit, x: int, y: int)
    requires KitInv(c, k) && Room(Elsewhere(c, x, y))
    ensures Roomy(Elsewhere(c, x, y))
  {
    SizesNotNegative(c);
    RoomOf(Elsewhere(c, x, y), k);
  }

  lemma RoomOf(c: Cwm, k: Kit)
    requires HasKit(c, k) && Room(c)
    requires forall i :: 0 <= i < 3 ==> 0 <= c.d.wins[i].w && 0 <= c.d.wins[i].h
    requires c.d.wins[k.status].h <= k.font + 7 && c.d.wins[k.preedit].h <= k.font + 7
    ensures Roomy(c)
  {
    assert OwnRoom(c, k.status) && OwnRoom(c, k.preedit) && OwnRoom(c, k.choices);
    UcimfRoomy(c, k.font, k.status, k.preedit, k.choices);
  }

  lemma SwitchKeepsKit(c: Cwm, k: Kit, on: bool)
    requires KitInv(c, k) && (on ==> Room(c))
    ensures Allowed(c, Focus(on)) && KitInv(Step(c, Focus(on)), k)
  {
    if on {
      SizesNotNegative(c);
      RoomOf(c, k);
    }
    SetFocusRefines(c, on);
    var c' := SetFocus(c, on);
    forall i | 0 <= i < 3
      ensures Meaning(c'.g, c'.d).panes[i].area == Meaning(c.g, c.d).panes[i].area
    {
      assert Meaning(c.g, c'.d).panes[i] == FocusScene(c.g, Meaning(c.g, c.d), on).panes[i];
    }
    SameHeights(c, c', k);
  }

  lemma BracketKeepsKit(c: Cwm, k: Kit, m: Mem, x: int, y: int)
    requires KitInv(c, k) && |m| == |c.d.m| && (c.focus ==> Room(Elsewhere(c, x, y)))
    ensures Allowed(c, Refresh(m, x, y)) && KitInv(Step(c, Refresh(m, x, y)), k)
  {
    if c.focus {
      RoomElsewhere(c, k, x, y);
    }
    RefreshBracket(c, m, x, y);
    var c' := Session.Bracket(c, m, x, y).value;
    forall i | 0 <= i < 3
      ensures var a, b := Meaning(c'.g, c'.d).panes[i].area, Meaning(c.g, c.d).panes[i].area;
        a.y2 - a.y1 == b.y2 - b.y1
    {
      PlaceHeight(c, c', x, y, i);
    }
    SameHeights(c, c', k);
  }

  lemma PlaceHeight(c: Cwm, c': Cwm, x: int, y: int, i: nat)
    requires CwmInv(c) && CwmInv(c') && i < |c.d.wins| == |c'.d.wins| && c'.g == c.g
    requires Meaning(c.g, c'.d).panes[i] ==
      Meaning(c.g, c.d).panes[i].(area := Elsewhere(c, x, y).PlaceOf(i))
    ensures var a, b := Meaning(c'.g, c'.d).panes[i].area, Meaning(c.g, c.d).panes[i].area;
      a.y2 - a.y1 == b.y2 - b.y1
  {
    HeightOfPane(c.g, c.d, i);
  }

  lemma PositionKeepsKit(c: Cwm, k: Kit, x: int, y: int)
    requires KitInv(c, k)
    requires ClearWay(c.g, c.d, Places(View(c.g.xres, c.g.yres, x, y), c.gaps, c.d.wins))
    ensures Allowed(c, Cursor(x, y)) && KitInv(Step(c, Cursor(x, y)), k)
  {
    SetPositionRefines(c, x, y);
    var c' := SetPosition(c, x, y);
    var places := Places(View(c.g.xres, c.g.yres, x, y), c.gaps, c.d.wins);
    forall i | 0 <= i < 3
      ensures var a, b := Meaning(c'.g, c'.d).panes[i].area, Meaning(c.g, c.d).panes[i].area;
        a.y2 - a.y1 == b.y2 - b.y1
    {
      assert Meaning(c.g, c'.d).panes[i] == Rearranged(Meaning(c.g, c.d), places, 3).panes[i];
      HeightOfPane(c.g, c.d, i);
    }
    SameHeights(c, c', k);
  }

  // ---------------------------------------------------------------- whole runs

  /** Every action that leaves each window room for itself is one Session allows, and keeps the heights. */
  lemma ActionKeepsKit(c: Cwm, k: Kit, a: Action)
    requires KitInv(c, k) && Possible(c, k, a)
    ensures Allowed(c, EventOf(k, a)) && KitInv(Step(c, EventOf(k, a)), k)
  {
    match a
    case Switch(on) => SwitchKeepsKit(c, k, on);
    case Bracket(m, x, y) => BracketKeepsKit(c, k, m, x, y);
    case Position(x, y) => PositionKeepsKit(c, k, x, y);
    case DrawStatus(tx, t2x, ink) => StatusKeepsKit(c, k, tx, t2x, ink);
    case DrawPreedit(tx, rows, ink) => ListKeepsKit(c, k, k.preedit, tx, rows, ink);
    case DrawChoices(tx, rows, ink) => ListKeepsKit(c, k, k.choices, tx, rows, ink);
  }

  ghost predicate PossibleRun(c: Cwm, k: Kit, acts: seq<Action>)
    requires KitInv(c, k)
    decreases |acts|
  {
    acts == [] ||
    (Possible(c, k, acts[0]) &&
     (ActionKeepsKit(c, k, acts[0]); PossibleRun(Step(c, EventOf(k, acts[0])), k, acts[1..])))
  }

  function EventsOf(k: Kit, acts: seq<Action>): (es: seq<Event>)
    ensures |es| == |acts| && forall n :: 0 <= n < |acts| ==> es[n] == EventOf(k, acts[n])
  {
    seq(|acts|, n requires 0 <= n < |acts| => EventOf(k, acts[n]))
  }

  lemma EventsThen(k: Kit, acts: seq<Action>)
    requires acts != []
    ensures EventsOf(k, acts)[0] == EventOf(k, acts[0]) && EventsOf(k, acts)[1..] == EventsOf(k, acts[1..])
  {
  }

  lemma {:induction false} PossibleIsAllowed(c: Cwm, k: Kit, acts: seq<Action>)
    requires KitInv(c, k) && PossibleRun(c, k, acts)
    ensures AllowedRun(c, EventsOf(k, acts)) && KitInv(Run(c, EventsOf(k, acts)), k)
    decreases |acts|
  {
    if acts != [] {
      ActionKeepsKit(c, k, acts[0]);
      var c1 := Step(c, EventOf(k, acts[0]));
      PossibleIsAllowed(c1, k, acts[1..]);
      EventsThen(k, acts);
    }
  }

  /**
   Over every run of ucimf's windows, in which all that is asked is that each window has room for
   itself: the heights stay within their bound, and the screen is told by the history.
   */
  lemma KitRunKeeps(c: Cwm, k: Kit, acts: seq<Action>, h: History)
    requires KitInv(c, k) && PossibleRun(c, k, acts) && Follows(c, h)
    ensures AllowedRun(c, EventsOf(k, acts))
    ensures var c', h' := Run(c, EventsOf(k, acts)), Past(h, EventsOf(k, acts));
      KitInv(c', k) && c'.g == c.g && Follows(c', h') && ScreenTells(c', h')
  {
    PossibleIsAllowed(c, k, acts);
    RunKeeps(c, EventsOf(k, acts), h);
  }

  // Byte `b` of pixel (x, y) of the screen is byte `b` of pixel (tx, ty) of a text `w` + 1 pixels wide.
  ghost predicate ShowsText(g: Geometry, m: Mem, x: int, y: int, text: Mem, w: nat, tx: int, ty: int, b: int) {
    var at, from := ScreenAt(g, x, y, b), (ty * (w + 1) + tx) * g.bpp + b;
    0 <= at < |m| && 0 <= from < |text| && m[at] == text[from]
  }

  lemma TextSeen(g: Geometry, m: Mem, left: int, top: int, shapes: seq<Shape>, n: nat, x: int, y: int, b: int)
    requires n < |shapes| && shapes[n].xMax >= 0 && Top(shapes, shapes[n].x + x, shapes[n].y + y) == n
    requires SeenFrom(g, m, left, top, shapes, shapes[n].x + x, shapes[n].y + y, b)
    ensures ShowsText(g, m, left + shapes[n].x + x, top + shapes[n].y + y, shapes[n].ink, shapes[n].xMax, x, y, b)
  {
  }

  // Shape `n` of a window of that size is `t`, and it is the topmost over one of its pixels.
  ghost predicate IsOnTop(shapes: seq<Shape>, n: nat, w: int, height: int, t: Shape, x: int, y: int) {
    && IsExtent(shapes, w, height) && n < |shapes| && shapes[n] == t && t.xMax >= 0
    && 0 <= t.x + x <= w && 0 <= t.y + y <= height && Top(shapes, t.x + x, t.y + y) == n
  }

  lemma ShapeSeen(c: Cwm, h: History, i: nat, shapes: seq<Shape>, n: nat, w: int, height: int, t: Shape,
                  x: int, y: int, b: int)
    requires CwmInv(c) && Follows(c, h) && h.on && i < |h.drawn| && h.drawn[i] == Some(shapes)
    requires IsOnTop(shapes, n, w, height, t, x, y) && 0 <= b < c.g.bpp
    ensures ShowsText(c.g, c.d.m, LeftOf(c.g, h.at, c.gaps[i], w) + t.x + x,
                      TopOf(c.g, h.at, c.gaps[i], height) + t.y + y, t.ink, t.xMax, x, y, b)
  {
    SeenPixel(c, h, i, shapes, w, height, t.x + x, t.y + y, b);
    TextSeen(c.g, c.d.m, LeftOf(c.g, h.at, c.gaps[i], w), TopOf(c.g, h.at, c.gaps[i], height), shapes, n, x, y, b);
  }

  lemma FirstTextOnTop(tx: nat, t2x: nat, font: nat, ink: FiveInks, x: nat, y: nat)
    requires x <= tx && y <= font
    ensures IsOnTop(StatusShapes(tx, t2x, font, ink), 3, tx + t2x + 6, font + 3, Shape(3, 3, tx, font, ink[3]), x, y)
  {
    StatusExtent(tx, t2x, font, ink);
    StatusPixels(tx, t2x, font, ink, 3 + x, 3 + y);
  }

  lemma SecondTextOnTop(tx: nat, t2x: nat, font: nat, ink: FiveInks, x: nat, y: nat)
    requires x <= t2x && y <= font
    ensures IsOnTop(StatusShapes(tx, t2x, font, ink), 4, tx + t2x + 6, font + 3,
                    Shape(6 + tx, 3, t2x, font, ink[4]), x, y)
  {
    StatusExtent(tx, t2x, font, ink);
    StatusPixels(tx, t2x, font, ink, 6 + tx + x, 3 + y);
  }

  lemma ListTextOnTop(tx: nat, rows: nat, font: nat, ink: ThreeInks, x: nat, y: nat)
    requires x <= tx && y <= font * rows
    ensures var edge := Border(rows);
      IsOnTop(ListShapes(tx, rows, font, ink), 2, tx + edge, font * rows + edge,
              Shape(edge, edge, tx, font * rows, ink[2]), x, y)
  {
    ListExtent(tx, rows, font, ink);
    ListPixels(tx, rows, font, ink, Border(rows) + x, Border(rows) + y);
  }

  /** So while the windows are on, each pixel of the first status text is where the cursor says, inside
      its frame, and it is that text's ... */
  lemma FirstTextSeen(c: Cwm, k: Kit, h: History, tx: nat, t2x: nat, ink: FiveInks, x: nat, y: nat, b: nat)
    requires CwmInv(c) && HasKit(c, k) && Follows(c, h) && h.on
    requires h.drawn[k.status] == Some(StatusShapes(tx, t2x, k.font, ink))
    requires x <= tx && y <= k.font && b < c.g.bpp
    ensures var left, top := LeftOf(c.g, h.at, StatusGaps(k.font), tx + t2x + 6),
        TopOf(c.g, h.at, StatusGaps(k.font), k.font + 3);
      ShowsText(c.g, c.d.m, left + 3 + x, top + 3 + y, ink[3], tx, x, y, b)
  {
    FirstTextOnTop(tx, t2x, k.font, ink, x, y);
    ShapeSeen(c, h, k.status, StatusShapes(tx, t2x, k.font, ink), 3, tx + t2x + 6, k.font + 3,
              Shape(3, 3, tx, k.font, ink[3]), x, y, b);
  }

  /** ... and each of the second, right of it ... */
  lemma SecondTextSeen(c: Cwm, k: Kit, h: History, tx: nat, t2x: nat, ink: FiveInks, x: nat, y: nat, b: nat)
    requires CwmInv(c) && HasKit(c, k) && Follows(c, h) && h.on
    requires h.drawn[k.status] == Some(StatusShapes(tx, t2x, k.font, ink))
    requires x <= t2x && y <= k.font && b < c.g.bpp
    ensures var left, top := LeftOf(c.g, h.at, StatusGaps(k.font), tx + t2x + 6),
        TopOf(c.g, h.at, StatusGaps(k.font), k.font + 3);
      ShowsText(c.g, c.d.m, left + (6 + tx) + x, top + 3 + y, ink[4], t2x, x, y, b)
  {
    SecondTextOnTop(tx, t2x, k.font, ink, x, y);
    ShapeSeen(c, h, k.status, StatusShapes(tx, t2x, k.font, ink), 4, tx + t2x + 6, k.font + 3,
              Shape(6 + tx, 3, t2x, k.font, ink[4]), x, y, b);
  }

  /** ... and each of the text of the preedit or the candidate window. */
  lemma ListTextSeen(c: Cwm, k: Kit, h: History, i: nat, tx: nat, rows: nat, ink: ThreeInks, x: nat, y: nat, b: nat)
    requires CwmInv(c) && HasKit(c, k) && Follows(c, h) && h.on && (i == k.preedit || i == k.choices)
    requires h.drawn[i] == Some(ListShapes(tx, rows, k.font, ink)) && x <= tx && y <= k.font * rows && b < c.g.bpp
    ensures var edge, gaps := Border(rows), if i == k.preedit then PreeditGaps(k.font) else LookupGaps(k.font);
      var left, top := LeftOf(c.g, h.at, gaps, tx + edge), TopOf(c.g, h.at, gaps, k.font * rows + edge);
      ShowsText(c.g, c.d.m, left + edge + x, top + edge + y, ink[2], tx, x, y, b)
  {
    var edge := Border(rows);
    ListTextOnTop(tx, rows, k.font, ink, x, y);
    ShapeSeen(c, h, i, ListShapes(tx, rows, k.font, ink), 2, tx + edge, k.font * rows + edge,
              Shape(edge, edge, tx, k.font * rows, ink[2]), x, y, b);
  }

  // ---------------------------------------------------------------- before the first switch

  // Before anything is shown, each window is at its place, or the cursor never left the origin and the
  // window is still where it was made.
  ghost predicate EarlyKit(c: Cwm, k: Kit) {
    && Unseen(c) && HasKit(c, k)
    && c.d.wins[k.status].h <= k.font + 7 && c.d.wins[k.preedit].h <= k.font + 7
    && forall i :: 0 <= i < 3 ==> PlacedOrNew(c, i)
  }

  ghost predicate PlacedOrNew(c: Cwm, i: nat)
    requires i < |c.d.wins| && i < |c.gaps|
  {
    Placed(c.d.wins[i], c.WmOf(i)) || (AtOrigin(c.d.wins[i]) && c.cursorX == c.cursorY == 0)
  }

  ghost predicate AllPlaced(c: Cwm)
    requires |c.gaps| == |c.d.wins|
  {
    forall i :: 0 <= i < |c.d.wins| ==> Placed(c.d.wins[i], c.WmOf(i))
  }

  // The windows are not switched on yet; the terminal may paint and the cursor move freely.
  ghost predicate EarlyPossible(c: Cwm, k: Kit, a: Action)
    requires HasKit(c, k)
  {
    match a
    case Switch(on) => !on
    case Bracket(m, x, y) => |m| == |c.d.m|
    case Position(x, y) => true
    case _ => Possible(c, k, a)
  }

  // A measuring pass over shapes without extent changes nothing.
  lemma {:induction false} MeasureNothing(g: Geometry, m: Mem, w: Win, wm: Wm, shapes: seq<Shape>)
    requires Fits(g, m) && !w.visible && w.w == w.h == 0 && IsExtent(shapes, 0, 0)
    ensures MeasureAll(g, m, w, wm, shapes) == w
  {
    if shapes != [] {
      var n := |shapes| - 1;
      assert shapes[n] in shapes && forall s :: s in shapes[..n] ==> s in shapes;
      MeasureNothing(g, m, w, wm, shapes[..n]);
    }
  }

  // A hidden window is measured at its place or, without extent, where it was made.
  lemma NewMeasured(g: Geometry, m: Mem, w: Win, wm: Wm, shapes: seq<Shape>)
    requires Fits(g, m) && WinOk(g, w) && !w.visible && (Placed(w, wm) || AtOrigin(w))
    ensures var r := Measured(g, m, w, wm, shapes); Placed(r, wm) || (AtOrigin(r) && !Placed(w, wm))
  {
    var r := Measured(g, m, w, wm, shapes);
    RenderMeasures(g, m, w, wm, shapes);
    var w2 := PseudoWin(g, m, w, wm, true).1;
    MeasureAllExtent(g, m, w2, wm, shapes);
    if r.w == 0 && r.h == 0 {
      MeasureNothing(g, m, w2, wm, shapes);
    }
  }

  lemma RenderedPlace(g: Geometry, m: Mem, w: Win, wm: Wm, shapes: seq<Shape>)
    requires Fits(g, m) && CanRender(g, m, w, wm, shapes)
    ensures var r, s := RenderWin(g, m, w, wm, shapes).1, Measured(g, m, w, wm, shapes);
      r.x == s.x && r.y == s.y && r.w == s.w && r.h == s.h
  {
  }

  lemma DrawIsEarly(c: Cwm, k: Kit, i: nat, shapes: seq<Shape>, w: nat, h: nat)
    requires EarlyKit(c, k) && i < 3
    requires IsExtent(shapes, w, h) && Within(shapes) && InkFits(c.g, shapes) && RoomFor(c, i, w, h)
    ensures CanDrawWidget(c, i, shapes)
    ensures var w' := DrawWidget(c, i, shapes).d.wins[i];
      && w'.h == h
      && (Placed(w', c.WmOf(i)) || (AtOrigin(w') && !Placed(c.d.wins[i], c.WmOf(i))))
  {
    assert i == k.status || i == k.preedit || i == k.choices;
    assert PlacedOrNew(c, i);
    NewMeasured(c.g, c.d.m, c.d.wins[i], c.WmOf(i), shapes);
    MeasuredFits(c, i, shapes, w, h);
    RenderedPlace(c.g, c.d.m, c.d.wins[i], c.WmOf(i), shapes);
  }

  lemma DrawKeepsEarly(c: Cwm, k: Kit, i: nat, shapes: seq<Shape>, w: nat, h: nat)
    requires EarlyKit(c, k) && i < 3
    requires IsExtent(shapes, w, h) && Within(shapes) && InkFits(c.g, shapes) && RoomFor(c, i, w, h)
    requires i == k.choices || h <= k.font + 7
    ensures EarlyAllowed(c, Draw(i, shapes)) && EarlyKept(c, EarlyStep(c, Draw(i, shapes)), k)
  {
    DrawIsEarly(c, k, i, shapes, w, h);
    UnseenDraws(c, i, shapes);
    OneDrawn(c, DrawWidget(c, i, shapes), k, i);
  }

  // Window `i` has changed, and nothing else.
  lemma OneDrawn(c: Cwm, c': Cwm, k: Kit, i: nat)
    requires EarlyKit(c, k) && i < 3 && Unseen(c') && c' == c.(d := c'.d) && |c'.d.wins| == 3
    requires forall j :: 0 <= j < 3 && j != i ==> c'.d.wins[j] == c.d.wins[j]
    requires i == k.choices || c'.d.wins[i].h <= k.font + 7
    requires Placed(c'.d.wins[i], c.WmOf(i)) || (AtOrigin(c'.d.wins[i]) && !Placed(c.d.wins[i], c.WmOf(i)))
    ensures EarlyKept(c, c', k)
  {
    assert PlacedOrNew(c, i);
    forall j | 0 <= j < 3
      ensures PlacedOrNew(c', j)
    {
      assert PlacedOrNew(c, j);
    }
  }

  // What every action before the first switch keeps.
  ghost predicate EarlyKept(c: Cwm, c': Cwm, k: Kit)
    requires |c.gaps| == |c.d.wins|
  {
    EarlyKit(c', k) && (AllPlaced(c) ==> AllPlaced(c'))
  }

  lemma MoveKeepsEarly(c: Cwm, k: Kit, x: int, y: int)
    requires EarlyKit(c, k)
    ensures EarlyKept(c, Moved(c, x, y), k) && (x != 0 || y != 0 ==> AllPlaced(Moved(c, x, y)))
  {
    if x != c.cursorX || y != c.cursorY {
      UnseenMoves(c, x, y);
      UnseenHeight(c, x, y, k.status);
      UnseenHeight(c, x, y, k.preedit);
    } else if x != 0 || y != 0 {
      forall i | 0 <= i < 3
        ensures Placed(c.d.wins[i], c.WmOf(i))
      {
        assert PlacedOrNew(c, i);
      }
    }
  }

  lemma BracketKeepsEarly(c: Cwm, k: Kit, m: Mem, x: int, y: int)
    requires EarlyKit(c, k) && |m| == |c.d.m|
    ensures var c' := EarlyStep(c, Refresh(m, x, y)); EarlyKept(c, c', k) && (x != 0 || y != 0 ==> AllPlaced(c'))
  {
    UnseenRepaints(c, m);
    var c1 := Repaint(c, m);
    forall i | 0 <= i < 3
      ensures PlacedOrNew(c1, i)
    {
      assert PlacedOrNew(c, i);
    }
    MoveKeepsEarly(c1, k, x, y);
  }

  lemma ListKeepsEarly(c: Cwm, k: Kit, i: nat, tx: nat, rows: nat, ink: ThreeInks)
    requires EarlyKit(c, k) && i < 3 && (i == k.choices || rows <= 1)
    requires InkFits(c.g, ListShapes(tx, rows, k.font, ink))
    requires RoomFor(c, i, tx + Border(rows), k.font * rows + Border(rows))
    ensures var e := Draw(i, ListShapes(tx, rows, k.font, ink)); EarlyAllowed(c, e) && EarlyKept(c, EarlyStep(c, e), k)
  {
    ListExtent(tx, rows, k.font, ink);
    DrawKeepsEarly(c, k, i, ListShapes(tx, rows, k.font, ink), tx + Border(rows), k.font * rows + Border(rows));
  }

  lemma StatusKeepsEarly(c: Cwm, k: Kit, tx: nat, t2x: nat, ink: FiveInks)
    requires EarlyKit(c, k) && InkFits(c.g, StatusShapes(tx, t2x, k.font, ink))
    requires RoomFor(c, k.status, tx + t2x + 6, k.font + 3)
    ensures var e := Draw(k.status, StatusShapes(tx, t2x, k.font, ink));
      EarlyAllowed(c, e) && EarlyKept(c, EarlyStep(c, e), k)
  {
    StatusExtent(tx, t2x, k.font, ink);
    DrawKeepsEarly(c, k, k.status, StatusShapes(tx, t2x, k.font, ink), tx + t2x + 6, k.font + 3);
  }

  // The cursor goes somewhere else than the origin, where the manager has it at first.
  predicate Leaves(a: Action) { (a.Position? || a.Bracket?) && (a.x != 0 || a.y != 0) }

  lemma EarlyActionKeeps(c: Cwm, k: Kit, a: Action)
    requires EarlyKit(c, k) && EarlyPossible(c, k, a)
    ensures EarlyAllowed(c, EventOf(k, a))
    ensures var c' := EarlyStep(c, EventOf(k, a));
      EarlyKept(c, c', k) && (Leaves(a) ==> AllPlaced(c'))
  {
    match a {
      case Switch(on) => EarlyStepKeeps(c, EventOf(k, a));
      case Bracket(m, x, y) => BracketKeepsEarly(c, k, m, x, y);
      case Position(x, y) => MoveKeepsEarly(c, k, x, y);
      case DrawStatus(tx, t2x, ink) => StatusKeepsEarly(c, k, tx, t2x, ink);
      case DrawPreedit(tx, rows, ink) => ListKeepsEarly(c, k, k.preedit, tx, rows, ink);
      case DrawChoices(tx, rows, ink) => ListKeepsEarly(c, k, k.choices, tx, rows, ink);
    }
  }

  ghost predicate EarlyPossibleRun(c: Cwm, k: Kit, acts: seq<Action>)
    requires EarlyKit(c, k)
    decreases |acts|
  {
    acts == [] ||
    (EarlyPossible(c, k, acts[0]) &&
     (EarlyActionKeeps(c, k, acts[0]); EarlyPossibleRun(EarlyStep(c, EventOf(k, acts[0])), k, acts[1..])))
  }

  lemma {:induction false} EarlyKitRunKeeps(c: Cwm, k: Kit, acts: seq<Action>)
    requires EarlyKit(c, k) && EarlyPossibleRun(c, k, acts)
    ensures EarlyRunAllowed(c, EventsOf(k, acts))
    ensures EarlyKept(c, EarlyRun(c, EventsOf(k, acts)), k)
    ensures (exists a :: a in acts && Leaves(a)) ==> AllPlaced(EarlyRun(c, EventsOf(k, acts)))
    decreases |acts|
  {
    if acts != [] {
      EarlyActionKeeps(c, k, acts[0]);
      EventsThen(k, acts);
      EarlyKitRunKeeps(EarlyStep(c, EventOf(k, acts[0])), k, acts[1..]);
      assert acts == [acts[0]] + acts[1..];
    }
  }

  // Every window has been drawn larger than a pixel.
  predicate Drawn(c: Cwm) {
    forall i :: 0 <= i < |c.d.wins| ==> c.d.wins[i].w > 0 || c.d.wins[i].h > 0
  }

  lemma PlacedIsKit(c: Cwm, k: Kit)
    requires EarlyKit(c, k)
    ensures KitInv(c, k) <==> AllPlaced(c)
    ensures Drawn(c) ==> AllPlaced(c)
  {
    forall i | 0 <= i < 3
      ensures Drawn(c) ==> Placed(c.d.wins[i], c.WmOf(i))
    {
      assert PlacedOrNew(c, i);
    }
  }

  // The history of a program that has just started.
  function Fresh(m: Mem): History { History(m, false, Point(0, 0), [None, None, None]) }

  lemma StartFollows(g: Geometry, gaps: seq<Gaps>, m: Mem)
    requires Fits(g, m) && |gaps| == 3
    ensures Unseen(Startup(g, gaps, m)) && Follows(Startup(g, gaps, m), Fresh(m))
  {
    StartsUnseen(g, gaps, m);
    HiddenShowsBase(g, Startup(g, gaps, m).d);
  }

  /**
   And from the start of the program: whatever the widgets draw, the terminal paints and the cursor
   does before the windows are first switched on, the screen is the last paint; and if the cursor has
   left the origin by then, or every window has been drawn, the screen is told by the whole history
   ever after.
   */
  lemma WholeSession(g: Geometry, k: Kit, gaps: seq<Gaps>, m: Mem, early: seq<Action>, acts: seq<Action>)
    requires Fits(g, m) && HasKit(Startup(g, gaps, m), k)
    ensures EarlyKit(Startup(g, gaps, m), k)
    ensures EarlyPossibleRun(Startup(g, gaps, m), k, early) ==>
      && EarlyRunAllowed(Startup(g, gaps, m), EventsOf(k, early))
      && var c, h := EarlyRun(Startup(g, gaps, m), EventsOf(k, early)), Past(Fresh(m), EventsOf(k, early));
      && EarlyKit(c, k) && c.g == g && Follows(c, h) && c.d.m == h.image
      && ((exists a :: a in early && Leaves(a)) || Drawn(c) ==> KitInv(c, k))
      && (KitInv(c, k) && PossibleRun(c, k, acts) ==>
        && AllowedRun(c, EventsOf(k, acts))
        && var c', h' := Run(c, EventsOf(k, acts)), Past(Fresh(m), EventsOf(k, early + acts));
           KitInv(c', k) && c'.g == g && Follows(c', h') && ScreenTells(c', h'))
  {
    var c0 := Startup(g, gaps, m);
    StartFollows(g, gaps, m);
    if EarlyPossibleRun(c0, k, early) {
      EarlyPart(c0, k, early, Fresh(m));
      var c := EarlyRun(c0, EventsOf(k, early));
      if KitInv(c, k) && PossibleRun(c, k, acts) {
        LaterPart(c, k, early, acts, Fresh(m));
      }
    }
  }

  lemma EarlyPart(c0: Cwm, k: Kit, early: seq<Action>, h: History)
    requires EarlyKit(c0, k) && EarlyPossibleRun(c0, k, early) && Follows(c0, h)
    ensures EarlyRunAllowed(c0, EventsOf(k, early))
    ensures var c, h' := EarlyRun(c0, EventsOf(k, early)), Past(h, EventsOf(k, early));
      && EarlyKit(c, k) && c.g == c0.g && Follows(c, h') && c.d.m == h'.image
      && ((exists a :: a in early && Leaves(a)) || Drawn(c) ==> KitInv(c, k))
  {
    EarlyKitRunKeeps(c0, k, early);
    EarlyRunKeeps(c0, EventsOf(k, early), h, 0, 0);
    PlacedIsKit(EarlyRun(c0, EventsOf(k, early)), k);
  }

  lemma LaterPart(c: Cwm, k: Kit, early: seq<Action>, acts: seq<Action>, h: History)
    requires KitInv(c, k) && PossibleRun(c, k, acts) && Follows(c, Past(h, EventsOf(k, early)))
    ensures AllowedRun(c, EventsOf(k, acts))
    ensures var c', h' := Run(c, EventsOf(k, acts)), Past(h, EventsOf(k, early + acts));
      KitInv(c', k) && c'.g == c.g && Follows(c', h') && ScreenTells(c', h')
  {
    HistoryOfBoth(h, k, early, acts);
    KitRunKeeps(c, k, acts, Past(h, EventsOf(k, early)));
  }

  lemma HistoryOfBoth(h: History, k: Kit, early: seq<Action>, acts: seq<Action>)
    ensures Past(h, EventsOf(k, early + acts)) == Past(Past(h, EventsOf(k, early)), EventsOf(k, acts))
  {
    PastOfBoth(h, EventsOf(k, early), EventsOf(k, acts));
    assert EventsOf(k, early + acts) == EventsOf(k, early) + EventsOf(k, acts);
  }

  lemma {:induction false} PastOfBoth(h: History, es: seq<Event>, fs: seq<Event>)
    ensures Past(h, es + fs) == Past(Past(h, es), fs)
    decreases |es|
  {
    if es == [] {
      assert es + fs == fs;
    } else {
      assert (es + fs)[1..] == es[1..] + fs;
      PastOfBoth(Next(h, es[0]), es[1..], fs);
    }
  }

  lemma UnseenHeight(c: Cwm, x: int, y: int, i: nat)
    requires Unseen(c) && (x != c.cursorX || y != c.cursorY) && i < |c.d.wins|
    ensures CanPosition(c, x, y) && |SetPosition(c, x, y).d.wins| == |c.d.wins|
    ensures SetPosition(c, x, y).d.wins[i].h == c.d.wins[i].h
  {
    var v, n := View(c.g.xres, c.g.yres, x, y), |c.gaps|;
    UnseenMoves(c, x, y);
    MoveUpToRefines(c.g, v, c.gaps, c.d, n);
    var d' := SetPosition(c, x, y).d;
    assert Meaning(c.g, d').panes[i] == Rearranged(Meaning(c.g, c.d), Places(v, c.gaps, c.d.wins), n).panes[i];
    HeightOfPane(c.g, d', i);
  }
}
