/**
 Where the shifts put the three windows, and why they never meet.
 */
module Placement {
  import opened Basics
  import opened Raster

  // The gaps a Shift is made with.
  datatype Gaps = Gaps(x: int, y: int)

  // What every shift reads from the window manager.
  datatype View = View(xres: int, yres: int, cursorX: int, cursorY: int)

  // The one computation all three Shift::update share.
  function Place(v: View, s: Gaps, w: int, h: int): (int, int) {
    var overX := v.cursorX + w - (v.xres - 16);
    var overY := v.cursorY + h - (v.yres - 16);
    var shiftX := if overX + s.x > 0 then -overX else s.x;
    var shiftY := if overY + s.y > 0 then -s.y - h else s.y;
    (v.cursorX + shiftX, v.cursorY + shiftY)
  }

  function PlacedArea(v: View, s: Gaps, w: int, h: int): Rect {
    var (x, y) := Place(v, s, w, h);
    Rect(x, y, x + w, y + h)
  }

  // The gaps ucimf_init chooses for a font of height `font`.
  function StatusGaps(font: nat): Gaps { Gaps(0, font + 8) }
  function PreeditGaps(font: nat): Gaps { Gaps(0, (font + 8) * 2) }
  function LookupGaps(font: nat): Gaps { Gaps(0, (font + 8) * 3) }

  predicate RowsApart(a: Rect, b: Rect) {
    a.y2 < b.y1 || b.y2 < a.y1
  }

  /**
   Whatever the cursor, the screen, the widths and the height of the candidate list, and however
   many of the three flip above the cursor: no two windows share a row.
   */
  lemma PlacementsNeverMeet(v: View, font: nat, ws: int, hs: nat, wp: int, hp: nat, wl: int, hl: nat)
    requires hs <= font + 7 && hp <= font + 7
    ensures RowsApart(PlacedArea(v, StatusGaps(font), ws, hs), PlacedArea(v, PreeditGaps(font), wp, hp))
    ensures RowsApart(PlacedArea(v, StatusGaps(font), ws, hs), PlacedArea(v, LookupGaps(font), wl, hl))
    ensures RowsApart(PlacedArea(v, PreeditGaps(font), wp, hp), PlacedArea(v, LookupGaps(font), wl, hl))
  {
  }

  /** One row more in the status window and it can run into the preedit window; one row more there
      and it can run into the candidate window. */
  lemma HeightBoundIsTight(font: nat)
    ensures var v := View(1000, 10 * (font + 10) + 16, 0, 0);
      && !RowsApart(PlacedArea(v, StatusGaps(font), 10, font + 8), PlacedArea(v, PreeditGaps(font), 10, 0))
      && !RowsApart(PlacedArea(v, PreeditGaps(font), 10, font + 8), PlacedArea(v, LookupGaps(font), 10, 0))
  {
  }

  // The area of a window `w` by `h` pixels, as a user sees it: right of the cursor by the gap, or as far
  // right as leaves 16 pixels; below the cursor by the gap if that leaves 16 pixels, and otherwise
  // above it by the gap.
  predicate ByCursor(a: Rect, v: View, s: Gaps, w: int, h: int) {
    && a.x1 == Min(v.cursorX + s.x, v.xres - 16 - w) && a.x2 == a.x1 + w
    && a.y2 == a.y1 + h
    && if v.cursorY + s.y + h <= v.yres - 16 then a.y1 == v.cursorY + s.y else a.y2 == v.cursorY - s.y
  }

  /** That is where the shifts put it, and nowhere else, for every cursor, screen, gap and size. */
  lemma PlacedByCursor(a: Rect, v: View, s: Gaps, w: int, h: int)
    ensures ByCursor(a, v, s, w, h) <==> a == PlacedArea(v, s, w, h)
  {
  }

  /** With no horizontal gap the right edge stays 16 pixels off the screen's, and the left edge
      is on the screen exactly when the window is narrow enough or the cursor leaves room. */
  lemma HorizontalPlacement(v: View, s: Gaps, w: nat, h: nat)
    requires s.x == 0 && 0 <= v.cursorX
    ensures PlacedArea(v, s, w, h).x2 <= v.xres - 16
    ensures PlacedArea(v, s, w, h).x1 >= 0 <==> w <= v.xres - 16
  {
  }

  /** Vertically a window is below the cursor when it fits there and above it otherwise; above,
      it is on the screen exactly when the cursor leaves room for gap and window. */
  lemma VerticalPlacement(v: View, s: Gaps, w: nat, h: nat)
    requires 0 < s.y && 0 <= v.cursorY < v.yres
    ensures var a := PlacedArea(v, s, w, h);
      (0 <= a.y1 && a.y2 < v.yres) <==>
        (v.cursorY + s.y + h <= v.yres - 16 || s.y + h <= v.cursorY)
  {
  }
}
