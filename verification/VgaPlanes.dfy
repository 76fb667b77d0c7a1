/**
 Filling and inverting rectangles on planar VGA memory.

 A byte of video memory holds eight pixels, one bit of each in every of the four planes.  In write
 mode 3 the byte the processor writes is a mask: where it has ones the planes take the set/reset
 colour, where it has zeros they keep what the last read left in the latches.
 */
module VgaPlanes {
  import opened Basics
  import opened Raster

  datatype Color = Color(c0: bool, c1: bool, c2: bool, c3: bool)

  // A byte by its bits, from the left: the leftmost pixel first.
  type Bits = b: seq<bool> | |b| == 8 witness [false, false, false, false, false, false, false, false]

  const ZEROS: Bits := [false, false, false, false, false, false, false, false]
  const ONES: Bits := [true, true, true, true, true, true, true, true]

  // 0x80
  const LEFTMOST: Bits := [true, false, false, false, false, false, false, false]

  function And(a: Bits, b: Bits): Bits { seq(8, k requires 0 <= k < 8 => a[k] && b[k]) }

  function Or(a: Bits, b: Bits): Bits { seq(8, k requires 0 <= k < 8 => a[k] || b[k]) }

  function Xor(a: Bits, b: Bits): Bits { seq(8, k requires 0 <= k < 8 => a[k] != b[k]) }

  function Not(a: Bits): Bits { seq(8, k requires 0 <= k < 8 => !a[k]) }

  predicate Bit(b: Bits, k: nat)
    requires k < 8
  {
    b[k]
  }

  // a >> n and a << n
  function Right(a: Bits, n: nat): Bits { seq(8, k requires 0 <= k < 8 => k >= n && a[k - n]) }

  function Left(a: Bits, n: nat): Bits { seq(8, k requires 0 <= k < 8 => k + n < 8 && a[k + n]) }

  // One address of video memory: a byte in each plane.
  datatype Cell = Cell(p0: Bits, p1: Bits, p2: Bits, p3: Bits)

  type Video = seq<Cell>

  // The colour of pixel `k` of a cell.
  function PixelOf(c: Cell, k: nat): Color
    requires k < 8
  {
    Color(Bit(c.p0, k), Bit(c.p1, k), Bit(c.p2, k), Bit(c.p3, k))
  }

  // A plane in write mode 3.
  function Masked(latch: Bits, mask: Bits, on: bool): Bits {
    Or(And(latch, Not(mask)), And(mask, if on then ONES else ZEROS))
  }

  function Mode3(latch: Cell, mask: Bits, color: Color): Cell {
    Cell(Masked(latch.p0, mask, color.c0), Masked(latch.p1, mask, color.c1),
         Masked(latch.p2, mask, color.c2), Masked(latch.p3, mask, color.c3))
  }

  lemma MaskedBit(latch: Bits, mask: Bits, on: bool, k: nat)
    requires k < 8
    ensures Bit(Masked(latch, mask, on), k) == if Bit(mask, k) then on else Bit(latch, k)
  {
  }

  /** A mode 3 write recolours the pixels under the mask and no other. */
  lemma Mode3Pixel(latch: Cell, mask: Bits, color: Color, k: nat)
    requires k < 8
    ensures PixelOf(Mode3(latch, mask, color), k) == if Bit(mask, k) then color else PixelOf(latch, k)
  {
    MaskedBit(latch.p0, mask, color.c0, k);
    MaskedBit(latch.p1, mask, color.c1, k);
    MaskedBit(latch.p2, mask, color.c2, k);
    MaskedBit(latch.p3, mask, color.c3, k);
  }

  // ---------------------------------------------------------------- the masks

  // Pixels of the first byte, if the rectangle starts inside one.
  function LeftPart(x1: nat): nat { if x1 % 8 == 0 then 0 else 8 - x1 % 8 }

  function RightPart(x1: nat, width: nat): nat {
    if LeftPart(x1) >= width then 0 else (x1 + width) % 8
  }

  function MidBytes(x1: nat, width: nat): int {
    if LeftPart(x1) >= width then 0 else (width - LeftPart(x1) - RightPart(x1, width)) / 8
  }

  function LeftMask(left: nat, width: nat): Bits
    requires 1 <= left <= 7 && width > 0
  {
    var mask := Right(ONES, 8 - left);
    if left > width then And(mask, Left(ONES, left - width)) else mask
  }

  function RightMask(right: nat): Bits
    requires 1 <= right <= 7
  {
    Left(ONES, 8 - right)
  }

  lemma LeftMaskBits(left: nat, width: nat, k: nat)
    requires 1 <= left <= 7 && width > 0 && k < 8
    ensures Bit(LeftMask(left, width), k) <==> 8 - left <= k < 8 - left + width
  {
  }

  lemma RightMaskBits(right: nat, k: nat)
    requires 1 <= right <= 7 && k < 8
    ensures Bit(RightMask(right), k) <==> k < right
  {
  }

  /** What is left between the two edges is a whole number of bytes, and never negative. */
  lemma MiddleIsWhole(x1: nat, width: nat)
    requires LeftPart(x1) < width
    ensures width - LeftPart(x1) - RightPart(x1, width) == 8 * MidBytes(x1, width) >= 0
  {
  }

  // The first byte column after the left edge.
  function FirstWhole(x1: nat): nat { x1 / 8 + if LeftPart(x1) > 0 then 1 else 0 }

  // The masks as bytes, empty where the edge is.
  function LeftEdge(x1: nat, width: nat): Bits
    requires width > 0
  {
    if LeftPart(x1) > 0 then LeftMask(LeftPart(x1), width) else ZEROS
  }

  function RightEdge(x1: nat, width: nat): Bits {
    if RightPart(x1, width) > 0 then RightMask(RightPart(x1, width)) else ZEROS
  }

  predicate ByLeft(x1: nat, width: nat, col: nat, k: nat)
    requires width > 0 && k < 8
  {
    col == x1 / 8 && Bit(LeftEdge(x1, width), k)
  }

  predicate ByMiddle(x1: nat, width: nat, col: nat) {
    FirstWhole(x1) <= col < FirstWhole(x1) + MidBytes(x1, width)
  }

  predicate ByRight(x1: nat, width: nat, col: nat, k: nat)
    requires width > 0 && k < 8
  {
    col == FirstWhole(x1) + MidBytes(x1, width) && Bit(RightEdge(x1, width), k)
  }

  // The pixels that left mask, middle bytes and right mask touch, by byte column and bit.
  predicate Touched(x1: nat, width: nat, col: nat, k: nat)
    requires width > 0 && k < 8
  {
    ByLeft(x1, width, col, k) || ByMiddle(x1, width, col) || ByRight(x1, width, col, k)
  }

  /** Left mask, middle bytes and right mask cover exactly the pixels x1 to x1 + width - 1. */
  lemma EdgesCoverExactly(x1: nat, width: nat, col: nat, k: nat)
    requires width > 0 && k < 8
    ensures Touched(x1, width, col, k) <==> x1 <= 8 * col + k < x1 + width
  {
    var left, right := LeftPart(x1), RightPart(x1, width);
    if left > 0 {
      LeftMaskBits(left, width, k);
    }
    if right > 0 {
      RightMaskBits(right, k);
    }
    if left < width {
      MiddleIsWhole(x1, width);
    }
  }

  // ---------------------------------------------------------------- what the loops change

  ghost predicate InRows(stride: nat, at: nat, y1: int, y2: int)
    requires stride > 0
  {
    y1 <= at / stride <= y2
  }

  // The addresses of `n` byte columns in `rows` rows.
  function Cells(stride: nat, y1: nat, rows: nat, col: nat, n: nat): set<nat> {
    if rows == 0 then {} else Cells(stride, y1, rows - 1, col, n) + Span(stride * (y1 + rows - 1) + col, n)
  }

  predicate From(dest: nat, at: nat) { dest <= at }

  function Span(dest: nat, n: nat): set<nat> {
    set at: nat | at < dest + n && From(dest, at)
  }

  // Under the mask, the pixels at those addresses have the colour; the rest is what it was.
  ghost predicate Painted(m: Video, m': Video, at: set<nat>, mask: Bits, color: Color) {
    && |m'| == |m|
    && forall i: nat, k: nat {:trigger PixelOf(m'[i], k)} :: i < |m| && k < 8 ==>
      PixelOf(m'[i], k) == if i in at && Bit(mask, k) then color else PixelOf(m[i], k)
  }

  predicate EdgesFit(stride: nat, r: Rect) {
    && 0 <= r.x1 <= r.x2 && 0 <= r.y1 <= r.y2 && 0 < stride && r.x1 / 8 < stride
    && 0 <= MidBytes(r.x1, r.x2 - r.x1 + 1)
    && FirstWhole(r.x1) + MidBytes(r.x1, r.x2 - r.x1 + 1) <= stride
    && (RightPart(r.x1, r.x2 - r.x1 + 1) > 0 ==> FirstWhole(r.x1) + MidBytes(r.x1, r.x2 - r.x1 + 1) < stride)
  }

  function LeftCells(stride: nat, r: Rect): set<nat>
    requires EdgesFit(stride, r)
  {
    Cells(stride, r.y1, r.y2 - r.y1 + 1, r.x1 / 8, 1)
  }

  function MiddleCells(stride: nat, r: Rect): set<nat>
    requires EdgesFit(stride, r)
  {
    Cells(stride, r.y1, r.y2 - r.y1 + 1, FirstWhole(r.x1), MidBytes(r.x1, r.x2 - r.x1 + 1))
  }

  function RightCells(stride: nat, r: Rect): set<nat>
    requires EdgesFit(stride, r)
  {
    Cells(stride, r.y1, r.y2 - r.y1 + 1, FirstWhole(r.x1) + MidBytes(r.x1, r.x2 - r.x1 + 1), 1)
  }

  // Every pixel of the rectangle has the colour, and every other pixel is what it was.
  ghost predicate Coloured(m: Video, m': Video, stride: nat, r: Rect, color: Color)
    requires stride > 0
  {
    && |m'| == |m|
    && forall at: nat, k: nat :: at < |m| && k < 8 ==>
      PixelOf(m'[at], k) ==
        if InRows(stride, at, r.y1, r.y2) && r.x1 <= 8 * (at % stride) + k <= r.x2 then color
        else PixelOf(m[at], k)
  }

  /** That determines the memory. */
  lemma ColouredUnique(m: Video, a: Video, b: Video, stride: nat, r: Rect, color: Color)
    requires stride > 0 && Coloured(m, a, stride, r, color) && Coloured(m, b, stride, r, color)
    ensures a == b
  {
    forall at: nat | at < |m|
      ensures a[at] == b[at]
    {
      assert forall k: nat :: k < 8 ==> PixelOf(a[at], k) == PixelOf(b[at], k);
      CellsEqual(a[at], b[at]);
    }
  }

  lemma BitsDetermine(a: Bits, b: Bits)
    requires forall k: nat :: k < 8 ==> Bit(a, k) == Bit(b, k)
    ensures a == b
  {
    forall k: nat | k < 8
      ensures a[k] == b[k]
    {
      assert Bit(a, k) == Bit(b, k);
    }
  }

  lemma CellsEqual(a: Cell, b: Cell)
    requires forall k: nat :: k < 8 ==> PixelOf(a, k) == PixelOf(b, k)
    ensures a == b
  {
    forall k: nat | k < 8
      ensures Bit(a.p0, k) == Bit(b.p0, k) && Bit(a.p1, k) == Bit(b.p1, k)
      ensures Bit(a.p2, k) == Bit(b.p2, k) && Bit(a.p3, k) == Bit(b.p3, k)
    {
      assert PixelOf(a, k) == PixelOf(b, k);
    }
    BitsDetermine(a.p0, b.p0);
    BitsDetermine(a.p1, b.p1);
    BitsDetermine(a.p2, b.p2);
    BitsDetermine(a.p3, b.p3);
  }

  // ---------------------------------------------------------------- pixel by pixel

  // The memories `ms` come one from the other by single pixels, in the order of `ps`.
  ghost predicate Dotted(ms: seq<Video>, ps: seq<Point>, stride: nat, c: Color)
    requires stride > 0
  {
    |ms| == |ps| + 1 && forall t :: 0 <= t < |ps| ==> Dot(ms, ps, t, stride, c)
  }

  ghost predicate Dot(ms: seq<Video>, ps: seq<Point>, t: nat, stride: nat, c: Color)
    requires stride > 0 && |ms| == |ps| + 1 && t < |ps|
  {
    Coloured(ms[t], ms[t + 1], stride, Rect(ps[t].x, ps[t].y, ps[t].x, ps[t].y), c)
  }

  lemma {:induction false} DottedAt(ms: seq<Video>, ps: seq<Point>, n: nat, stride: nat, c: Color, at: nat, k: nat)
    requires stride > 0 && Dotted(ms, ps, stride, c) && n <= |ps| && at < |ms[0]| && k < 8
    ensures |ms[n]| == |ms[0]|
    ensures PixelOf(ms[n][at], k) ==
      if Point(8 * (at % stride) + k, at / stride) in ps[..n] then c else PixelOf(ms[0][at], k)
  {
    if n > 0 {
      DottedAt(ms, ps, n - 1, stride, c, at, k);
      assert Dot(ms, ps, n - 1, stride, c);
      assert ps[..n] == ps[..n - 1] + [ps[n - 1]];
    }
  }

  /** Putting every pixel of a rectangle, in any order and any number of times, colours the rectangle. */
  lemma PixelsColour(ms: seq<Video>, ps: seq<Point>, stride: nat, r: Rect, c: Color)
    requires stride > 0 && Dotted(ms, ps, stride, c)
    requires forall p: Point :: p in ps <==> r.x1 <= p.x <= r.x2 && r.y1 <= p.y <= r.y2
    ensures Coloured(ms[0], ms[|ps|], stride, r, c)
  {
    assert ps[..|ps|] == ps;
    DottedLength(ms, ps, |ps|, stride, c);
    forall at: nat, k: nat | at < |ms[0]| && k < 8
      ensures PixelOf(ms[|ps|][at], k) ==
        if InRows(stride, at, r.y1, r.y2) && r.x1 <= 8 * (at % stride) + k <= r.x2 then c else PixelOf(ms[0][at], k)
    {
      DottedAt(ms, ps, |ps|, stride, c, at, k);
    }
  }

  lemma {:induction false} DottedLength(ms: seq<Video>, ps: seq<Point>, n: nat, stride: nat, c: Color)
    requires stride > 0 && Dotted(ms, ps, stride, c) && n <= |ps|
    ensures |ms[n]| == |ms[0]|
  {
    if n > 0 {
      DottedLength(ms, ps, n - 1, stride, c);
      assert Dot(ms, ps, n - 1, stride, c);
    }
  }

  /** So the memory a fill leaves is the one putting the pixels one by one leaves. */
  lemma FillIsPixels(ms: seq<Video>, ps: seq<Point>, filled: Video, stride: nat, r: Rect, c: Color)
    requires stride > 0 && Dotted(ms, ps, stride, c)
    requires forall p: Point :: p in ps <==> r.x1 <= p.x <= r.x2 && r.y1 <= p.y <= r.y2
    requires Coloured(ms[0], filled, stride, r, c)
    ensures filled == ms[|ps|]
  {
    PixelsColour(ms, ps, stride, r, c);
    ColouredUnique(ms[0], filled, ms[|ps|], stride, r, c);
  }

  // ---------------------------------------------------------------- inverting

  // A plane in write mode 3 with the exclusive-or function selected and the colour all ones.
  function Xored(latch: Bits, mask: Bits): Bits {
    Or(And(latch, Not(mask)), And(Xor(latch, ONES), mask))
  }

  function Mode3Xor(latch: Cell, mask: Bits): Cell {
    Cell(Xored(latch.p0, mask), Xored(latch.p1, mask), Xored(latch.p2, mask), Xored(latch.p3, mask))
  }

  function Complement(c: Color): Color { Color(!c.c0, !c.c1, !c.c2, !c.c3) }

  lemma XoredBit(latch: Bits, mask: Bits, k: nat)
    requires k < 8
    ensures Bit(Xored(latch, mask), k) <==> Bit(latch, k) != Bit(mask, k)
  {
  }

  lemma XorPixel(latch: Cell, mask: Bits, k: nat)
    requires k < 8
    ensures PixelOf(Mode3Xor(latch, mask), k) ==
      if Bit(mask, k) then Complement(PixelOf(latch, k)) else PixelOf(latch, k)
  {
    XoredBit(latch.p0, mask, k);
    XoredBit(latch.p1, mask, k);
    XoredBit(latch.p2, mask, k);
    XoredBit(latch.p3, mask, k);
  }

  // Of all pixels in memory order, those from `a` up to `b` are inverted.
  ghost predicate Inverted(m: Video, m': Video, a: nat, b: nat) {
    && |m'| == |m|
    && forall i: nat, k: nat :: i < |m| && k < 8 ==>
      PixelOf(m'[i], k) == if a <= 8 * i + k < b then Complement(PixelOf(m[i], k)) else PixelOf(m[i], k)
  }

  lemma InvertedThen(m: Video, m1: Video, m2: Video, a: nat, b: nat, c: nat)
    requires a <= b <= c && Inverted(m, m1, a, b) && Inverted(m1, m2, b, c)
    ensures Inverted(m, m2, a, c)
  {
    forall i: nat, k: nat | i < |m| && k < 8
      ensures PixelOf(m2[i], k) == if a <= 8 * i + k < c then Complement(PixelOf(m[i], k)) else PixelOf(m[i], k)
    {
      InvertedAt(m, m1, a, b, i, k);
      InvertedAt(m1, m2, b, c, i, k);
    }
  }

  lemma InvertedAt(m: Video, m': Video, a: nat, b: nat, i: nat, k: nat)
    requires Inverted(m, m', a, b) && i < |m| && k < 8
    ensures PixelOf(m'[i], k) == if a <= 8 * i + k < b then Complement(PixelOf(m[i], k)) else PixelOf(m[i], k)
  {
  }

  // One byte under a mask whose ones are bits `from` to `to - 1`.
  lemma OneByte(m: Video, dest: nat, mask: Bits, from: nat, to: nat)
    requires dest < |m| && from <= to <= 8 && forall k: nat :: k < 8 ==> (Bit(mask, k) <==> from <= k < to)
    ensures Inverted(m, m[dest := Mode3Xor(m[dest], mask)], 8 * dest + from, 8 * dest + to)
  {
    forall k: nat | k < 8
      ensures PixelOf(Mode3Xor(m[dest], mask), k) ==
        if from <= k < to then Complement(PixelOf(m[dest], k)) else PixelOf(m[dest], k)
    {
      XorPixel(m[dest], mask, k);
    }
  }

  // Every pixel of the rectangle is inverted, once, and every other is what it was.
  ghost predicate Reversed(m: Video, m': Video, stride: nat, r: Rect)
    requires stride > 0
  {
    && |m'| == |m|
    && forall at: nat, k: nat :: at < |m| && k < 8 ==>
      PixelOf(m'[at], k) ==
        if InRows(stride, at, r.y1, r.y2) && r.x1 <= 8 * (at % stride) + k <= r.x2 then Complement(PixelOf(m[at], k))
        else PixelOf(m[at], k)
  }

  lemma ReversedAt(m: Video, m': Video, stride: nat, r: Rect, at: nat, k: nat)
    requires stride > 0 && Reversed(m, m', stride, r) && at < |m| && k < 8
    ensures PixelOf(m'[at], k) ==
      if InRows(stride, at, r.y1, r.y2) && r.x1 <= 8 * (at % stride) + k <= r.x2 then Complement(PixelOf(m[at], k))
      else PixelOf(m[at], k)
  {
  }

  /** Inverting twice changes nothing. */
  lemma ReversedTwice(m: Video, m1: Video, m2: Video, stride: nat, r: Rect)
    requires stride > 0 && Reversed(m, m1, stride, r) && Reversed(m1, m2, stride, r)
    ensures m2 == m
  {
    forall at: nat | at < |m|
      ensures m2[at] == m[at]
    {
      forall k: nat | k < 8
        ensures PixelOf(m2[at], k) == PixelOf(m[at], k)
      {
        ReversedAt(m, m1, stride, r, at, k);
        ReversedAt(m1, m2, stride, r, at, k);
      }
      CellsEqual(m2[at], m[at]);
    }
  }

  // One row more.
  lemma RowReversed(m: Video, m1: Video, m2: Video, stride: nat, r: Rect, y: int)
    requires stride > 0 && 0 <= r.x1 <= r.x2 < 8 * stride && 0 <= r.y1 <= y
    requires Reversed(m, m1, stride, r.(y2 := y - 1))
    requires 0 <= 8 * (stride * y) && Inverted(m1, m2, 8 * (stride * y) + r.x1, 8 * (stride * y) + r.x2 + 1)
    ensures Reversed(m, m2, stride, r.(y2 := y))
  {
    forall at: nat, k: nat | at < |m| && k < 8
      ensures PixelOf(m2[at], k) ==
        if InRows(stride, at, r.y1, y) && r.x1 <= 8 * (at % stride) + k <= r.x2 then Complement(PixelOf(m[at], k))
        else PixelOf(m[at], k)
    {
      ReversedAt(m, m1, stride, r.(y2 := y - 1), at, k);
      InvertedAt(m1, m2, 8 * (stride * y) + r.x1, 8 * (stride * y) + r.x2 + 1, at, k);
      PixelInRow(stride, y, r.x1, r.x2, at, k);
    }
  }

  lemma PixelInRow(stride: nat, y: int, x1: nat, x2: nat, at: nat, k: nat)
    requires 0 < stride && 0 <= y && x2 < 8 * stride && k < 8
    ensures 8 * (stride * y) + x1 <= 8 * at + k <= 8 * (stride * y) + x2 <==>
      at / stride == y && x1 <= 8 * (at % stride) + k <= x2
  {
    InBandRow(stride, y, 0, stride, at);
    assert at == stride * (at / stride) + at % stride;
  }

  // ---------------------------------------------------------------- the device

  class FBVgaPlanes {
    const mem: array<Cell>
    const xres: nat
    const yres: nat
    const nextLine: nat
    var latch: Cell          // what the last read of video memory left behind
    var color: Color         // the set/reset register

    constructor (mem: array<Cell>, xres: nat, yres: nat, nextLine: nat)
      requires 0 < nextLine && xres <= 8 * nextLine && nextLine * yres <= mem.Length
      ensures this.mem == mem && Valid()
    {
      this.mem, this.xres, this.yres, this.nextLine := mem, xres, yres, nextLine;
      latch, color := Cell(ZEROS, ZEROS, ZEROS, ZEROS), Color(false, false, false, false);
    }

    predicate Valid() {
      0 < nextLine && xres <= 8 * nextLine && nextLine * yres <= mem.Length
    }

    predicate OnScreen(r: Rect) {
      0 <= r.x1 <= r.x2 < xres && 0 <= r.y1 <= r.y2 < yres
    }

    method SetColor(c: Color)
      modifies `color
      ensures color == c
    {
      color := c;
    }

    // Reading fills the latches.
    method Read(at: nat)
      requires at < mem.Length
      modifies `latch
      ensures latch == mem[at]
    {
      latch := mem[at];
    }

    method Write(at: nat, mask: Bits)
      requires at < mem.Length
      modifies mem
      ensures mem[..] == old(mem[..])[at := Mode3(latch, mask, color)]
    {
      mem[at] := Mode3(latch, mask, color);
    }

    // One masked byte in every row: the left or the right edge.
    method FillEdge(r: Rect, ghost col: nat, destorig: nat, mask: Bits)
      requires Valid() && OnScreen(r) && col < nextLine && destorig == nextLine * r.y1 + col
      modifies `latch, mem
      ensures Painted(old(mem[..]), mem[..], Cells(nextLine, r.y1, r.y2 - r.y1 + 1, col, 1), mask, color)
    {
      var dest, height := destorig, r.y2 - r.y1 + 1;
      ghost var m := mem[..];
      for j := 0 to height
        invariant dest == nextLine * (r.y1 + j) + col
        invariant Painted(m, mem[..], Cells(nextLine, r.y1, j, col, 1), mask, color)
      {
        RowAddress(nextLine, yres, r.y1 + j, col, 1);
        Read(dest);
        ghost var m1 := mem[..];
        Write(dest, mask);
        EdgeRow(m, m1, mem[..], nextLine, r.y1, j, col, mask, dest, color);
        dest := dest + nextLine;
      }
    }

    // memset of a row: every write has all ones, so the stale latches do not matter.
    method Memset(dest: nat, n: nat)
      requires dest + n <= mem.Length
      modifies mem
      ensures Painted(old(mem[..]), mem[..], Span(dest, n), ONES, color)
    {
      forall at | dest <= at < dest + n {
        mem[at] := Mode3(latch, ONES, color);
      }
      forall k: nat | k < 8
        ensures Bit(ONES, k) && PixelOf(Mode3(latch, ONES, color), k) == color
      {
        Mode3Pixel(latch, ONES, color, k);
      }
    }

    method FillBytes(r: Rect, ghost col: nat, destorig: nat, midBytes: nat)
      requires Valid() && OnScreen(r) && col + midBytes <= nextLine && destorig == nextLine * r.y1 + col
      modifies mem
      ensures Painted(old(mem[..]), mem[..], Cells(nextLine, r.y1, r.y2 - r.y1 + 1, col, midBytes), ONES, color)
    {
      var dest, height := destorig, r.y2 - r.y1 + 1;
      ghost var m := mem[..];
      for j := 0 to height
        invariant dest == nextLine * (r.y1 + j) + col
        invariant Painted(m, mem[..], Cells(nextLine, r.y1, j, col, midBytes), ONES, color)
      {
        RowAddress(nextLine, yres, r.y1 + j, col, midBytes);
        ghost var m1 := mem[..];
        Memset(dest, midBytes);
        BandRow(m, m1, mem[..], nextLine, r.y1, j, col, midBytes, dest, color);
        dest := dest + nextLine;
      }
    }

    // How much of the row the left mask, the right mask and the whole bytes take.
    static method Parts(x1: nat, width: nat) returns (left: nat, right: nat, midBytes: nat)
      requires width > 0
      ensures left == LeftPart(x1) <= 7 && right == RightPart(x1, width) <= 7 && midBytes == MidBytes(x1, width)
    {
      left := 8 - x1 % 8;
      if left == 8 {
        left := 0;
      }
      right, midBytes := 0, 0;
      if left < width {
        MiddleIsWhole(x1, width);
        right := (x1 + width) % 8;
        midBytes := (width - left - right) / 8;
      }
    }

    method FillLeft(r: Rect, destorig: nat, left: nat) returns (next: nat)
      requires Valid() && OnScreen(r) && EdgesFit(nextLine, r)
      requires destorig == nextLine * r.y1 + r.x1 / 8 && left == LeftPart(r.x1)
      modifies `latch, mem
      ensures next == nextLine * r.y1 + FirstWhole(r.x1)
      ensures Painted(old(mem[..]), mem[..], LeftCells(nextLine, r), LeftEdge(r.x1, r.x2 - r.x1 + 1), color)
    {
      next := destorig;
      if left > 0 {
        FillEdge(r, r.x1 / 8, destorig, LeftMask(left, r.x2 - r.x1 + 1));
        next := next + 1;
      } else {
        NothingPainted(mem[..], LeftCells(nextLine, r), color);
      }
    }

    method FillMiddle(r: Rect, destorig: nat, midBytes: nat) returns (next: nat)
      requires Valid() && OnScreen(r) && EdgesFit(nextLine, r)
      requires destorig == nextLine * r.y1 + FirstWhole(r.x1) && midBytes == MidBytes(r.x1, r.x2 - r.x1 + 1)
      modifies mem
      ensures next == nextLine * r.y1 + (FirstWhole(r.x1) + midBytes)
      ensures Painted(old(mem[..]), mem[..], MiddleCells(nextLine, r), ONES, color)
    {
      next := destorig;
      if midBytes > 0 {
        FillBytes(r, FirstWhole(r.x1), destorig, midBytes);
        next := next + midBytes;
      } else {
        NoCells(nextLine, r.y1, r.y2 - r.y1 + 1, FirstWhole(r.x1));
      }
    }

    method FillRight(r: Rect, destorig: nat, right: nat)
      requires Valid() && OnScreen(r) && EdgesFit(nextLine, r)
      requires destorig == nextLine * r.y1 + (FirstWhole(r.x1) + MidBytes(r.x1, r.x2 - r.x1 + 1))
      requires right == RightPart(r.x1, r.x2 - r.x1 + 1)
      modifies `latch, mem
      ensures Painted(old(mem[..]), mem[..], RightCells(nextLine, r), RightEdge(r.x1, r.x2 - r.x1 + 1), color)
    {
      if right > 0 {
        FillEdge(r, FirstWhole(r.x1) + MidBytes(r.x1, r.x2 - r.x1 + 1), destorig, RightMask(right));
      } else {
        NothingPainted(mem[..], RightCells(nextLine, r), color);
      }
    }

    method FillRect(r: Rect, c: Color)
      requires Valid() && OnScreen(r)
      modifies `latch, `color, mem
      ensures Coloured(old(mem[..]), mem[..], nextLine, r, c)
    {
      SetColor(c);
      var destorig := nextLine * r.y1 + r.x1 / 8;
      var left, right, midBytes := Parts(r.x1, r.x2 - r.x1 + 1);
      ColumnsFit(r.x1, r.x2 - r.x1 + 1, xres, nextLine);
      FillParts(r, destorig, left, midBytes, right);
    }

    method FillParts(r: Rect, destorig: nat, left: nat, midBytes: nat, right: nat)
      requires Valid() && OnScreen(r) && EdgesFit(nextLine, r) && destorig == nextLine * r.y1 + r.x1 / 8
      requires left == LeftPart(r.x1) && midBytes == MidBytes(r.x1, r.x2 - r.x1 + 1)
      requires right == RightPart(r.x1, r.x2 - r.x1 + 1)
      modifies `latch, mem
      ensures Coloured(old(mem[..]), mem[..], nextLine, r, color)
    {
      ghost var m := mem[..];
      ghost var s1, mask1 := LeftCells(nextLine, r), LeftEdge(r.x1, r.x2 - r.x1 + 1);
      ghost var s2 := MiddleCells(nextLine, r);
      ghost var s3, mask3 := RightCells(nextLine, r), RightEdge(r.x1, r.x2 - r.x1 + 1);
      var dest := FillLeft(r, destorig, left);
      ghost var m1 := mem[..];
      dest := FillMiddle(r, dest, midBytes);
      ghost var m2 := mem[..];
      FillRight(r, dest, right);
      PaintThree(m, m1, m2, mem[..], s1, mask1, s2, s3, mask3, color);
      Assemble(m, mem[..], nextLine, r, s1, s2, s3, color);
    }

    // A write with the exclusive-or function selected.
    method WriteXor(at: nat, mask: Bits)
      requires at < mem.Length
      modifies mem
      ensures mem[..] == old(mem[..])[at := Mode3Xor(latch, mask)]
    {
      mem[at] := Mode3Xor(latch, mask);
    }

    method FlipByte(dest8: nat, mask: Bits, ghost from: nat, ghost to: nat)
      requires dest8 < mem.Length && from <= to <= 8 && forall k: nat :: k < 8 ==> (Bit(mask, k) <==> from <= k < to)
      modifies `latch, mem
      ensures Inverted(old(mem[..]), mem[..], 8 * dest8 + from, 8 * dest8 + to)
    {
      OneByte(mem[..], dest8, mask, from, to);
      Read(dest8);
      WriteXor(dest8, mask);
    }

    method FlipBytes(dest8: nat, midBytes: nat)
      requires dest8 + midBytes <= mem.Length
      modifies `latch, mem
      ensures Inverted(old(mem[..]), mem[..], 8 * dest8, 8 * (dest8 + midBytes))
    {
      ghost var m := mem[..];
      for cnt := 0 to midBytes
        invariant Inverted(m, mem[..], 8 * dest8, 8 * (dest8 + cnt))
      {
        ghost var m1 := mem[..];
        forall k: nat | k < 8
          ensures Bit(ONES, k)
        {
        }
        FlipByte(dest8 + cnt, ONES, 0, 8);
        InvertedThen(m, m1, mem[..], 8 * dest8, 8 * (dest8 + cnt), 8 * (dest8 + cnt) + 8);
      }
    }

    // One row: the left edge, the whole bytes, the right edge.
    method FlipRow(dest: nat, x1: nat, width: nat, left: nat, right: nat, midBytes: nat)
      requires width > 0 && left == LeftPart(x1) && right == RightPart(x1, width) && midBytes == MidBytes(x1, width)
      requires dest + midBytes + (if left > 0 then 1 else 0) + (if right > 0 then 1 else 0) <= mem.Length
      modifies `latch, mem
      ensures Inverted(old(mem[..]), mem[..], 8 * dest + x1 % 8, 8 * dest + x1 % 8 + width)
    {
      ghost var m, start := mem[..], 8 * dest + x1 % 8;
      var dest8 := dest;
      ghost var upTo := start;
      if left > 0 {
        ghost var n := if left < width then left else width;
        forall k: nat | k < 8
          ensures Bit(LeftMask(left, width), k) <==> 8 - left <= k < 8 - left + n
        {
          LeftMaskBits(left, width, k);
        }
        FlipByte(dest8, LeftMask(left, width), 8 - left, 8 - left + n);
        dest8, upTo := dest8 + 1, upTo + n;
      }
      if left < width {
        MiddleIsWhole(x1, width);
      }
      assert Inverted(m, mem[..], start, upTo);
      if midBytes > 0 {
        ghost var m1 := mem[..];
        FlipBytes(dest8, midBytes);
        InvertedThen(m, m1, mem[..], start, upTo, 8 * (dest8 + midBytes));
        dest8, upTo := dest8 + midBytes, 8 * (dest8 + midBytes);
      }
      assert Inverted(m, mem[..], start, upTo);
      if right > 0 {
        ghost var m2 := mem[..];
        forall k: nat | k < 8
          ensures Bit(RightMask(right), k) <==> 0 <= k < right
        {
          RightMaskBits(right, k);
        }
        FlipByte(dest8, RightMask(right), 0, right);
        InvertedThen(m, m2, mem[..], start, upTo, 8 * dest8 + right);
      }
    }

    method RevRect(r: Rect)
      requires Valid() && OnScreen(r)
      modifies `latch, `color, mem
      ensures Reversed(old(mem[..]), mem[..], nextLine, r)
    {
      SetColor(Color(true, true, true, true));
      var left, right, midBytes := Parts(r.x1, r.x2 - r.x1 + 1);
      ColumnsFit(r.x1, r.x2 - r.x1 + 1, xres, nextLine);
      var dest, height := nextLine * r.y1 + r.x1 / 8, r.y2 - r.y1 + 1;
      ghost var m := mem[..];
      for j := 0 to height
        invariant dest == nextLine * (r.y1 + j) + r.x1 / 8
        invariant Reversed(m, mem[..], nextLine, r.(y2 := r.y1 + j - 1))
      {
        ghost var m1, y := mem[..], r.y1 + j;
        RowOfBytes(nextLine, yres, y, r.x1, xres, r.x2 - r.x1 + 1);
        FlipRow(dest, r.x1, r.x2 - r.x1 + 1, left, right, midBytes);
        RowReversed(m, m1, mem[..], nextLine, r, y);
        dest := dest + nextLine;
      }
    }

    method PutPixel(x: int, y: int, c: Color)
      requires Valid() && OnScreen(Rect(x, y, x, y))
      modifies `latch, `color, mem
      ensures Coloured(old(mem[..]), mem[..], nextLine, Rect(x, y, x, y), c)
    {
      SetColor(c);
      CellAddress(nextLine, yres, y, x / 8);
      var dest := nextLine * y + x / 8;
      Read(dest);
      ghost var m := mem[..];
      Write(dest, Right(LEFTMOST, x % 8));
      forall at: nat, k: nat | at < |m| && k < 8
        ensures PixelOf(mem[at], k) ==
          if InRows(nextLine, at, y, y) && x <= 8 * (at % nextLine) + k <= x then c else PixelOf(m[at], k)
      {
        SingleBit(x % 8, k);
        InBandRow(nextLine, y, x / 8, 1, at);
        Mode3Pixel(m[dest], Right(LEFTMOST, x % 8), c, k);
      }
    }
  }

  lemma SingleBit(i: nat, k: nat)
    requires i < 8 && k < 8
    ensures Bit(Right(LEFTMOST, i), k) <==> k == i
  {
  }

  // ---------------------------------------------------------------- one row of each loop

  lemma CellAddress(stride: nat, yres: nat, y: int, col: nat)
    requires 0 <= y < yres && col < stride
    ensures 0 <= stride * y + col < stride * yres
    ensures (stride * y + col) / stride == y && (stride * y + col) % stride == col
  {
    DivModUnique(y, col, stride);
    Lines(y, yres, stride);
  }

  lemma RowAddress(stride: nat, yres: nat, y: int, col: nat, n: nat)
    requires 0 <= y < yres && col + n <= stride
    ensures 0 <= stride * y + col && stride * y + col + n <= stride * yres
  {
    Lines(y, yres, stride);
  }

  lemma EdgeRow(m: Video, m1: Video, m2: Video, stride: nat, y1: nat, rows: nat, col: nat, mask: Bits, dest: nat,
                c: Color)
    requires dest == stride * (y1 + rows) + col
    requires Painted(m, m1, Cells(stride, y1, rows, col, 1), mask, c) && dest < |m1|
    requires m2 == m1[dest := Mode3(m1[dest], mask, c)]
    ensures Painted(m, m2, Cells(stride, y1, rows + 1, col, 1), mask, c)
    ensures dest + stride == stride * (y1 + (rows + 1)) + col
  {
    forall k: nat | k < 8
      ensures PixelOf(Mode3(m1[dest], mask, c), k) == if Bit(mask, k) then c else PixelOf(m1[dest], k)
    {
      Mode3Pixel(m1[dest], mask, c, k);
    }
    MorePainted(m, m1, m2, Cells(stride, y1, rows, col, 1), Span(dest, 1), mask, c);
    NextRow(stride, y1, rows, col, 1);
  }

  lemma MorePainted(m: Video, m1: Video, m2: Video, cells: set<nat>, more: set<nat>, mask: Bits, c: Color)
    requires Painted(m, m1, cells, mask, c) && Painted(m1, m2, more, mask, c)
    ensures Painted(m, m2, cells + more, mask, c)
  {
  }

  lemma NothingPainted(m: Video, cells: set<nat>, c: Color)
    ensures Painted(m, m, cells, ZEROS, c)
  {
  }

  lemma BandRow(m: Video, m1: Video, m2: Video, stride: nat, y1: nat, rows: nat, col: nat, n: nat, dest: nat, c: Color)
    requires dest == stride * (y1 + rows) + col
    requires Painted(m, m1, Cells(stride, y1, rows, col, n), ONES, c) && Painted(m1, m2, Span(dest, n), ONES, c)
    ensures Painted(m, m2, Cells(stride, y1, rows + 1, col, n), ONES, c)
    ensures dest + stride == stride * (y1 + (rows + 1)) + col
  {
    MorePainted(m, m1, m2, Cells(stride, y1, rows, col, n), Span(dest, n), ONES, c);
    NextRow(stride, y1, rows, col, n);
  }

  lemma NextRow(stride: nat, y1: nat, rows: nat, col: nat, n: nat)
    ensures Cells(stride, y1, rows + 1, col, n) == Cells(stride, y1, rows, col, n) + Span(stride * (y1 + rows) + col, n)
    ensures stride * (y1 + rows) + col + stride == stride * (y1 + (rows + 1)) + col
  {
  }

  lemma NoCells(stride: nat, y1: nat, rows: nat, col: nat)
    ensures Cells(stride, y1, rows, col, 0) == {}
  {
  }

  lemma {:induction false} InCells(stride: nat, y1: nat, rows: nat, col: nat, n: nat, at: nat)
    requires 0 < stride && col + n <= stride
    ensures at in Cells(stride, y1, rows, col, n) <==>
      InRows(stride, at, y1, y1 + rows - 1) && col <= at % stride < col + n
  {
    if rows > 0 {
      InCells(stride, y1, rows - 1, col, n, at);
      InBandRow(stride, y1 + rows - 1, col, n, at);
    }
  }

  lemma InBandRow(stride: nat, y: int, col: nat, n: nat, at: nat)
    requires 0 <= y && col + n <= stride && 0 < stride
    ensures stride * y + col <= at < stride * y + col + n <==> at / stride == y && col <= at % stride < col + n
  {
    assert at == stride * (at / stride) + at % stride;
    if stride * y + col <= at < stride * y + col + n {
      DivModUnique(y, at - stride * y, stride);
    }
  }

  lemma ColumnsFit(x1: nat, width: nat, xres: nat, stride: nat)
    requires width > 0 && x1 + width <= xres <= 8 * stride
    ensures x1 / 8 < stride && 0 <= MidBytes(x1, width)
    ensures FirstWhole(x1) + MidBytes(x1, width) <= stride
    ensures RightPart(x1, width) > 0 ==> FirstWhole(x1) + MidBytes(x1, width) < stride
  {
    if LeftPart(x1) < width {
      MiddleIsWhole(x1, width);
    }
  }

  lemma RowOfBytes(stride: nat, yres: nat, y: int, x1: nat, xres: nat, width: nat)
    requires 0 <= y < yres && width > 0 && x1 + width <= xres <= 8 * stride
    ensures 0 <= MidBytes(x1, width) && 0 <= stride * y
    ensures var dest := stride * y + x1 / 8;
      && 0 <= dest && 8 * dest + x1 % 8 == 8 * (stride * y) + x1
      && dest + MidBytes(x1, width) + (if LeftPart(x1) > 0 then 1 else 0)
         + (if RightPart(x1, width) > 0 then 1 else 0) <= stride * yres
      && dest + stride == stride * (y + 1) + x1 / 8
  {
    ColumnsFit(x1, width, xres, stride);
    Lines(y, yres, stride);
    assert x1 == 8 * (x1 / 8) + x1 % 8;
  }

  // Left edge `s1`, middle `s2` and right edge `s3` together.
  ghost predicate Union(m: Video, m': Video, s1: set<nat>, mask1: Bits, s2: set<nat>, s3: set<nat>, mask3: Bits,
                        c: Color)
  {
    && |m'| == |m|
    && forall i: nat, k: nat {:trigger PixelOf(m'[i], k)} :: i < |m| && k < 8 ==>
      PixelOf(m'[i], k) ==
        if (i in s1 && Bit(mask1, k)) || i in s2 || (i in s3 && Bit(mask3, k)) then c else PixelOf(m[i], k)
  }

  lemma PaintThree(m: Video, m1: Video, m2: Video, m3: Video, s1: set<nat>, mask1: Bits, s2: set<nat>,
                   s3: set<nat>, mask3: Bits, c: Color)
    requires Painted(m, m1, s1, mask1, c) && Painted(m1, m2, s2, ONES, c) && Painted(m2, m3, s3, mask3, c)
    ensures Union(m, m3, s1, mask1, s2, s3, mask3, c)
  {
    forall i: nat, k: nat {:trigger PixelOf(m3[i], k)} | i < |m| && k < 8
      ensures PixelOf(m3[i], k) ==
        if (i in s1 && Bit(mask1, k)) || i in s2 || (i in s3 && Bit(mask3, k)) then c else PixelOf(m[i], k)
    {
      PaintedAt(m, m1, s1, mask1, c, i, k);
      PaintedAt(m1, m2, s2, ONES, c, i, k);
      PaintedAt(m2, m3, s3, mask3, c, i, k);
      assert Bit(ONES, k);
    }
  }

  lemma PaintedAt(m: Video, m': Video, cells: set<nat>, mask: Bits, c: Color, at: nat, k: nat)
    requires Painted(m, m', cells, mask, c) && at < |m| && k < 8
    ensures PixelOf(m'[at], k) == if at in cells && Bit(mask, k) then c else PixelOf(m[at], k)
  {
  }

  lemma UnionAt(m: Video, m': Video, s1: set<nat>, mask1: Bits, s2: set<nat>, s3: set<nat>, mask3: Bits, c: Color,
                i: nat, k: nat)
    requires Union(m, m', s1, mask1, s2, s3, mask3, c) && i < |m| && k < 8
    ensures PixelOf(m'[i], k) ==
      if (i in s1 && Bit(mask1, k)) || i in s2 || (i in s3 && Bit(mask3, k)) then c else PixelOf(m[i], k)
  {
  }

  // An empty mask or an empty band paints nothing.
  lemma Assemble(m: Video, m3: Video, stride: nat, r: Rect, s1: set<nat>, s2: set<nat>, s3: set<nat>, c: Color)
    requires EdgesFit(stride, r)
    requires s1 == LeftCells(stride, r) && s2 == MiddleCells(stride, r) && s3 == RightCells(stride, r)
    requires Union(m, m3, s1, LeftEdge(r.x1, r.x2 - r.x1 + 1), s2, s3, RightEdge(r.x1, r.x2 - r.x1 + 1), c)
    ensures Coloured(m, m3, stride, r, c)
  {
    forall at: nat, k: nat | at < |m| && k < 8
      ensures PixelOf(m3[at], k) ==
        if InRows(stride, at, r.y1, r.y2) && r.x1 <= 8 * (at % stride) + k <= r.x2 then c else PixelOf(m[at], k)
    {
      UnionAt(m, m3, s1, LeftEdge(r.x1, r.x2 - r.x1 + 1), s2, s3, RightEdge(r.x1, r.x2 - r.x1 + 1), c, at, k);
      WhichCells(stride, r, s1, s2, s3, at, k);
      EdgesCoverExactly(r.x1, r.x2 - r.x1 + 1, at % stride, k);
    }
  }

  // What the three loops paint, by rows and byte columns.
  lemma WhichCells(stride: nat, r: Rect, s1: set<nat>, s2: set<nat>, s3: set<nat>, at: nat, k: nat)
    requires EdgesFit(stride, r) && k < 8
    requires s1 == LeftCells(stride, r) && s2 == MiddleCells(stride, r) && s3 == RightCells(stride, r)
    ensures var width, row := r.x2 - r.x1 + 1, InRows(stride, at, r.y1, r.y2);
      && (at in s1 && Bit(LeftEdge(r.x1, width), k) <==> row && ByLeft(r.x1, width, at % stride, k))
      && (at in s2 <==> row && ByMiddle(r.x1, width, at % stride))
      && (at in s3 && Bit(RightEdge(r.x1, width), k) <==> row && ByRight(r.x1, width, at % stride, k))
  {
    var width, rows := r.x2 - r.x1 + 1, r.y2 - r.y1 + 1;
    var first, mid := FirstWhole(r.x1), MidBytes(r.x1, width);
    InCells(stride, r.y1, rows, r.x1 / 8, 1, at);
    InCells(stride, r.y1, rows, first, mid, at);
    if RightPart(r.x1, width) > 0 {
      InCells(stride, r.y1, rows, first + mid, 1, at);
    }
  }
}
