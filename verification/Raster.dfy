/**
 The linear framebuffer as a byte memory, and the two rectangle transfers every save-under
 window rests on.

 A device has `xres` by `yres` pixels of `bpp` bytes (2 for FBLinear16, 4 for FBLinear32) and
 `stride` bytes from one line to the next.  Rectangles are inclusive on all four sides.
 `Grab` and `Blit` say what SaveRect and RstrRect do to a memory; the laws below them are all
 that the compositor needs to know about a device.
 */
module Raster {

  type Byte = bv8
  type Mem = seq<Byte>

  datatype Geometry = Geometry(xres: nat, yres: nat, stride: nat, bpp: nat) {
    predicate Valid() {
      && 0 < xres && 0 < yres && 0 < bpp
      && xres * bpp <= stride
    }
  }

  datatype Rect = Rect(x1: int, y1: int, x2: int, y2: int)

  // What the assertions at the head of every rectangle operation demand.
  predicate OnScreen(g: Geometry, r: Rect) {
    && 0 <= r.x1 <= r.x2 < g.xres
    && 0 <= r.y1 <= r.y2 < g.yres
  }

  predicate Disjoint(a: Rect, b: Rect) {
    a.x2 < b.x1 || b.x2 < a.x1 || a.y2 < b.y1 || b.y2 < a.y1
  }

  predicate Inside(a: Rect, b: Rect) {
    b.x1 <= a.x1 && a.x2 <= b.x2 && b.y1 <= a.y1 && a.y2 <= b.y2
  }

  predicate Fits(g: Geometry, m: Mem) {
    g.Valid() && g.stride * g.yres <= |m|
  }

  // The pixel a byte belongs to.  Bytes past the last pixel of a line get an x of at least xres.
  function XOf(g: Geometry, i: nat): int
    requires g.Valid()
  {
    (i % g.stride) / g.bpp
  }

  function YOf(g: Geometry, i: nat): int
    requires g.Valid()
  {
    i / g.stride
  }

  predicate Covers(g: Geometry, r: Rect, i: nat)
    requires g.Valid()
  {
    r.x1 <= XOf(g, i) <= r.x2 && r.y1 <= YOf(g, i) <= r.y2
  }

  function RowLen(g: Geometry, r: Rect): int { (r.x2 - r.x1 + 1) * g.bpp }

  function Size(g: Geometry, r: Rect): int { (r.y2 - r.y1 + 1) * RowLen(g, r) }

  // The memory index of byte `k` of a saved rectangle ...
  function Cell(g: Geometry, r: Rect, k: nat): int
    requires RowLen(g, r) > 0
  {
    (r.y1 + k / RowLen(g, r)) * g.stride + (r.x1 * g.bpp + k % RowLen(g, r))
  }

  // ... and the way back.
  function Pos(g: Geometry, r: Rect, i: nat): int
    requires g.Valid()
  {
    (YOf(g, i) - r.y1) * RowLen(g, r) + (i % g.stride - r.x1 * g.bpp)
  }

  function Grab(g: Geometry, m: Mem, r: Rect): (c: Mem)
    requires Fits(g, m) && OnScreen(g, r)
    ensures |c| == Size(g, r)
  {
    RectIsPositive(g, r);
    seq(Size(g, r), k requires 0 <= k < Size(g, r) =>
      CellPos(g, r, k); CellInMemory(g, m, r, k); m[Cell(g, r, k)])
  }

  function Blit(g: Geometry, m: Mem, r: Rect, c: Mem): (m': Mem)
    requires Fits(g, m) && OnScreen(g, r) && |c| == Size(g, r)
    ensures |m'| == |m|
  {
    seq(|m|, i requires 0 <= i < |m| =>
      if Covers(g, r, i) then PosInRect(g, r, i); c[Pos(g, r, i)] else m[i])
  }

  // The start of a buffer, as much as the rectangle takes.
  function BlitHead(g: Geometry, m: Mem, r: Rect, c: Mem): (m': Mem)
    requires Fits(g, m) && OnScreen(g, r) && |c| >= Size(g, r)
    ensures |m'| == |m|
  {
    RectIsPositive(g, r);
    Blit(g, m, r, c[..Size(g, r)])
  }

  // ---------------------------------------------------------------- arithmetic

  lemma MulMono(a: int, b: int, c: nat)
    requires a <= b
    ensures a * c <= b * c
  {
  }

  // `j` lines of `n` each, out of `h`.
  lemma Lines(j: int, h: int, n: int)
    requires 0 <= j < h && 0 <= n
    ensures 0 <= j * n
    ensures (j + 1) * n == j * n + n <= h * n
  {
    MulMono(j + 1, h, n);
  }

  lemma InLines(i: nat, d: nat, h: nat)
    requires 0 < d && i / d < h
    ensures i < d * h
  {
    assert i == (i / d) * d + i % d;
    Lines(i / d, h, d);
  }

  lemma DivModUnique(q: int, r: int, d: int)
    requires 0 <= r < d && 0 <= q
    ensures 0 <= q * d + r
    ensures (q * d + r) / d == q && (q * d + r) % d == r
  {
    var n := q * d + r;
    assert n >= 0 by { MulMono(0, q, d); }
    var q', r' := n / d, n % d;
    assert n == q' * d + r';
    if q' < q { MulMono(q' + 1, q, d); }
    if q < q' { MulMono(q + 1, q', d); }
  }

  lemma DivBounds(n: int, d: int, lo: int, hi: int)
    requires 0 < d && lo * d <= n < hi * d
    ensures lo <= n / d < hi
  {
    var q := n / d;
    assert n == q * d + n % d;
    if q < lo { MulMono(q + 1, lo, d); }
    if hi <= q { MulMono(hi, q, d); }
  }

  lemma MulBounds(n: int, d: int, lo: int, hi: int)
    requires 0 < d && lo <= n / d <= hi
    ensures lo * d <= n < (hi + 1) * d
  {
    assert n == (n / d) * d + n % d;
    if (n / d) < hi { MulMono(n / d + 1, hi + 1, d); }
    if lo < n / d { MulMono(lo, n / d, d); }
  }

  lemma RectIsPositive(g: Geometry, r: Rect)
    requires g.Valid() && OnScreen(g, r)
    ensures 0 < RowLen(g, r) <= g.stride
    ensures 0 <= r.x1 * g.bpp && r.x1 * g.bpp + RowLen(g, r) == (r.x2 + 1) * g.bpp <= g.stride
    ensures 0 < Size(g, r)
  {
    MulMono(1, r.x2 - r.x1 + 1, g.bpp);
    MulMono(r.x2 + 1, g.xres, g.bpp);
    MulMono(0, r.x1, g.bpp);
    MulMono(1, r.y2 - r.y1 + 1, RowLen(g, r));
  }

  // Byte `t` of line `j` of a rectangle.
  lemma CellAt(g: Geometry, r: Rect, j: int, t: int)
    requires g.Valid() && OnScreen(g, r) && 0 <= j <= r.y2 - r.y1 && 0 <= t < RowLen(g, r)
    ensures RowLen(g, r) > 0
    ensures 0 <= j * RowLen(g, r) + t < Size(g, r)
    ensures (j * RowLen(g, r) + t) / RowLen(g, r) == j
    ensures Cell(g, r, j * RowLen(g, r) + t) == (r.y1 + j) * g.stride + (r.x1 * g.bpp + t)
  {
    RectIsPositive(g, r);
    DivModUnique(j, t, RowLen(g, r));
    Lines(j, r.y2 - r.y1 + 1, RowLen(g, r));
  }

  // Cell leads into the rectangle, and Pos leads back.
  lemma CellPos(g: Geometry, r: Rect, k: int)
    requires g.Valid() && OnScreen(g, r) && 0 <= k < Size(g, r)
    ensures RowLen(g, r) > 0
    ensures Cell(g, r, k) >= 0
    ensures Covers(g, r, Cell(g, r, k))
    ensures Pos(g, r, Cell(g, r, k)) == k
    ensures YOf(g, Cell(g, r, k)) == r.y1 + k / RowLen(g, r)
  {
    RectIsPositive(g, r);
    var n := RowLen(g, r);
    var j, t := k / n, k % n;
    assert k == j * n + t;
    DivBounds(k, n, 0, r.y2 - r.y1 + 1);
    DivModUnique(r.y1 + j, r.x1 * g.bpp + t, g.stride);
    DivBounds(r.x1 * g.bpp + t, g.bpp, r.x1, r.x2 + 1);
  }

  lemma CellInMemory(g: Geometry, m: Mem, r: Rect, k: int)
    requires Fits(g, m) && OnScreen(g, r) && 0 <= k < Size(g, r)
    ensures RowLen(g, r) > 0
    ensures 0 <= Cell(g, r, k) < g.stride * g.yres <= |m|
  {
    CellPos(g, r, k);
    InLines(Cell(g, r, k), g.stride, g.yres);
  }

  // Pos leads into the saved rectangle, and Cell leads back.
  lemma PosInRect(g: Geometry, r: Rect, i: int)
    requires g.Valid() && OnScreen(g, r) && 0 <= i && Covers(g, r, i)
    ensures RowLen(g, r) > 0
    ensures 0 <= Pos(g, r, i) < Size(g, r)
    ensures Cell(g, r, Pos(g, r, i)) == i
  {
    RectIsPositive(g, r);
    var o := i % g.stride;
    MulBounds(o, g.bpp, r.x1, r.x2);
    CellAt(g, r, YOf(g, i) - r.y1, o - r.x1 * g.bpp);
    assert i == YOf(g, i) * g.stride + o;
  }

  // ---------------------------------------------------------------- line by line

  function LineStart(g: Geometry, r: Rect, j: int): int {
    (r.y1 + j) * g.stride + r.x1 * g.bpp
  }

  // Blit with only the first `j` lines of the rectangle written.
  ghost function BlitLines(g: Geometry, m: Mem, r: Rect, c: Mem, j: int): (m': Mem)
    requires Fits(g, m) && OnScreen(g, r) && |c| == Size(g, r)
    ensures |m'| == |m|
  {
    seq(|m|, i requires 0 <= i < |m| =>
      if Covers(g, r, i) && YOf(g, i) < r.y1 + j then Blit(g, m, r, c)[i] else m[i])
  }

  lemma LineInMemory(g: Geometry, r: Rect, j: int)
    requires g.Valid() && OnScreen(g, r) && 0 <= j <= r.y2 - r.y1
    ensures 0 <= j * RowLen(g, r)
    ensures (j + 1) * RowLen(g, r) == j * RowLen(g, r) + RowLen(g, r) <= Size(g, r)
    ensures 0 <= LineStart(g, r, j)
    ensures LineStart(g, r, j) + RowLen(g, r) <= g.stride * g.yres
    ensures LineStart(g, r, j + 1) == LineStart(g, r, j) + g.stride
  {
    RectIsPositive(g, r);
    Lines(j, r.y2 - r.y1 + 1, RowLen(g, r));
    Lines(r.y1 + j, g.yres, g.stride);
  }

  lemma GrabLine(g: Geometry, m: Mem, r: Rect, j: int)
    requires Fits(g, m) && OnScreen(g, r) && 0 <= j <= r.y2 - r.y1
    ensures 0 <= j * RowLen(g, r) && (j + 1) * RowLen(g, r) == j * RowLen(g, r) + RowLen(g, r) <= Size(g, r)
    ensures 0 <= LineStart(g, r, j) && 0 < RowLen(g, r) && LineStart(g, r, j) + RowLen(g, r) <= |m|
    ensures Grab(g, m, r)[..(j + 1) * RowLen(g, r)]
      == Grab(g, m, r)[..j * RowLen(g, r)] + m[LineStart(g, r, j)..LineStart(g, r, j) + RowLen(g, r)]
  {
    LineInMemory(g, r, j);
    RectIsPositive(g, r);
    var n, at := j * RowLen(g, r), LineStart(g, r, j);
    var c := Grab(g, m, r);
    forall k | n <= k < n + RowLen(g, r)
      ensures c[k] == m[at + (k - n)]
    {
      CellAt(g, r, j, k - n);
    }
    Extended(c, n, m, at, RowLen(g, r));
  }

  lemma Extended(c: Mem, n: nat, m: Mem, at: nat, len: nat)
    requires n + len <= |c| && at + len <= |m|
    requires forall k :: n <= k < n + len ==> c[k] == m[at + (k - n)]
    ensures c[..n + len] == c[..n] + m[at..at + len]
  {
  }

  // Which bytes line `j` of the rectangle consists of.
  lemma LineIsCovered(g: Geometry, r: Rect, j: int, t: int)
    requires g.Valid() && OnScreen(g, r) && 0 <= j <= r.y2 - r.y1 && 0 <= t < RowLen(g, r)
    ensures 0 <= LineStart(g, r, j)
    ensures Covers(g, r, LineStart(g, r, j) + t) && YOf(g, LineStart(g, r, j) + t) == r.y1 + j
    ensures Pos(g, r, LineStart(g, r, j) + t) == j * RowLen(g, r) + t
  {
    LineInMemory(g, r, j);
    CellAt(g, r, j, t);
    CellPos(g, r, j * RowLen(g, r) + t);
  }

  lemma CoveredIsInLine(g: Geometry, r: Rect, i: int)
    requires g.Valid() && OnScreen(g, r) && 0 <= i && Covers(g, r, i)
    ensures 0 <= i - LineStart(g, r, YOf(g, i) - r.y1) < RowLen(g, r)
  {
    var o := i % g.stride;
    assert i == YOf(g, i) * g.stride + o;
    MulBounds(o, g.bpp, r.x1, r.x2);
    RectIsPositive(g, r);
  }

  lemma BlitLine(g: Geometry, m: Mem, r: Rect, c: Mem, j: int)
    requires Fits(g, m) && OnScreen(g, r) && |c| == Size(g, r) && 0 <= j <= r.y2 - r.y1
    ensures 0 <= j * RowLen(g, r) && j * RowLen(g, r) + RowLen(g, r) <= |c|
    ensures 0 <= LineStart(g, r, j) && 0 < RowLen(g, r) && LineStart(g, r, j) + RowLen(g, r) <= |m|
    ensures BlitLines(g, m, r, c, j + 1)
      == BlitLines(g, m, r, c, j)[..LineStart(g, r, j)]
       + c[j * RowLen(g, r)..j * RowLen(g, r) + RowLen(g, r)]
       + BlitLines(g, m, r, c, j)[LineStart(g, r, j) + RowLen(g, r)..]
  {
    LineInMemory(g, r, j);
    RectIsPositive(g, r);
    var n, at, len := j * RowLen(g, r), LineStart(g, r, j), RowLen(g, r);
    var before := BlitLines(g, m, r, c, j);
    var after := before[..at] + c[n..n + len] + before[at + len..];
    forall i | 0 <= i < |m|
      ensures BlitLines(g, m, r, c, j + 1)[i] == after[i]
    {
      if at <= i < at + len {
        LineIsCovered(g, r, j, i - at);
      } else if Covers(g, r, i) {
        CoveredIsInLine(g, r, i);
      }
    }
  }

  // A line that has not been written yet.
  lemma LineUntouched(g: Geometry, m: Mem, r: Rect, c: Mem, j: int)
    requires Fits(g, m) && OnScreen(g, r) && |c| == Size(g, r) && 0 <= j <= r.y2 - r.y1
    ensures 0 <= LineStart(g, r, j) && 0 < RowLen(g, r) && LineStart(g, r, j) + RowLen(g, r) <= |m|
    ensures BlitLines(g, m, r, c, j)[LineStart(g, r, j)..LineStart(g, r, j) + RowLen(g, r)]
      == m[LineStart(g, r, j)..LineStart(g, r, j) + RowLen(g, r)]
  {
    LineInMemory(g, r, j);
    RectIsPositive(g, r);
    var at := LineStart(g, r, j);
    forall i | at <= i < at + RowLen(g, r)
      ensures BlitLines(g, m, r, c, j)[i] == m[i]
    {
      LineIsCovered(g, r, j, i - at);
    }
  }

  // ---------------------------------------------------------------- the laws

  lemma GrabAt(g: Geometry, m: Mem, r: Rect, i: nat)
    requires Fits(g, m) && OnScreen(g, r) && i < |m| && Covers(g, r, i)
    ensures 0 <= Pos(g, r, i) < Size(g, r)
    ensures Grab(g, m, r)[Pos(g, r, i)] == m[i]
  {
    PosInRect(g, r, i);
  }

  // Two saved rectangles are equal when the memories agree wherever the rectangle covers them.
  lemma GrabEqual(g: Geometry, m: Mem, m': Mem, r: Rect)
    requires Fits(g, m) && Fits(g, m') && OnScreen(g, r) && |m| == |m'|
    requires forall i :: 0 <= i < |m| && Covers(g, r, i) ==> m[i] == m'[i]
    ensures Grab(g, m, r) == Grab(g, m', r)
  {
    forall k | 0 <= k < Size(g, r)
      ensures Grab(g, m, r)[k] == Grab(g, m', r)[k]
    {
      CellPos(g, r, k);
      CellInMemory(g, m, r, k);
    }
  }

  /** Restoring what was just saved changes nothing. */
  lemma BlitGrab(g: Geometry, m: Mem, r: Rect)
    requires Fits(g, m) && OnScreen(g, r)
    ensures Blit(g, m, r, Grab(g, m, r)) == m
  {
    forall i | 0 <= i < |m| && Covers(g, r, i)
      ensures Blit(g, m, r, Grab(g, m, r))[i] == m[i]
    {
      GrabAt(g, m, r, i);
    }
  }

  /** Saving what was just restored gives it back. */
  lemma GrabBlit(g: Geometry, m: Mem, r: Rect, c: Mem)
    requires Fits(g, m) && OnScreen(g, r) && |c| == Size(g, r)
    ensures Grab(g, Blit(g, m, r, c), r) == c
  {
    forall k | 0 <= k < Size(g, r)
      ensures Grab(g, Blit(g, m, r, c), r)[k] == c[k]
    {
      CellPos(g, r, k);
      CellInMemory(g, m, r, k);
    }
  }

  /** The last one to write a rectangle wins. */
  lemma BlitBlit(g: Geometry, m: Mem, r: Rect, c: Mem, d: Mem)
    requires Fits(g, m) && OnScreen(g, r) && |c| == |d| == Size(g, r)
    ensures Blit(g, Blit(g, m, r, c), r, d) == Blit(g, m, r, d)
  {
  }

  /** Save, then arbitrary changes confined to the rectangle, then restore: every byte is back. */
  lemma SaveChangeRestore(g: Geometry, m: Mem, m': Mem, r: Rect)
    requires Fits(g, m) && OnScreen(g, r) && |m'| == |m|
    requires forall i :: 0 <= i < |m| && !Covers(g, r, i) ==> m'[i] == m[i]
    ensures Blit(g, m', r, Grab(g, m, r)) == m
  {
    forall i | 0 <= i < |m| && Covers(g, r, i)
      ensures Blit(g, m', r, Grab(g, m, r))[i] == m[i]
    {
      GrabAt(g, m, r, i);
    }
  }

  // ---------------------------------------------------------------- pixel by pixel

  predicate HasPixel(r: Rect, x: int, y: int) { r.x1 <= x <= r.x2 && r.y1 <= y <= r.y2 }

  // Where byte `b` of pixel (x, y) is on the screen ...
  function ScreenAt(g: Geometry, x: int, y: int, b: int): int { y * g.stride + x * g.bpp + b }

  // ... and in the picture of a rectangle: line after line, pixel after pixel, nothing in between.
  function PictureAt(bpp: int, r: Rect, x: int, y: int, b: int): int {
    ((y - r.y1) * (r.x2 - r.x1 + 1) + (x - r.x1)) * bpp + b
  }

  lemma ScreenPixel(g: Geometry, x: int, y: int, b: int)
    requires g.Valid() && 0 <= x < g.xres && 0 <= y < g.yres && 0 <= b < g.bpp
    ensures 0 <= ScreenAt(g, x, y, b) < g.stride * g.yres
    ensures ScreenAt(g, x, y, b) % g.stride == x * g.bpp + b
    ensures XOf(g, ScreenAt(g, x, y, b)) == x && YOf(g, ScreenAt(g, x, y, b)) == y
  {
    Lines(x, g.xres, g.bpp);
    Lines(y, g.yres, g.stride);
    DivModUnique(y, x * g.bpp + b, g.stride);
    DivModUnique(x, b, g.bpp);
  }

  lemma PicturePixel(g: Geometry, r: Rect, x: int, y: int, b: int)
    requires g.Valid() && OnScreen(g, r) && HasPixel(r, x, y) && 0 <= b < g.bpp
    ensures 0 <= PictureAt(g.bpp, r, x, y, b) < Size(g, r) && 0 <= ScreenAt(g, x, y, b)
    ensures Covers(g, r, ScreenAt(g, x, y, b))
    ensures Pos(g, r, ScreenAt(g, x, y, b)) == PictureAt(g.bpp, r, x, y, b)
  {
    ScreenPixel(g, x, y, b);
    PosOfPixel(g, r, x, y, b, ScreenAt(g, x, y, b));
  }

  lemma PosOfPixel(g: Geometry, r: Rect, x: int, y: int, b: int, i: nat)
    requires g.Valid() && OnScreen(g, r) && HasPixel(r, x, y)
    requires i % g.stride == x * g.bpp + b && XOf(g, i) == x && YOf(g, i) == y
    ensures 0 <= PictureAt(g.bpp, r, x, y, b) < Size(g, r)
    ensures Pos(g, r, i) == PictureAt(g.bpp, r, x, y, b)
  {
    PosInRect(g, r, i);
    Spread(y - r.y1, r.x2 - r.x1 + 1, x, r.x1, g.bpp);
  }

  lemma Spread(j: int, w: int, x: int, x1: int, n: int)
    ensures (j * w + (x - x1)) * n == j * (w * n) + (x * n - x1 * n)
  {
    assert (j * w + (x - x1)) * n == j * w * n + (x - x1) * n;
  }

  /** A saved rectangle holds the pixels of the screen, line after line. */
  lemma GrabPixel(g: Geometry, m: Mem, r: Rect, x: int, y: int, b: int)
    requires Fits(g, m) && OnScreen(g, r) && HasPixel(r, x, y) && 0 <= b < g.bpp
    ensures 0 <= ScreenAt(g, x, y, b) < |m| && 0 <= PictureAt(g.bpp, r, x, y, b) < Size(g, r)
    ensures Grab(g, m, r)[PictureAt(g.bpp, r, x, y, b)] == m[ScreenAt(g, x, y, b)]
  {
    ScreenPixel(g, x, y, b);
    PicturePixel(g, r, x, y, b);
    GrabAt(g, m, r, ScreenAt(g, x, y, b));
  }

  /** Restoring puts them back to where they were, and changes no other pixel. */
  lemma BlitPixel(g: Geometry, m: Mem, r: Rect, c: Mem, x: int, y: int, b: int)
    requires Fits(g, m) && OnScreen(g, r) && |c| == Size(g, r)
    requires 0 <= x < g.xres && 0 <= y < g.yres && 0 <= b < g.bpp
    ensures 0 <= ScreenAt(g, x, y, b) < |m|
    ensures HasPixel(r, x, y) ==> 0 <= PictureAt(g.bpp, r, x, y, b) < |c|
    ensures Blit(g, m, r, c)[ScreenAt(g, x, y, b)] ==
      if HasPixel(r, x, y) then c[PictureAt(g.bpp, r, x, y, b)] else m[ScreenAt(g, x, y, b)]
  {
    ScreenPixel(g, x, y, b);
    if HasPixel(r, x, y) {
      PicturePixel(g, r, x, y, b);
    }
  }

  /** The bytes of a rectangle are those of its lines, and nothing between two lines or beyond. */
  lemma CoversExactly(g: Geometry, r: Rect, i: nat)
    requires g.Valid() && OnScreen(g, r)
    ensures Covers(g, r, i) <==>
      exists y :: r.y1 <= y <= r.y2 && ScreenAt(g, r.x1, y, 0) <= i < ScreenAt(g, r.x2 + 1, y, 0)
  {
    if Covers(g, r, i) {
      CoveredIsInLine(g, r, i);
      RectIsPositive(g, r);
      var y := YOf(g, i);
      assert ScreenAt(g, r.x1, y, 0) <= i < ScreenAt(g, r.x2 + 1, y, 0);
    }
    if y :| r.y1 <= y <= r.y2 && ScreenAt(g, r.x1, y, 0) <= i < ScreenAt(g, r.x2 + 1, y, 0) {
      RectIsPositive(g, r);
      LineIsCovered(g, r, y - r.y1, i - ScreenAt(g, r.x1, y, 0));
    }
  }
}
