/**
 Bresenham lines.

 `Line` gives the pixels of a line outright: along the longer axis one pixel per step, on the
 shorter axis the nearest integer to the true line, a tie going one way or the other depending on
 the direction of travel.  The drawing loop is proved to paint exactly these; that the line is the
 same in both directions, ends where it should and stays within half a pixel is proved of `Line`.
 */
module Lines {
  import opened Basics

  function Abs(n: int): nat { if n < 0 then -n else n }

  // `k` steps in the direction of `d`.
  function Toward(d: int, k: int): int { if d >= 0 then k else -k }

  // m * k / n rounded to the nearest integer; a tie goes up if `up`.
  function Nearest(n: nat, m: nat, k: nat, up: bool): int {
    if n == 0 then 0 else (2 * m * k + n - if up then 0 else 1) / (2 * n)
  }

  function XMajor(p: Point, q: Point): bool { Abs(q.x - p.x) > Abs(q.y - p.y) }

  function Length(p: Point, q: Point): nat {
    if XMajor(p, q) then Abs(q.x - p.x) else Abs(q.y - p.y)
  }

  // The pixel after `k` steps from `p` to `q`.
  function Pixel(p: Point, q: Point, k: nat): Point {
    var dx, dy := q.x - p.x, q.y - p.y;
    if XMajor(p, q) then
      Point(p.x + Toward(dx, k), p.y + Toward(dy, Nearest(Abs(dx), Abs(dy), k, dx >= 0)))
    else
      Point(p.x + Toward(dx, Nearest(Abs(dy), Abs(dx), k, dy >= 0)), p.y + Toward(dy, k))
  }

  function Line(p: Point, q: Point): (l: seq<Point>)
    ensures |l| == Length(p, q) + 1
  {
    seq(Length(p, q) + 1, k requires 0 <= k => Pixel(p, q, k))
  }

  // ---------------------------------------------------------------- the rounding

  lemma NearestBounds(n: nat, m: nat, k: nat, up: bool)
    requires n > 0
    ensures var j := Nearest(n, m, k, up);
      && 2 * n * j <= 2 * m * k + n - (if up then 0 else 1) < 2 * n * j + 2 * n
  {
    var a := 2 * m * k + n - if up then 0 else 1;
    assert a == 2 * n * (a / (2 * n)) + a % (2 * n);
  }

  lemma NearestIs(n: nat, m: nat, k: nat, up: bool, j: int)
    requires n > 0
    requires 2 * n * j <= 2 * m * k + n - (if up then 0 else 1) < 2 * n * j + 2 * n
    ensures j == Nearest(n, m, k, up)
  {
    NearestBounds(n, m, k, up);
    var i := Nearest(n, m, k, up);
    if i < j { MulLess(n, i, j); }
    if j < i { MulLess(n, j, i); }
  }

  lemma MulLess(n: nat, i: int, j: int)
    requires n > 0 && i < j
    ensures 2 * n * i + 2 * n <= 2 * n * j
  {
    MulStep(2 * n, i, j);
  }

  lemma MulStep(c: nat, i: int, j: int)
    requires i < j
    ensures c * i + c <= c * j
  {
    var e := j - i - 1;
    assert c * j == c * i + c + c * e;
    assert c * e >= 0;
  }

  /** No pixel is further from the true line than half a pixel. */
  lemma NearestError(n: nat, m: nat, k: nat, up: bool)
    requires n > 0
    ensures 2 * Abs(n * Nearest(n, m, k, up) - m * k) <= n
  {
    NearestBounds(n, m, k, up);
    var j := Nearest(n, m, k, up);
    assert 2 * n * j == 2 * (n * j) && 2 * m * k == 2 * (m * k);
  }

  // What the code's variable d holds after k steps forward and j sideways.
  function Decision(n: int, m: int, k: int, j: int): int {
    2 * m * (k + 1) - n - 2 * n * j
  }

  lemma DecisionNext(n: int, m: int, k: int, j: int)
    ensures Decision(n, m, k + 1, j) == Decision(n, m, k, j) + 2 * m
    ensures Decision(n, m, k + 1, j + 1) == Decision(n, m, k, j) - 2 * n + 2 * m
  {
  }

  /** The decision variable: one more step goes sideways exactly when the code says so. */
  lemma NearestNext(n: nat, m: nat, k: nat, up: bool)
    requires n > 0 && m <= n
    ensures var j := Nearest(n, m, k, up);
      var d := Decision(n, m, k, j);
      Nearest(n, m, k + 1, up) == if d > 0 || (d == 0 && up) then j + 1 else j
  {
    NearestBounds(n, m, k, up);
    var j := Nearest(n, m, k, up);
    var d := Decision(n, m, k, j);
    assert 2 * m * (k + 1) == 2 * m * k + 2 * m;
    assert 2 * n * (j + 1) == 2 * n * j + 2 * n;
    NearestIs(n, m, k + 1, up, if d > 0 || (d == 0 && up) then j + 1 else j);
  }

  /** Seen from the other end, with ties broken the other way, it is the same line. */
  lemma NearestMirror(n: nat, m: nat, k: nat, up: bool)
    requires n > 0 && k <= n
    ensures Nearest(n, m, n - k, !up) == m - Nearest(n, m, k, up)
  {
    NearestBounds(n, m, k, up);
    var j := Nearest(n, m, k, up);
    assert 2 * n * (m - j) == 2 * n * m - 2 * n * j;
    assert 2 * m * (n - k) == 2 * n * m - 2 * m * k;
    NearestIs(n, m, n - k, !up, m - j);
  }

  lemma NearestEnds(n: nat, m: nat, up: bool)
    requires m <= n
    ensures Nearest(n, m, 0, up) == 0 && Nearest(n, m, n, up) == m
  {
    if n == 0 {
      return;
    }
    NearestIs(n, m, 0, up, 0);
    assert 2 * m * n == 2 * n * m;
    NearestIs(n, m, n, up, m);
  }

  lemma NearestMonotone(n: nat, m: nat, k: nat, l: nat, up: bool)
    requires n > 0 && k <= l
    ensures Nearest(n, m, k, up) <= Nearest(n, m, l, up)
  {
    NearestBounds(n, m, k, up);
    NearestBounds(n, m, l, up);
    assert 2 * m * l - 2 * m * k == 2 * m * (l - k) >= 0;
    var i, j := Nearest(n, m, k, up), Nearest(n, m, l, up);
    if j < i { MulLess(n, j, i); }
  }

  // ---------------------------------------------------------------- the line

  /** The line starts and ends exactly at its endpoints. */
  lemma LineEnds(p: Point, q: Point)
    ensures Line(p, q)[0] == p && Line(p, q)[Length(p, q)] == q
  {
    var dx, dy := q.x - p.x, q.y - p.y;
    if XMajor(p, q) {
      NearestEnds(Abs(dx), Abs(dy), dx >= 0);
    } else {
      NearestEnds(Abs(dy), Abs(dx), dy >= 0);
    }
  }

  /** Drawing from Q to P visits the pixels of the line from P to Q backwards. */
  lemma LineReversed(p: Point, q: Point, k: nat)
    requires k <= Length(p, q)
    ensures Length(q, p) == Length(p, q)
    ensures Line(q, p)[k] == Line(p, q)[Length(p, q) - k]
  {
    if XMajor(p, q) {
      ReversedX(p, q, k);
    } else {
      ReversedY(p, q, k);
    }
  }

  lemma ReversedX(p: Point, q: Point, k: nat)
    requires XMajor(p, q) && k <= Length(p, q)
    ensures Pixel(q, p, k) == Pixel(p, q, Length(p, q) - k)
  {
    var dx, dy := q.x - p.x, q.y - p.y;
    MirrorAxis(dx, dy, k);
    assert p.x - q.x == -dx && p.y - q.y == -dy;
    Backwards(p.x, q.x, k);
    Backwards(p.y, q.y, Nearest(Abs(dx), Abs(dy), k, -dx >= 0));
  }

  // `k` steps back from the end are the rest of the steps from the start.
  lemma Backwards(a: int, b: int, k: int)
    requires a == b ==> k == 0
    ensures b + Toward(a - b, k) == a + Toward(b - a, Abs(b - a) - k)
  {
  }

  // Along the longer axis `d`, the shorter axis `e` seen from both ends.
  lemma MirrorAxis(d: int, e: int, k: nat)
    requires d != 0 && Abs(e) <= Abs(d) && k <= Abs(d)
    ensures Abs(-d) == Abs(d) && Abs(-e) == Abs(e)
    ensures Nearest(Abs(d), Abs(e), Abs(d) - k, d >= 0) == Abs(e) - Nearest(Abs(d), Abs(e), k, -d >= 0)
    ensures e == 0 ==> Nearest(Abs(d), Abs(e), k, -d >= 0) == 0
  {
    NearestMirror(Abs(d), Abs(e), k, -d >= 0);
    NearestRange(Abs(d), Abs(e), k, -d >= 0);
  }

  lemma ReversedY(p: Point, q: Point, k: nat)
    requires !XMajor(p, q) && k <= Length(p, q)
    ensures Pixel(q, p, k) == Pixel(p, q, Length(p, q) - k)
  {
    var dx, dy := q.x - p.x, q.y - p.y;
    if dy != 0 {
      MirrorAxis(dy, dx, k);
      assert p.x - q.x == -dx && p.y - q.y == -dy;
      Backwards(p.y, q.y, k);
      Backwards(p.x, q.x, Nearest(Abs(dy), Abs(dx), k, -dy >= 0));
    }
  }

  /** So the two lines are the same set of pixels. */
  lemma LineSymmetric(p: Point, q: Point, r: Point)
    ensures r in Line(p, q) <==> r in Line(q, p)
  {
    if r in Line(p, q) {
      OnReverse(p, q, r);
    }
    if r in Line(q, p) {
      OnReverse(q, p, r);
    }
  }

  lemma OnReverse(p: Point, q: Point, r: Point)
    requires r in Line(p, q)
    ensures r in Line(q, p)
  {
    var k :| 0 <= k <= Length(p, q) && Line(p, q)[k] == r;
    LineReversed(q, p, k);
  }

  /** Every pixel lies in the box of the two endpoints. */
  lemma LineInBox(p: Point, q: Point, k: nat)
    requires k <= Length(p, q)
    ensures var r := Line(p, q)[k];
      && Min(p.x, q.x) <= r.x <= Max(p.x, q.x)
      && Min(p.y, q.y) <= r.y <= Max(p.y, q.y)
  {
    var dx, dy := q.x - p.x, q.y - p.y;
    if XMajor(p, q) {
      NearestRange(Abs(dx), Abs(dy), k, dx >= 0);
    } else {
      NearestRange(Abs(dy), Abs(dx), k, dy >= 0);
    }
  }

  lemma NearestRange(n: nat, m: nat, k: nat, up: bool)
    requires m <= n && k <= n
    ensures 0 <= Nearest(n, m, k, up) <= m
  {
    if n == 0 {
      return;
    }
    NearestEnds(n, m, up);
    NearestMonotone(n, m, 0, k, up);
    NearestMonotone(n, m, k, n, up);
  }

  /** Consecutive pixels are different and touch at least at a corner. */
  lemma LineConnected(p: Point, q: Point, k: nat)
    requires k < Length(p, q)
    ensures var r, s := Line(p, q)[k], Line(p, q)[k + 1];
      r != s && Abs(r.x - s.x) <= 1 && Abs(r.y - s.y) <= 1
  {
    var dx, dy := q.x - p.x, q.y - p.y;
    if XMajor(p, q) {
      NearestNext(Abs(dx), Abs(dy), k, dx >= 0);
    } else {
      NearestNext(Abs(dy), Abs(dx), k, dy >= 0);
    }
  }

  /** Every pixel is within half a pixel of the true line, measured along the shorter axis. */
  lemma LineError(p: Point, q: Point, k: nat)
    requires k <= Length(p, q)
    ensures var r := Line(p, q)[k];
      2 * Abs((q.x - p.x) * (r.y - p.y) - (q.y - p.y) * (r.x - p.x)) <= Length(p, q)
  {
    var dx, dy := q.x - p.x, q.y - p.y;
    var r := Line(p, q)[k];
    if XMajor(p, q) {
      NearestError(Abs(dx), Abs(dy), k, dx >= 0);
      Signed(dx, dy, k, Nearest(Abs(dx), Abs(dy), k, dx >= 0));
    } else if dy != 0 {
      NearestError(Abs(dy), Abs(dx), k, dy >= 0);
      Signed(dy, dx, k, Nearest(Abs(dy), Abs(dx), k, dy >= 0));
    }
  }

  lemma Signed(a: int, b: int, k: int, j: int)
    ensures Abs(a * Toward(b, j) - b * Toward(a, k)) == Abs(Abs(a) * j - Abs(b) * k)
  {
    assert a * j == -((-a) * j) && b * k == -((-b) * k);
  }

  // ---------------------------------------------------------------- which pixels these are

  // `j` steps sideways after `k` steps forward on a line of `n` forward and `m` sideways: less than half a
  // pixel off, or exactly half and then on the far side if `far`, on the near one if not.
  ghost predicate OnTrack(n: int, m: int, k: int, j: int, far: bool) {
    if n == 0 then j == 0
    else if far then -n < 2 * (n * j - m * k) <= n
    else -n <= 2 * (n * j - m * k) < n
  }

  // `r` is the pixel after `k` steps from `p` to `q`.  A tie goes sideways when the line goes right, if it
  // is longer than high, or down, if it is not.
  ghost predicate IsPixel(p: Point, q: Point, k: nat, r: Point) {
    var dx, dy := q.x - p.x, q.y - p.y;
    var right, down := if dx >= 0 then r.x - p.x else p.x - r.x, if dy >= 0 then r.y - p.y else p.y - r.y;
    if Abs(dx) > Abs(dy) then right == k && OnTrack(Abs(dx), Abs(dy), k, down, dx > 0)
    else down == k && OnTrack(Abs(dy), Abs(dx), k, right, dy > 0)
  }

  lemma TrackIsNearest(n: nat, m: nat, k: nat, j: int, far: bool)
    ensures OnTrack(n, m, k, j, far) <==> j == Nearest(n, m, k, far)
  {
    if n > 0 {
      NearestBounds(n, m, k, far);
      Doubled(n, m, k, j);
      Doubled(n, m, k, Nearest(n, m, k, far));
      if OnTrack(n, m, k, j, far) {
        NearestIs(n, m, k, far, j);
      }
    }
  }

  lemma Doubled(n: nat, m: nat, k: nat, j: int)
    ensures 2 * n * j - 2 * m * k == 2 * (n * j - m * k)
  {
    assert 2 * n * j == 2 * (n * j) && 2 * m * k == 2 * (m * k);
  }

  lemma PixelExactly(p: Point, q: Point, k: nat, r: Point)
    requires k <= Length(p, q)
    ensures IsPixel(p, q, k, r) <==> r == Pixel(p, q, k)
  {
    var dx, dy := q.x - p.x, q.y - p.y;
    if XMajor(p, q) {
      TrackIsNearest(Abs(dx), Abs(dy), k, if dy >= 0 then r.y - p.y else p.y - r.y, dx >= 0);
    } else {
      TrackIsNearest(Abs(dy), Abs(dx), k, if dx >= 0 then r.x - p.x else p.x - r.x, dy >= 0);
    }
  }

  /** The line is the only list of pixels that takes one step along the longer axis at a time and stays
      within half a pixel of the true line, on the side that the direction says where it is half a pixel. */
  lemma LineExactly(p: Point, q: Point, l: seq<Point>)
    ensures l == Line(p, q) <==>
      |l| == Max(Abs(q.x - p.x), Abs(q.y - p.y)) + 1 && forall k: nat :: k < |l| ==> IsPixel(p, q, k, l[k])
  {
    forall k: nat | k < |l| && k <= Length(p, q)
      ensures IsPixel(p, q, k, l[k]) <==> l[k] == Line(p, q)[k]
    {
      PixelExactly(p, q, k, l[k]);
    }
  }

  // ---------------------------------------------------------------- the device

  class GraphDev {
    const pixels: array2<int>

    constructor (pixels: array2<int>)
      ensures this.pixels == pixels
    {
      this.pixels := pixels;
    }

    predicate OnScreen(p: Point) {
      0 <= p.x < pixels.Length0 && 0 <= p.y < pixels.Length1
    }

    method PutPixel(p: Point, color: int)
      requires OnScreen(p)
      modifies pixels
      ensures forall r: Point :: OnScreen(r) ==> pixels[r.x, r.y] == if r == p then color else old(pixels[r.x, r.y])
    {
      pixels[p.x, p.y] := color;
    }

    method DrawLine(p: Point, q: Point, color: int)
      requires OnScreen(p) && OnScreen(q)
      modifies pixels
      ensures forall r: Point :: OnScreen(r) ==>
        pixels[r.x, r.y] == if r in Line(p, q) then color else old(pixels[r.x, r.y])
    {
      var dx, dy := q.x - p.x, q.y - p.y;
      var ax, ay := 2 * Abs(dx), 2 * Abs(dy);
      LineEnds(p, q);
      var x, y;
      if ax > ay {
        x, y := DrawFlat(p, q, color);
      } else {
        x, y := DrawSteep(p, q, color);
      }
      PutPixel(Point(x, y), color);
      var l := Line(p, q);
      assert l == l[..Length(p, q)] + [q];
    }

    // The x-major loop: everything but the last pixel.
    method DrawFlat(p: Point, q: Point, color: int) returns (x: int, y: int)
      requires OnScreen(p) && OnScreen(q) && XMajor(p, q)
      modifies pixels
      ensures Point(x, y) == Pixel(p, q, Length(p, q))
      ensures forall r: Point :: OnScreen(r) ==>
        pixels[r.x, r.y] == if r in Line(p, q)[..Length(p, q)] then color else old(pixels[r.x, r.y])
    {
      var dx, dy := q.x - p.x, q.y - p.y;
      var ax, ay := 2 * Abs(dx), 2 * Abs(dy);
      var sx, sy := if dx >= 0 then 1 else -1, if dy >= 0 then 1 else -1;
      x, y := p.x, p.y;
      var d := ay - ax / 2;
      ghost var k, j := 0, 0;
      NearestEnds(Abs(dx), Abs(dy), dx >= 0);
      while x != q.x
        invariant 0 <= k <= Length(p, q) && j == Nearest(Abs(dx), Abs(dy), k, dx >= 0)
        invariant x == p.x + Toward(dx, k) && y == p.y + Toward(dy, j)
        invariant d == Decision(Abs(dx), Abs(dy), k, j)
        invariant forall r: Point :: OnScreen(r) ==>
          pixels[r.x, r.y] == if r in Line(p, q)[..k] then color else old(pixels[r.x, r.y])
        decreases Length(p, q) - k
      {
        PaintNext(p, q, k, Point(x, y), color);
        NearestNext(Abs(dx), Abs(dy), k, dx >= 0);
        DecisionNext(Abs(dx), Abs(dy), k, j);
        if d > 0 || (d == 0 && sx == 1) {
          y := y + sy;
          d := d - ax;
          j := j + 1;
        }
        x := x + sx;
        d := d + ay;
        k := k + 1;
      }
      assert k == Length(p, q);
    }

    // The y-major loop.
    method DrawSteep(p: Point, q: Point, color: int) returns (x: int, y: int)
      requires OnScreen(p) && OnScreen(q) && !XMajor(p, q)
      modifies pixels
      ensures Point(x, y) == Pixel(p, q, Length(p, q))
      ensures forall r: Point :: OnScreen(r) ==>
        pixels[r.x, r.y] == if r in Line(p, q)[..Length(p, q)] then color else old(pixels[r.x, r.y])
    {
      var dx, dy := q.x - p.x, q.y - p.y;
      var ax, ay := 2 * Abs(dx), 2 * Abs(dy);
      var sx, sy := if dx >= 0 then 1 else -1, if dy >= 0 then 1 else -1;
      x, y := p.x, p.y;
      var d := ax - ay / 2;
      ghost var k, j := 0, 0;
      NearestEnds(Abs(dy), Abs(dx), dy >= 0);
      while y != q.y
        invariant 0 <= k <= Length(p, q) && j == Nearest(Abs(dy), Abs(dx), k, dy >= 0)
        invariant x == p.x + Toward(dx, j) && y == p.y + Toward(dy, k)
        invariant d == Decision(Abs(dy), Abs(dx), k, j)
        invariant forall r: Point :: OnScreen(r) ==>
          pixels[r.x, r.y] == if r in Line(p, q)[..k] then color else old(pixels[r.x, r.y])
        decreases Length(p, q) - k
      {
        PaintNext(p, q, k, Point(x, y), color);
        NearestNext(Abs(dy), Abs(dx), k, dy >= 0);
        DecisionNext(Abs(dy), Abs(dx), k, j);
        if d > 0 || (d == 0 && sy == 1) {
          x := x + sx;
          d := d - ay;
          j := j + 1;
        }
        y := y + sy;
        d := d + ax;
        k := k + 1;
      }
      assert k == Length(p, q);
    }

    // One more pixel of the line; it is on the screen because its ends are.
    method PaintNext(p: Point, q: Point, ghost k: nat, r: Point, color: int)
      requires OnScreen(p) && OnScreen(q) && k < Length(p, q) && r == Pixel(p, q, k)
      modifies pixels
      ensures forall s: Point :: OnScreen(s) ==>
        pixels[s.x, s.y] == if s == r then color else old(pixels[s.x, s.y])
      ensures Line(p, q)[..k + 1] == Line(p, q)[..k] + [r]
    {
      LineInBox(p, q, k);
      PutPixel(r, color);
    }

    /**
     Four lines: exactly the perimeter of the box.
     */
    method DrawRect(x1: int, y1: int, x2: int, y2: int, color: int)
      requires OnScreen(Point(x1, y1)) && OnScreen(Point(x2, y2))
      modifies pixels
      ensures forall r: Point :: OnScreen(r) ==>
        pixels[r.x, r.y] == if OnPerimeter(x1, y1, x2, y2, r) then color else old(pixels[r.x, r.y])
    {
      DrawLine(Point(x1, y1), Point(x2, y1), color);
      DrawLine(Point(x1, y1), Point(x1, y2), color);
      DrawLine(Point(x1, y2), Point(x2, y2), color);
      DrawLine(Point(x2, y1), Point(x2, y2), color);
      forall r: Point
        ensures OnPerimeter(x1, y1, x2, y2, r) <==>
          (r in Line(Point(x1, y1), Point(x2, y1)) || r in Line(Point(x1, y1), Point(x1, y2))
          || r in Line(Point(x1, y2), Point(x2, y2)) || r in Line(Point(x2, y1), Point(x2, y2)))
      {
        Horizontal(x1, x2, y1, r);
        Horizontal(x1, x2, y2, r);
        Vertical(x1, y1, y2, r);
        Vertical(x2, y1, y2, r);
      }
    }
  }

  predicate OnPerimeter(x1: int, y1: int, x2: int, y2: int, r: Point) {
    && Min(x1, x2) <= r.x <= Max(x1, x2) && Min(y1, y2) <= r.y <= Max(y1, y2)
    && (r.x == x1 || r.x == x2 || r.y == y1 || r.y == y2)
  }

  lemma Horizontal(x1: int, x2: int, y: int, r: Point)
    ensures r in Line(Point(x1, y), Point(x2, y)) <==> r.y == y && Min(x1, x2) <= r.x <= Max(x1, x2)
  {
    var p, q := Point(x1, y), Point(x2, y);
    forall k | 0 <= k <= Length(p, q)
      ensures Line(p, q)[k] == Point(x1 + Toward(x2 - x1, k), y)
    {
      if x1 != x2 { NearestIs(Abs(x2 - x1), 0, k, x2 - x1 >= 0, 0); }
    }
    if r.y == y && Min(x1, x2) <= r.x <= Max(x1, x2) {
      assert Line(p, q)[Abs(r.x - x1)] == r;
    }
  }

  lemma Vertical(x: int, y1: int, y2: int, r: Point)
    ensures r in Line(Point(x, y1), Point(x, y2)) <==> r.x == x && Min(y1, y2) <= r.y <= Max(y1, y2)
  {
    var p, q := Point(x, y1), Point(x, y2);
    forall k | 0 <= k <= Length(p, q)
      ensures Line(p, q)[k] == Point(x, y1 + Toward(y2 - y1, k))
    {
      if y1 != y2 { NearestIs(Abs(y2 - y1), 0, k, y2 - y1 >= 0, 0); }
    }
    if r.x == x && Min(y1, y2) <= r.y <= Max(y1, y2) {
      assert Line(p, q)[Abs(r.y - y1)] == r;
    }
  }
}
