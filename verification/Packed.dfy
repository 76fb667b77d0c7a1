/**
 Filling and inverting rectangles word by word.

 The linear devices write 32-bit words where they can and 16-bit words and bytes for what is left
 of a line; at 24 bits per pixel four pixels go into three words.  Every one of these loops is
 proved to leave exactly what a plain loop over pixels, or over bytes, would leave.
 The machine is little-endian.
 */
module Packed {
  import opened Raster
  import opened FrameBuffers

  // ---------------------------------------------------------------- words

  function B0(v: bv32): Byte { (v & 0xFF) as Byte }
  function B1(v: bv32): Byte { ((v >> 8) & 0xFF) as Byte }
  function B2(v: bv32): Byte { ((v >> 16) & 0xFF) as Byte }
  function B3(v: bv32): Byte { ((v >> 24) & 0xFF) as Byte }

  function Bytes4(v: bv32): Mem { [B0(v), B1(v), B2(v), B3(v)] }

  function Bytes2(v: bv32): Mem { [B0(v), B1(v)] }

  function Word(b0: Byte, b1: Byte, b2: Byte, b3: Byte): bv32 {
    (b0 as bv32) | ((b1 as bv32) << 8) | ((b2 as bv32) << 16) | ((b3 as bv32) << 24)
  }

  function Xor(b: Byte, k: Byte): Byte { b ^ k }

  lemma XorB0(b0: Byte, b1: Byte, b2: Byte, b3: Byte, k: Byte)
    ensures B0(Word(b0, b1, b2, b3) ^ Word(k, k, k, k)) == Xor(b0, k)
  {
  }

  lemma XorB1(b0: Byte, b1: Byte, b2: Byte, b3: Byte, k: Byte)
    ensures B1(Word(b0, b1, b2, b3) ^ Word(k, k, k, k)) == Xor(b1, k)
  {
  }

  lemma XorB2(b0: Byte, b1: Byte, b2: Byte, b3: Byte, k: Byte)
    ensures B2(Word(b0, b1, b2, b3) ^ Word(k, k, k, k)) == Xor(b2, k)
  {
  }

  lemma XorB3(b0: Byte, b1: Byte, b2: Byte, b3: Byte, k: Byte)
    ensures B3(Word(b0, b1, b2, b3) ^ Word(k, k, k, k)) == Xor(b3, k)
  {
  }

  /** A word exclusive-ored with four copies of a byte: each byte is. */
  lemma XorWord(b0: Byte, b1: Byte, b2: Byte, b3: Byte, k: Byte)
    ensures Bytes4(Word(b0, b1, b2, b3) ^ Word(k, k, k, k)) == [Xor(b0, k), Xor(b1, k), Xor(b2, k), Xor(b3, k)]
  {
    XorB0(b0, b1, b2, b3, k);
    XorB1(b0, b1, b2, b3, k);
    XorB2(b0, b1, b2, b3, k);
    XorB3(b0, b1, b2, b3, k);
  }

  lemma XorHalf(b0: Byte, b1: Byte, z: Byte, k: Byte)
    ensures Bytes2(Word(b0, b1, z, z) ^ Word(k, k, k, k)) == [Xor(b0, k), Xor(b1, k)]
  {
    XorB0(b0, b1, z, z, k);
    XorB1(b0, b1, z, z, k);
  }

  // The colours of a 24-bit device leave the top byte of the word empty.
  ghost predicate Colour24(v: bv32) { v & 0xFF000000 == 0 }

  // FBLinear24::InitColorMap
  function Cfb24(red: bv16, green: bv16, blue: bv16): bv32 {
    (((red & 0xFF00) as bv32) << 8) | ((green & 0xFF00) as bv32) | ((blue as bv32) >> 8)
  }

  lemma Cfb24IsColour(red: bv16, green: bv16, blue: bv16)
    ensures Colour24(Cfb24(red, green, blue))
    ensures Pixel24(Cfb24(red, green, blue))
      == [((blue >> 8) & 0xFF) as Byte, ((green >> 8) & 0xFF) as Byte, ((red >> 8) & 0xFF) as Byte]
  {
  }

  function Pixel24(v: bv32): Mem { [B0(v), B1(v), B2(v)] }

  /** convert4to3: four 24-bit pixels in three words. */
  lemma FourInThree(d1: bv32, d2: bv32, d3: bv32, d4: bv32)
    requires Colour24(d1) && Colour24(d2) && Colour24(d3) && Colour24(d4)
    ensures Bytes4(d1 | (d2 << 24)) == [B0(d1), B1(d1), B2(d1), B0(d2)]
    ensures Bytes4((d2 >> 8) | (d3 << 16)) == [B1(d2), B2(d2), B0(d3), B1(d3)]
    ensures Bytes4((d3 >> 16) | (d4 << 8)) == [B2(d3), B0(d4), B1(d4), B2(d4)]
  {
    var o1, o2, o3 := d1 | (d2 << 24), (d2 >> 8) | (d3 << 16), (d3 >> 16) | (d4 << 8);
    assert B0(o1) == B0(d1) && B1(o1) == B1(d1) && B2(o1) == B2(d1) && B3(o1) == B0(d2);
    assert B0(o2) == B1(d2) && B1(o2) == B2(d2) && B2(o2) == B0(d3) && B3(o2) == B1(d3);
    assert B0(o3) == B2(d3) && B1(o3) == B0(d4) && B2(o3) == B1(d4) && B3(o3) == B2(d4);
  }

  /** The two-pixel tail: one word and one half word. */
  lemma TwoInSix(d: bv32)
    requires Colour24(d)
    ensures Bytes4(d | (d << 24)) == [B0(d), B1(d), B2(d), B0(d)]
    ensures Bytes2(d >> 8) == [B1(d), B2(d)]
  {
    var o := d | (d << 24);
    assert B0(o) == B0(d) && B1(o) == B1(d) && B2(o) == B2(d) && B3(o) == B0(d);
  }

  // What FBLinear24::PutPixel writes, byte by byte.
  function PutPixel24(v: bv32): Mem { Bytes2((v << 8) & (v >> 8)) + [B2(v)] }

  /** It masks where it should merge: right exactly for colours without green and blue. */
  lemma PutPixel24Exact(v: bv32)
    ensures PutPixel24(v) == Pixel24(v) <==> B0(v) == 0 && B1(v) == 0
  {
    var w := (v << 8) & (v >> 8);
    assert B0(w) == 0;
    assert B1(w) == B0(v) & B2(v);
    assert PutPixel24(v) == [B0(w), B1(w), B2(v)];
    if PutPixel24(v) == Pixel24(v) {
      assert PutPixel24(v)[0] == Pixel24(v)[0] && PutPixel24(v)[1] == Pixel24(v)[1];
    }
  }

  /** White, entry 15 of the palette, comes out as something else. */
  lemma PutPixel24CanFail()
    ensures var v := Cfb24(0xFFFF, 0xFFFF, 0xFFFF);
      Pixel24(v) == [0xFF, 0xFF, 0xFF] && PutPixel24(v) != Pixel24(v)
  {
    var v := Cfb24(0xFFFF, 0xFFFF, 0xFFFF);
    assert v == 0xFFFFFF;
    PutPixel24Exact(v);
  }

  // ---------------------------------------------------------------- writing in sequence

  // `m'` is `m` with `s` written at `at`.
  ghost predicate Written(m: Mem, m': Mem, at: nat, s: Mem) {
    at + |s| <= |m| && m' == m[..at] + s + m[at + |s|..]
  }

  lemma WrittenThen(m: Mem, m1: Mem, m2: Mem, at: nat, s: Mem, t: Mem)
    requires Written(m, m1, at, s) && Written(m1, m2, at + |s|, t)
    ensures Written(m, m2, at, s + t)
  {
  }

  method WriteL(mem: array<Byte>, at: nat, v: bv32)
    requires at + 4 <= mem.Length
    modifies mem
    ensures Written(old(mem[..]), mem[..], at, Bytes4(v))
  {
    mem[at], mem[at + 1], mem[at + 2], mem[at + 3] := B0(v), B1(v), B2(v), B3(v);
  }

  method WriteW(mem: array<Byte>, at: nat, v: bv32)
    requires at + 2 <= mem.Length
    modifies mem
    ensures Written(old(mem[..]), mem[..], at, Bytes2(v))
  {
    mem[at], mem[at + 1] := B0(v), B1(v);
  }

  method WriteB(mem: array<Byte>, at: nat, v: Byte)
    requires at + 1 <= mem.Length
    modifies mem
    ensures Written(old(mem[..]), mem[..], at, [v])
  {
    mem[at] := v;
  }

  // ---------------------------------------------------------------- repeating a pixel

  // `n` bytes of a pixel repeated.
  function Tile(n: nat, px: Mem): Mem
    requires |px| > 0
  {
    seq(n, k requires 0 <= k => px[k % |px|])
  }

  lemma TileMore(n: nat, px: Mem, w: nat)
    requires |px| > 0 && n == w * |px|
    ensures Tile(n + |px|, px) == Tile(n, px) + px
  {
    forall k | n <= k < n + |px|
      ensures k % |px| == k - n
    {
      DivModUnique(w, k - n, |px|);
    }
  }

  // Any stretch that starts at a pixel boundary looks the same.
  lemma TileSlice(n: nat, px: Mem, from: nat, w: nat, len: nat)
    requires |px| > 0 && from == w * |px| && from + len <= n
    ensures Tile(n, px)[from..from + len] == Tile(len, px)
  {
    forall k | 0 <= k < len
      ensures (from + k) % |px| == k % |px|
    {
      ModSkip(w, k, |px|);
    }
  }

  lemma ModSkip(w: nat, k: nat, d: nat)
    requires d > 0
    ensures (w * d + k) % d == k % d
  {
    assert k == (k / d) * d + k % d;
    assert w * d + k == (w + k / d) * d + k % d;
    DivModUnique(w + k / d, k % d, d);
  }

  // The bytes of a pixel of each depth.
  function PixelBytes(bpp: nat, color: bv32): Mem
    requires 1 <= bpp <= 4
    ensures |PixelBytes(bpp, color)| == bpp
  {
    [B0(color), B1(color), B2(color), B3(color)][..bpp]
  }

  // What InitColorMap leaves in a colour of each depth.
  ghost predicate ColourOf(bpp: nat, v: bv32) {
    (bpp == 2 ==> v & 0xFFFF0000 == 0) && (bpp == 3 ==> Colour24(v))
  }

  lemma Doubled16(v: bv32)
    requires v & 0xFFFF0000 == 0
    ensures Bytes4(v | (v << 16)) == [B0(v), B1(v), B0(v), B1(v)]
  {
    var o := v | (v << 16);
    assert B0(o) == B0(v) && B1(o) == B1(v) && B2(o) == B0(v) && B3(o) == B1(v);
  }

  // One pixel after `w` pixels.
  lemma NextPixel(m: Mem, m1: Mem, m2: Mem, at: nat, px: Mem, w: nat)
    requires |px| > 0 && 0 <= w * |px|
    requires Written(m, m1, at, Tile(w * |px|, px)) && Written(m1, m2, at + w * |px|, px)
    ensures (w + 1) * |px| == w * |px| + |px|
    ensures Written(m, m2, at, Tile((w + 1) * |px|, px))
  {
    TileMore(w * |px|, px, w);
    WrittenThen(m, m1, m2, at, Tile(w * |px|, px), px);
  }

  lemma NextTwo(m: Mem, m1: Mem, m2: Mem, at: nat, px: Mem, w: nat)
    requires |px| > 0 && 0 <= w * |px|
    requires Written(m, m1, at, Tile(w * |px|, px)) && Written(m1, m2, at + w * |px|, px + px)
    ensures (w + 2) * |px| == w * |px| + 2 * |px|
    ensures Written(m, m2, at, Tile((w + 2) * |px|, px))
  {
    var n := w * |px|;
    TileMore(n, px, w);
    TileMore(n + |px|, px, w + 1);
    WrittenThen(m, m1, m2, at, Tile(n, px), px + px);
    assert Tile(n, px) + (px + px) == Tile(n, px) + px + px;
  }

  lemma NextFour(m: Mem, m1: Mem, m2: Mem, at: nat, px: Mem, w: nat)
    requires |px| > 0 && 0 <= w * |px|
    requires Written(m, m1, at, Tile(w * |px|, px)) && Written(m1, m2, at + w * |px|, px + px + px + px)
    ensures (w + 4) * |px| == w * |px| + 4 * |px|
    ensures Written(m, m2, at, Tile((w + 4) * |px|, px))
  {
    var n, k := w * |px|, |px|;
    TileMore(n, px, w);
    TileMore(n + k, px, w + 1);
    TileMore(n + 2 * k, px, w + 2);
    TileMore(n + 3 * k, px, w + 3);
    WrittenThen(m, m1, m2, at, Tile(n, px), px + px + px + px);
    assert Tile(n, px) + (px + px + px + px) == Tile(n, px) + px + px + px + px;
  }

  // ---------------------------------------------------------------- filling a line

  method Store4Pixels(mem: array<Byte>, dest: nat, d: bv32)
    requires Colour24(d) && dest + 12 <= mem.Length
    modifies mem
    ensures Written(old(mem[..]), mem[..], dest, Pixel24(d) + Pixel24(d) + Pixel24(d) + Pixel24(d))
  {
    FourInThree(d, d, d, d);
    ghost var m := mem[..];
    WriteL(mem, dest, d | (d << 24));
    ghost var m1 := mem[..];
    WriteL(mem, dest + 4, (d >> 8) | (d << 16));
    ghost var m2 := mem[..];
    WrittenThen(m, m1, m2, dest, Bytes4(d | (d << 24)), Bytes4((d >> 8) | (d << 16)));
    WriteL(mem, dest + 8, (d >> 16) | (d << 8));
    WrittenThen(m, m2, mem[..], dest,
                Bytes4(d | (d << 24)) + Bytes4((d >> 8) | (d << 16)), Bytes4((d >> 16) | (d << 8)));
    assert Bytes4(d | (d << 24)) + Bytes4((d >> 8) | (d << 16)) + Bytes4((d >> 16) | (d << 8))
      == Pixel24(d) + Pixel24(d) + Pixel24(d) + Pixel24(d);
  }

  // `m'` is `m` with `w` pixels painted from `at` on.
  ghost predicate Filled(m: Mem, m': Mem, at: nat, px: Mem, w: nat)
    requires |px| > 0
  {
    0 <= w * |px| && Written(m, m', at, Tile(w * |px|, px))
  }

  // The 24-bit line: groups of four pixels, then two, then one.
  method FillLine24(mem: array<Byte>, at: nat, width: nat, fgx: bv32)
    requires Colour24(fgx) && at + width * 3 <= mem.Length
    modifies mem
    ensures Filled(old(mem[..]), mem[..], at, Pixel24(fgx), width)
  {
    ghost var m := mem[..];
    var fours, two, one := Quarters(width);
    FillFours24(mem, at, fours, fgx);
    FillTwo24(mem, at, 4 * fours, two, fgx, m);
    FillOne24(mem, at, 4 * fours + two, one, fgx, m);
  }

  method FillFours24(mem: array<Byte>, at: nat, cnt: nat, fgx: bv32)
    requires Colour24(fgx) && at + 12 * cnt <= mem.Length
    modifies mem
    ensures Filled(old(mem[..]), mem[..], at, Pixel24(fgx), 4 * cnt)
  {
    ghost var m, px := mem[..], Pixel24(fgx);
    var dest := at;
    assert Filled(m, mem[..], at, px, 0);
    for i := 0 to cnt
      invariant dest == at + 12 * i && Filled(m, mem[..], at, px, 4 * i)
    {
      ghost var m1 := mem[..];
      Store4Pixels(mem, dest, fgx);
      NextFour(m, m1, mem[..], at, px, 4 * i);
      dest := dest + 12;
    }
  }

  // Two more pixels or none, and one more or none, after the first `w`.
  method FillTwo24(mem: array<Byte>, at: nat, w: nat, two: nat, fgx: bv32, ghost m: Mem)
    requires Colour24(fgx) && two in {0, 2} && at + (w + two) * 3 <= mem.Length
    requires Filled(m, mem[..], at, Pixel24(fgx), w)
    modifies mem
    ensures Filled(m, mem[..], at, Pixel24(fgx), w + two)
  {
    if two != 0 {
      ghost var m1 := mem[..];
      Store2Pixels(mem, at + w * 3, fgx);
      NextTwo(m, m1, mem[..], at, Pixel24(fgx), w);
    }
  }

  method FillOne24(mem: array<Byte>, at: nat, w: nat, one: nat, fgx: bv32, ghost m: Mem)
    requires Colour24(fgx) && one in {0, 1} && at + (w + one) * 3 <= mem.Length
    requires Filled(m, mem[..], at, Pixel24(fgx), w)
    modifies mem
    ensures Filled(m, mem[..], at, Pixel24(fgx), w + one)
  {
    if one != 0 {
      ghost var m1 := mem[..];
      Store1Pixel(mem, at + w * 3, fgx);
      NextPixel(m, m1, mem[..], at, Pixel24(fgx), w);
    }
  }

  // width / 4, width & 2 and width & 1
  method Quarters(width: nat) returns (fours: nat, two: nat, one: nat)
    ensures width == 4 * fours + two + one && two in {0, 2} && one in {0, 1}
  {
    fours, two, one := width / 4, width / 2 % 2 * 2, width % 2;
  }

  method Store1Pixel(mem: array<Byte>, dest: nat, fgx: bv32)
    requires dest + 3 <= mem.Length
    modifies mem
    ensures Written(old(mem[..]), mem[..], dest, Pixel24(fgx))
  {
    ghost var m := mem[..];
    WriteW(mem, dest, fgx);
    ghost var m1 := mem[..];
    WriteB(mem, dest + 2, B2(fgx));
    WrittenThen(m, m1, mem[..], dest, Bytes2(fgx), [B2(fgx)]);
    assert Bytes2(fgx) + [B2(fgx)] == Pixel24(fgx);
  }

  method Store2Pixels(mem: array<Byte>, dest: nat, fgx: bv32)
    requires Colour24(fgx) && dest + 6 <= mem.Length
    modifies mem
    ensures Written(old(mem[..]), mem[..], dest, Pixel24(fgx) + Pixel24(fgx))
  {
    TwoInSix(fgx);
    ghost var m := mem[..];
    WriteL(mem, dest, fgx | (fgx << 24));
    ghost var m1 := mem[..];
    WriteW(mem, dest + 4, fgx >> 8);
    WrittenThen(m, m1, mem[..], dest, Bytes4(fgx | (fgx << 24)), Bytes2(fgx >> 8));
    assert Bytes4(fgx | (fgx << 24)) + Bytes2(fgx >> 8) == Pixel24(fgx) + Pixel24(fgx);
  }

  // The simple form that the source keeps beside it: three bytes per pixel.
  method FillLine24Simple(mem: array<Byte>, at: nat, width: nat, fgx: bv32)
    requires at + width * 3 <= mem.Length
    modifies mem
    ensures Filled(old(mem[..]), mem[..], at, Pixel24(fgx), width)
  {
    ghost var m, px := mem[..], Pixel24(fgx);
    var p := at;
    assert Filled(m, mem[..], at, px, 0);
    for col := 0 to width
      invariant p == at + 3 * col && Filled(m, mem[..], at, px, col)
    {
      ghost var m1 := mem[..];
      Write3(mem, p, B0(fgx), B1(fgx), B2(fgx));
      NextPixel(m, m1, mem[..], at, px, col);
      p := p + 3;
    }
  }

  method Write3(mem: array<Byte>, at: nat, b0: Byte, b1: Byte, b2: Byte)
    requires at + 3 <= mem.Length
    modifies mem
    ensures Written(old(mem[..]), mem[..], at, [b0, b1, b2])
  {
    mem[at], mem[at + 1], mem[at + 2] := b0, b1, b2;
  }

  method FillLine16(mem: array<Byte>, at: nat, width: nat, color: bv32)
    requires ColourOf(2, color) && at + width * 2 <= mem.Length
    modifies mem
    ensures Filled(old(mem[..]), mem[..], at, Bytes2(color), width)
  {
    ghost var m := mem[..];
    var fgx := Doubled(color);
    FillTwos16(mem, at, width / 2, fgx, Bytes2(color));
    if width % 2 == 1 {  // width & 1
      FillOne16(mem, at, width - 1, fgx, m, Bytes2(color));
    }
  }

  // fgx |= fgx << 16
  method Doubled(color: bv32) returns (fgx: bv32)
    requires ColourOf(2, color)
    ensures Bytes4(fgx) == Bytes2(color) + Bytes2(color) && Bytes2(fgx) == Bytes2(color)
  {
    fgx := color | (color << 16);
    Doubled16(color);
    assert Bytes2(fgx) == Bytes4(fgx)[..2];
  }

  // The odd pixel after the first `w`.
  method FillOne16(mem: array<Byte>, at: nat, w: nat, fgx: bv32, ghost m: Mem, ghost px: Mem)
    requires Bytes2(fgx) == px && at + 2 * w + 2 <= mem.Length && Filled(m, mem[..], at, px, w)
    modifies mem
    ensures Filled(m, mem[..], at, px, w + 1)
  {
    ghost var m1 := mem[..];
    WriteW(mem, at + 2 * w, fgx);
    NextPixel(m, m1, mem[..], at, px, w);
  }

  method FillTwos16(mem: array<Byte>, at: nat, cnt: nat, fgx: bv32, ghost px: Mem)
    requires |px| == 2 && Bytes4(fgx) == px + px && at + 4 * cnt <= mem.Length
    modifies mem
    ensures Filled(old(mem[..]), mem[..], at, px, 2 * cnt)
  {
    ghost var m := mem[..];
    var dest := at;
    assert Filled(m, mem[..], at, px, 0);
    for i := 0 to cnt
      invariant dest == at + 4 * i && Filled(m, mem[..], at, px, 2 * i)
    {
      ghost var m1 := mem[..];
      WriteL(mem, dest, fgx);
      NextTwo(m, m1, mem[..], at, px, 2 * i);
      dest := dest + 4;
    }
  }

  method FillLine32(mem: array<Byte>, at: nat, width: nat, fgx: bv32)
    requires at + width * 4 <= mem.Length
    modifies mem
    ensures Filled(old(mem[..]), mem[..], at, Bytes4(fgx), width)
  {
    ghost var m, px := mem[..], Bytes4(fgx);
    var dest := at;
    assert Filled(m, mem[..], at, px, 0);
    for cnt := 0 to width
      invariant dest == at + 4 * cnt && Filled(m, mem[..], at, px, cnt)
    {
      ghost var m1 := mem[..];
      WriteL(mem, dest, fgx);
      NextPixel(m, m1, mem[..], at, px, cnt);
      dest := dest + 4;
    }
  }

  method FillLine8(mem: array<Byte>, at: nat, width: nat, color: bv32)
    requires at + width <= mem.Length
    modifies mem
    ensures Filled(old(mem[..]), mem[..], at, [B0(color)], width)
  {
    forall i | at <= i < at + width {
      mem[i] := B0(color);
    }
    assert Tile(width, [B0(color)]) == mem[at..at + width];
  }

  lemma PixelBytesAre(color: bv32)
    ensures PixelBytes(1, color) == [B0(color)] && PixelBytes(2, color) == Bytes2(color)
    ensures PixelBytes(3, color) == Pixel24(color) && PixelBytes(4, color) == Bytes4(color)
  {
  }

  // ---------------------------------------------------------------- filling a rectangle

  method FillLine(fb: FrameBuffer, at: nat, width: nat, color: bv32)
    requires 1 <= fb.g.bpp <= 4 && ColourOf(fb.g.bpp, color) && at + width * fb.g.bpp <= fb.mem.Length
    modifies fb.mem
    ensures Filled(old(fb.mem[..]), fb.mem[..], at, PixelBytes(fb.g.bpp, color), width)
  {
    PixelBytesAre(color);
    match fb.g.bpp {
      case 1 => FillLine8(fb.mem, at, width, color);
      case 2 => FillLine16(fb.mem, at, width, color);
      case 3 => FillLine24(fb.mem, at, width, color);
      case _ => FillLine32(fb.mem, at, width, color);
    }
  }

  // The picture of a rectangle filled with one pixel.
  function Flat(g: Geometry, r: Rect, px: Mem): (c: Mem)
    requires g.Valid() && OnScreen(g, r) && |px| > 0
    ensures |c| == Size(g, r)
  {
    RectIsPositive(g, r);
    Tile(Size(g, r), px)
  }

  lemma FlatSlice(g: Geometry, r: Rect, px: Mem, j: int)
    requires g.Valid() && OnScreen(g, r) && |px| == g.bpp && 0 <= j <= r.y2 - r.y1
    ensures 0 <= j * RowLen(g, r) && j * RowLen(g, r) + RowLen(g, r) <= Size(g, r) && 0 < RowLen(g, r)
    ensures Flat(g, r, px)[j * RowLen(g, r)..j * RowLen(g, r) + RowLen(g, r)] == Tile(RowLen(g, r), px)
  {
    LineInMemory(g, r, j);
    RectIsPositive(g, r);
    var w := r.x2 - r.x1 + 1;
    MulMono(0, j, w);
    Regroup(j, w, g.bpp);
    TileSlice(Size(g, r), px, j * RowLen(g, r), j * w, RowLen(g, r));
  }

  lemma Regroup(j: int, w: int, b: int)
    ensures j * (w * b) == (j * w) * b
  {
  }

  // One filled line more.
  lemma FlatLine(g: Geometry, m: Mem, r: Rect, px: Mem, j: int, m': Mem)
    requires Fits(g, m) && OnScreen(g, r) && |px| == g.bpp && 0 <= j <= r.y2 - r.y1
    requires 0 <= LineStart(g, r, j) && 0 < RowLen(g, r)
    requires Written(BlitLines(g, m, r, Flat(g, r, px), j), m', LineStart(g, r, j), Tile(RowLen(g, r), px))
    ensures m' == BlitLines(g, m, r, Flat(g, r, px), j + 1)
  {
    FlatSlice(g, r, px, j);
    BlitLine(g, m, r, Flat(g, r, px), j);
  }

  /** FillRect at 8, 16, 24 and 32 bits: every pixel of the rectangle, and not a byte more. */
  method FillRect(fb: FrameBuffer, r: Rect, color: bv32)
    requires fb.Valid() && 1 <= fb.g.bpp <= 4 && ColourOf(fb.g.bpp, color) && OnScreen(fb.g, r)
    modifies fb.mem
    ensures fb.mem[..] == Blit(fb.g, old(fb.mem[..]), r, Flat(fb.g, r, PixelBytes(fb.g.bpp, color)))
  {
    var g := fb.g;
    RectIsPositive(g, r);
    ghost var m, px := fb.mem[..], PixelBytes(g.bpp, color);
    var dest := g.stride * r.y1 + r.x1 * g.bpp;
    var height, width := r.y2 - r.y1 + 1, r.x2 - r.x1 + 1;
    assert fb.mem[..] == BlitLines(g, m, r, Flat(g, r, px), 0);
    for j := 0 to height
      invariant dest == LineStart(g, r, j)
      invariant fb.mem[..] == BlitLines(g, m, r, Flat(g, r, px), j)
    {
      LineInMemory(g, r, j);
      FillLine(fb, dest, width, color);
      FlatLine(g, m, r, px, j, fb.mem[..]);
      dest := dest + g.stride;
    }
    assert fb.mem[..] == Blit(g, m, r, Flat(g, r, px));
  }

  // One row of it.
  method FillRow24Simple(fb: FrameBuffer, r: Rect, ghost j: int, dest: nat, width: nat, color: bv32,
                         ghost m: Mem, ghost px: Mem)
    requires fb.Valid() && fb.g.bpp == 3 && OnScreen(fb.g, r) && |m| == fb.mem.Length && px == Pixel24(color)
    requires 0 <= j <= r.y2 - r.y1 && dest == LineStart(fb.g, r, j) && width == r.x2 - r.x1 + 1
    requires fb.mem[..] == BlitLines(fb.g, m, r, Flat(fb.g, r, px), j)
    modifies fb.mem
    ensures fb.mem[..] == BlitLines(fb.g, m, r, Flat(fb.g, r, px), j + 1)
  {
    LineInMemory(fb.g, r, j);
    RectIsPositive(fb.g, r);
    FillLine24Simple(fb.mem, dest, width, color);
    FlatLine(fb.g, m, r, px, j, fb.mem[..]);
  }

  /** The plain loop over pixels leaves the same memory as the packed one. */
  method FillRect24Simple(fb: FrameBuffer, r: Rect, color: bv32)
    requires fb.Valid() && fb.g.bpp == 3 && Colour24(color) && OnScreen(fb.g, r)
    modifies fb.mem
    ensures fb.mem[..] == Blit(fb.g, old(fb.mem[..]), r, Flat(fb.g, r, PixelBytes(fb.g.bpp, color)))
  {
    ghost var px := PixelBytes(fb.g.bpp, color);
    FillRows24Simple(fb, r, color, px);
  }

  method FillRows24Simple(fb: FrameBuffer, r: Rect, color: bv32, ghost px: Mem)
    requires fb.Valid() && fb.g.bpp == 3 && OnScreen(fb.g, r) && px == Pixel24(color)
    modifies fb.mem
    ensures fb.mem[..] == Blit(fb.g, old(fb.mem[..]), r, Flat(fb.g, r, px))
  {
    ghost var m := fb.mem[..];
    var dest := fb.g.stride * r.y1 + r.x1 * fb.g.bpp;
    var height, width := r.y2 - r.y1 + 1, r.x2 - r.x1 + 1;
    assert fb.mem[..] == BlitLines(fb.g, m, r, Flat(fb.g, r, px), 0);
    for j := 0 to height
      invariant dest == LineStart(fb.g, r, j)
      invariant fb.mem[..] == BlitLines(fb.g, m, r, Flat(fb.g, r, px), j)
    {
      LineInMemory(fb.g, r, j);
      FillRow24Simple(fb, r, j, dest, width, color, m, px);
      dest := dest + fb.g.stride;
    }
    assert fb.mem[..] == Blit(fb.g, m, r, Flat(fb.g, r, px));
  }

  // ---------------------------------------------------------------- filling is painting pixels

  function OnePixel(x: int, y: int): Rect { Rect(x, y, x, y) }

  /** PutPixel at 8, 16 and 32 bits writes exactly one pixel. */
  method PutPixel(fb: FrameBuffer, x: int, y: int, color: bv32)
    requires fb.Valid() && fb.g.bpp in {1, 2, 4} && OnScreen(fb.g, OnePixel(x, y))
    modifies fb.mem
    ensures Size(fb.g, OnePixel(x, y)) == fb.g.bpp
    ensures fb.mem[..] == Blit(fb.g, old(fb.mem[..]), OnePixel(x, y), PixelBytes(fb.g.bpp, color))
  {
    var g, r := fb.g, OnePixel(x, y);
    ghost var m, px := fb.mem[..], PixelBytes(g.bpp, color);
    LineInMemory(g, r, 0);
    RectIsPositive(g, r);
    WritePixel(fb.mem, g.stride * y + x * g.bpp, g.bpp, color);
    OneLine(g, m, fb.mem[..], r, px);
  }

  method WritePixel(mem: array<Byte>, at: nat, bpp: nat, color: bv32)
    requires bpp in {1, 2, 4} && at + bpp <= mem.Length
    modifies mem
    ensures Written(old(mem[..]), mem[..], at, PixelBytes(bpp, color))
  {
    PixelBytesAre(color);
    if bpp == 1 {
      WriteB(mem, at, B0(color));
    } else if bpp == 2 {
      WriteW(mem, at, color);
    } else {
      WriteL(mem, at, color);
    }
  }

  // A rectangle of one line.
  lemma OneLine(g: Geometry, m: Mem, m': Mem, r: Rect, c: Mem)
    requires Fits(g, m) && OnScreen(g, r) && r.y1 == r.y2 && |c| == Size(g, r) == RowLen(g, r)
    requires 0 <= LineStart(g, r, 0) && Written(m, m', LineStart(g, r, 0), c)
    ensures m' == Blit(g, m, r, c)
  {
    BlitLine(g, m, r, c, 0);
    assert m == BlitLines(g, m, r, c, 0);
    assert c[0..0 + RowLen(g, r)] == c;
    assert BlitLines(g, m, r, c, 1) == Blit(g, m, r, c);
  }

  // The first `n` pixels of a rectangle painted one by one, line by line.
  function PaintPixels(g: Geometry, m: Mem, r: Rect, px: Mem, n: nat): (m': Mem)
    requires Fits(g, m) && OnScreen(g, r) && |px| == g.bpp
    requires n <= (r.y2 - r.y1 + 1) * (r.x2 - r.x1 + 1)
    ensures |m'| == |m|
  {
    if n == 0 then m else
    var w := r.x2 - r.x1 + 1;
    DivBounds(n - 1, w, 0, r.y2 - r.y1 + 1);
    var p := OnePixel(r.x1 + (n - 1) % w, r.y1 + (n - 1) / w);
    Blit(g, PaintPixels(g, m, r, px, n - 1), p, px)
  }

  function PixelIndex(g: Geometry, r: Rect, i: nat): int
    requires g.Valid()
  {
    (YOf(g, i) - r.y1) * (r.x2 - r.x1 + 1) + (XOf(g, i) - r.x1)
  }

  lemma PixelIndexUnique(g: Geometry, r: Rect, i: nat, k: nat)
    requires g.Valid() && OnScreen(g, r) && Covers(g, r, i)
    ensures 0 <= PixelIndex(g, r, i) < (r.y2 - r.y1 + 1) * (r.x2 - r.x1 + 1)
    ensures PixelIndex(g, r, i) == k <==>
      XOf(g, i) == r.x1 + k % (r.x2 - r.x1 + 1) && YOf(g, i) == r.y1 + k / (r.x2 - r.x1 + 1)
  {
    Lines(YOf(g, i) - r.y1, r.y2 - r.y1 + 1, r.x2 - r.x1 + 1);
    IndexIs(YOf(g, i) - r.y1, XOf(g, i) - r.x1, r.x2 - r.x1 + 1, k);
  }

  lemma IndexIs(q: int, t: int, w: int, k: nat)
    requires 0 <= q && 0 <= t < w
    ensures q * w + t == k <==> t == k % w && q == k / w
  {
    DivModUnique(q, t, w);
    assert k == (k / w) * w + k % w;
  }

  // Which byte of the pixel a byte is, seen from the rectangle ...
  lemma ByteOfPixel(g: Geometry, r: Rect, i: nat)
    requires g.Valid() && OnScreen(g, r) && Covers(g, r, i)
    ensures 0 <= Pos(g, r, i) < Size(g, r)
    ensures Pos(g, r, i) % g.bpp == (i % g.stride) % g.bpp
  {
    PosInRect(g, r, i);
    ByteInLine(YOf(g, i) - r.y1, r.x2 - r.x1 + 1, i % g.stride, r.x1, g.bpp);
  }

  lemma ByteInLine(j: int, w: int, o: nat, x1: int, b: nat)
    requires 0 < b && 0 <= j && 0 <= w && x1 <= o / b
    ensures (j * (w * b) + (o - x1 * b)) % b == o % b
  {
    var lines := j * w + (o / b - x1);
    MulMono(0, j, w);
    assert o == (o / b) * b + o % b;
    assert j * (w * b) + (o - x1 * b) == lines * b + o % b;
    DivModUnique(lines, o % b, b);
  }

  // ... and seen from the pixel.
  lemma ByteInPixel(g: Geometry, i: nat)
    requires g.Valid() && OnScreen(g, OnePixel(XOf(g, i), YOf(g, i)))
    ensures Size(g, OnePixel(XOf(g, i), YOf(g, i))) == g.bpp
    ensures Pos(g, OnePixel(XOf(g, i), YOf(g, i)), i) == (i % g.stride) % g.bpp
  {
    var o := i % g.stride;
    assert o == (o / g.bpp) * g.bpp + o % g.bpp;
  }

  // The byte of a pixel that belongs at index `i`.
  function ByteOf(g: Geometry, px: Mem, i: nat): Byte
    requires g.Valid() && |px| == g.bpp
  {
    px[(i % g.stride) % g.bpp]
  }

  lemma {:induction false} PaintPixelsAt(g: Geometry, m: Mem, r: Rect, px: Mem, n: nat, i: nat)
    requires Fits(g, m) && OnScreen(g, r) && |px| == g.bpp && i < |m|
    requires n <= (r.y2 - r.y1 + 1) * (r.x2 - r.x1 + 1)
    ensures PaintPixels(g, m, r, px, n)[i] ==
      if Covers(g, r, i) && PixelIndex(g, r, i) < n then ByteOf(g, px, i) else m[i]
  {
    if Covers(g, r, i) {
      PixelIndexUnique(g, r, i, 0);
    }
    if n > 0 {
      PaintPixelsAt(g, m, r, px, n - 1, i);
      var w := r.x2 - r.x1 + 1;
      PaintOneAt(g, PaintPixels(g, m, r, px, n - 1), r, px, n - 1, r.x1 + (n - 1) % w, r.y1 + (n - 1) / w, i);
    }
  }

  lemma PixelOnScreen(g: Geometry, r: Rect, k: nat)
    requires g.Valid() && OnScreen(g, r) && k < (r.y2 - r.y1 + 1) * (r.x2 - r.x1 + 1)
    ensures OnScreen(g, OnePixel(r.x1 + k % (r.x2 - r.x1 + 1), r.y1 + k / (r.x2 - r.x1 + 1)))
  {
    DivBounds(k, r.x2 - r.x1 + 1, 0, r.y2 - r.y1 + 1);
  }

  lemma PaintAt(g: Geometry, m: Mem, x: int, y: int, px: Mem, i: nat)
    requires Fits(g, m) && |px| == g.bpp && i < |m| && OnScreen(g, OnePixel(x, y))
    ensures Size(g, OnePixel(x, y)) == |px|
    ensures Blit(g, m, OnePixel(x, y), px)[i] ==
      if XOf(g, i) == x && YOf(g, i) == y then ByteOf(g, px, i) else m[i]
  {
    if XOf(g, i) == x && YOf(g, i) == y {
      ByteInPixel(g, i);
    }
  }

  lemma PaintOneAt(g: Geometry, m: Mem, r: Rect, px: Mem, k: nat, x: int, y: int, i: nat)
    requires Fits(g, m) && OnScreen(g, r) && |px| == g.bpp && i < |m|
    requires k < (r.y2 - r.y1 + 1) * (r.x2 - r.x1 + 1)
    requires x == r.x1 + k % (r.x2 - r.x1 + 1) && y == r.y1 + k / (r.x2 - r.x1 + 1)
    ensures OnScreen(g, OnePixel(x, y)) && Size(g, OnePixel(x, y)) == |px|
    ensures Blit(g, m, OnePixel(x, y), px)[i] ==
      if Covers(g, r, i) && PixelIndex(g, r, i) == k then ByteOf(g, px, i) else m[i]
  {
    PixelOnScreen(g, r, k);
    PaintAt(g, m, x, y, px, i);
    SamePixel(g, r, k, i);
  }

  lemma SamePixel(g: Geometry, r: Rect, k: nat, i: nat)
    requires g.Valid() && OnScreen(g, r) && k < (r.y2 - r.y1 + 1) * (r.x2 - r.x1 + 1)
    ensures XOf(g, i) == r.x1 + k % (r.x2 - r.x1 + 1) && YOf(g, i) == r.y1 + k / (r.x2 - r.x1 + 1) <==>
      Covers(g, r, i) && PixelIndex(g, r, i) == k
  {
    DivBounds(k, r.x2 - r.x1 + 1, 0, r.y2 - r.y1 + 1);
    if Covers(g, r, i) {
      PixelIndexUnique(g, r, i, k);
    }
  }

  /** After a fill, byte `b` of pixel (x, y) is byte `b` of the colour inside the rectangle, lowest first, and
      what it was outside. */
  lemma FilledPixel(g: Geometry, m: Mem, r: Rect, color: bv32, x: int, y: int, b: nat)
    requires Fits(g, m) && OnScreen(g, r) && 1 <= g.bpp <= 4
    requires 0 <= x < g.xres && 0 <= y < g.yres && b < g.bpp
    ensures 0 <= ScreenAt(g, x, y, b) < |m|
    ensures Blit(g, m, r, Flat(g, r, PixelBytes(g.bpp, color)))[ScreenAt(g, x, y, b)] ==
      if HasPixel(r, x, y) then ByteAt(color, b) else m[ScreenAt(g, x, y, b)]
  {
    var px := PixelBytes(g.bpp, color);
    BlitPixel(g, m, r, Flat(g, r, px), x, y, b);
    PixelByte(g.bpp, color, b);
    if HasPixel(r, x, y) {
      FlatPixel(g, r, px, x, y, b);
    }
  }

  lemma FlatPixel(g: Geometry, r: Rect, px: Mem, x: int, y: int, b: nat)
    requires g.Valid() && OnScreen(g, r) && |px| == g.bpp && HasPixel(r, x, y) && b < g.bpp
    ensures 0 <= PictureAt(g.bpp, r, x, y, b) < Size(g, r)
    ensures Flat(g, r, px)[PictureAt(g.bpp, r, x, y, b)] == px[b]
  {
    PicturePixel(g, r, x, y, b);
    Lines(y - r.y1, r.y2 - r.y1 + 1, r.x2 - r.x1 + 1);
    DivModUnique((y - r.y1) * (r.x2 - r.x1 + 1) + (x - r.x1), b, g.bpp);
  }

  lemma PixelByte(bpp: nat, color: bv32, b: nat)
    requires b < bpp <= 4
    ensures PixelBytes(bpp, color)[b] == ByteAt(color, b)
  {
    assert PixelBytes(bpp, color)[b] == [B0(color), B1(color), B2(color), B3(color)][b];
    assert color >> 8 >> 8 == color >> 16 && color >> 16 >> 8 == color >> 24;
    assert ByteAt(color, 0) == B0(color) && ByteAt(color >> 8, 0) == B1(color);
    assert ByteAt(color >> 16, 0) == B2(color) && ByteAt(color >> 24, 0) == B3(color);
    if b == 3 {
      assert ByteAt(color, 3) == ByteAt(color >> 8, 2) == ByteAt(color >> 16, 1);
    }
  }

  // Byte `b` of a colour: what is left of it shifted right by eight bits `b` times.
  function ByteAt(color: bv32, b: nat): Byte
    decreases b
  {
    if b == 0 then (color & 0xFF) as Byte else ByteAt(color >> 8, b - 1)
  }

  /** Filling a rectangle is painting each of its pixels, at every depth. */
  lemma FillIsPixels(g: Geometry, m: Mem, r: Rect, px: Mem)
    requires Fits(g, m) && OnScreen(g, r) && |px| == g.bpp
    ensures Blit(g, m, r, Flat(g, r, px)) ==
      PaintPixels(g, m, r, px, (r.y2 - r.y1 + 1) * (r.x2 - r.x1 + 1))
  {
    var n := (r.y2 - r.y1 + 1) * (r.x2 - r.x1 + 1);
    forall i | 0 <= i < |m|
      ensures Blit(g, m, r, Flat(g, r, px))[i] == PaintPixels(g, m, r, px, n)[i]
    {
      PaintPixelsAt(g, m, r, px, n, i);
      if Covers(g, r, i) {
        PixelIndexUnique(g, r, i, 0);
        ByteOfPixel(g, r, i);
      }
    }
  }

  // ---------------------------------------------------------------- inverting

  function Xored(s: Mem, k: Byte): (r: Mem)
    ensures |r| == |s|
  {
    seq(|s|, i requires 0 <= i < |s| => Xor(s[i], k))
  }

  lemma XoredTwice(s: Mem, k: Byte)
    ensures Xored(Xored(s, k), k) == s
  {
    forall i | 0 <= i < |s|
      ensures Xored(Xored(s, k), k)[i] == s[i]
    {
      XorXor(s[i], k);
    }
  }

  lemma XoredFour(s: Mem, k: Byte)
    requires |s| == 4
    ensures Xored(s, k) == [Xor(s[0], k), Xor(s[1], k), Xor(s[2], k), Xor(s[3], k)]
  {
  }

  lemma XoredTwo(s: Mem, k: Byte)
    requires |s| == 2
    ensures Xored(s, k) == [Xor(s[0], k), Xor(s[1], k)]
  {
  }

  lemma XorXor(b: Byte, k: Byte)
    ensures Xor(Xor(b, k), k) == b
  {
  }

  // `m'` is `m` with `n` bytes from `at` on inverted.
  ghost predicate Flipped(m: Mem, m': Mem, at: nat, n: nat, k: Byte) {
    at + n <= |m| && Written(m, m', at, Xored(m[at..at + n], k))
  }

  lemma FlippedThen(m: Mem, m1: Mem, m2: Mem, at: nat, n: nat, d: nat, k: Byte)
    requires Flipped(m, m1, at, n, k) && Flipped(m1, m2, at + n, d, k)
    ensures Flipped(m, m2, at, n + d, k)
  {
    assert m1[at + n..at + n + d] == m[at + n..at + n + d];
    WrittenThen(m, m1, m2, at, Xored(m[at..at + n], k), Xored(m[at + n..at + n + d], k));
    assert Xored(m[at..at + n + d], k) == Xored(m[at..at + n], k) + Xored(m[at + n..at + n + d], k);
  }

  method XorL(mem: array<Byte>, at: nat, k: Byte)
    requires at + 4 <= mem.Length
    modifies mem
    ensures Flipped(old(mem[..]), mem[..], at, 4, k)
  {
    var v := XorLong(mem[at], mem[at + 1], mem[at + 2], mem[at + 3], k);
    XoredFour(mem[at..at + 4], k);
    WriteL(mem, at, v);
  }

  method XorLong(b0: Byte, b1: Byte, b2: Byte, b3: Byte, k: Byte) returns (v: bv32)
    ensures Bytes4(v) == [Xor(b0, k), Xor(b1, k), Xor(b2, k), Xor(b3, k)]
  {
    v := Word(b0, b1, b2, b3) ^ Word(k, k, k, k);
    XorWord(b0, b1, b2, b3, k);
  }

  method XorShort(b0: Byte, b1: Byte, k: Byte) returns (v: bv32)
    ensures Bytes2(v) == [Xor(b0, k), Xor(b1, k)]
  {
    v := Word(b0, b1, 0, 0) ^ Word(k, k, k, k);
    XorHalf(b0, b1, 0, k);
  }

  method XorW(mem: array<Byte>, at: nat, k: Byte)
    requires at + 2 <= mem.Length
    modifies mem
    ensures Flipped(old(mem[..]), mem[..], at, 2, k)
  {
    var v := XorShort(mem[at], mem[at + 1], k);
    XoredTwo(mem[at..at + 2], k);
    WriteW(mem, at, v);
  }

  method XorB(mem: array<Byte>, at: nat, k: Byte)
    requires at + 1 <= mem.Length
    modifies mem
    ensures Flipped(old(mem[..]), mem[..], at, 1, k)
  {
    assert Xored(mem[at..at + 1], k) == [Xor(mem[at], k)];
    WriteB(mem, at, Xor(mem[at], k));
  }

  // `cnt` words in a row.
  method XorWords(mem: array<Byte>, at: nat, cnt: nat, k: Byte)
    requires at + 4 * cnt <= mem.Length
    modifies mem
    ensures Flipped(old(mem[..]), mem[..], at, 4 * cnt, k)
  {
    ghost var m := mem[..];
    assert Xored(m[at..at], k) == [];
    for i := 0 to cnt
      invariant Flipped(m, mem[..], at, 4 * i, k)
    {
      XorNext(mem, at, 4 * i, k, m);
    }
  }

  method XorNext(mem: array<Byte>, at: nat, n: nat, k: Byte, ghost m: Mem)
    requires Flipped(m, mem[..], at, n, k) && at + n + 4 <= mem.Length
    modifies mem
    ensures Flipped(m, mem[..], at, n + 4, k)
  {
    ghost var m1 := mem[..];
    XorL(mem, at + n, k);
    FlippedThen(m, m1, mem[..], at, n, 4, k);
  }

  // The tails: a half word or none, and a byte or none, after the first `n` bytes.
  method XorHalfIf(mem: array<Byte>, at: nat, n: nat, half: nat, k: Byte, ghost m: Mem)
    requires Flipped(m, mem[..], at, n, k) && half in {0, 2} && at + n + half <= mem.Length
    modifies mem
    ensures Flipped(m, mem[..], at, n + half, k)
  {
    if half != 0 {
      ghost var m1 := mem[..];
      XorW(mem, at + n, k);
      FlippedThen(m, m1, mem[..], at, n, 2, k);
    }
  }

  method XorByteIf(mem: array<Byte>, at: nat, n: nat, one: nat, k: Byte, ghost m: Mem)
    requires Flipped(m, mem[..], at, n, k) && one in {0, 1} && at + n + one <= mem.Length
    modifies mem
    ensures Flipped(m, mem[..], at, n + one, k)
  {
    if one == 1 {
      ghost var m1 := mem[..];
      XorB(mem, at + n, k);
      FlippedThen(m, m1, mem[..], at, n, 1, k);
    }
  }

  method RevLine8(mem: array<Byte>, at: nat, width: nat, k: Byte)
    requires at + width <= mem.Length
    modifies mem
    ensures Flipped(old(mem[..]), mem[..], at, width, k)
  {
    ghost var m := mem[..];
    var fours, two, one := Quarters(width);
    XorWords(mem, at, fours, k);
    XorTail8(mem, at, 4 * fours, two, one, width, k, m);
  }

  method XorTail8(mem: array<Byte>, at: nat, n: nat, two: nat, one: nat, ghost total: nat, k: Byte, ghost m: Mem)
    requires Flipped(m, mem[..], at, n, k) && two in {0, 2} && one in {0, 1}
    requires total == n + two + one && at + total <= mem.Length
    modifies mem
    ensures Flipped(m, mem[..], at, total, k)
  {
    XorHalfIf(mem, at, n, two, k, m);
    XorByteIf(mem, at, n + two, one, k, m);
  }

  method RevLine16(mem: array<Byte>, at: nat, width: nat, k: Byte)
    requires at + width * 2 <= mem.Length
    modifies mem
    ensures Flipped(old(mem[..]), mem[..], at, width * 2, k)
  {
    ghost var m := mem[..];
    var twos, one := width / 2, width % 2;
    XorWords(mem, at, twos, k);
    XorHalfIf(mem, at, 4 * twos, 2 * one, k, m);
    assert width * 2 == 4 * twos + 2 * one;
  }

  // At 24 bits, two pixels are a word and a half word, one pixel is a half word and a byte.
  method RevLine24(mem: array<Byte>, at: nat, width: nat, k: Byte)
    requires at + width * 3 <= mem.Length
    modifies mem
    ensures Flipped(old(mem[..]), mem[..], at, width * 3, k)
  {
    ghost var m := mem[..];
    var fours, two, one := Quarters(width);
    XorWords(mem, at, 3 * fours, k);
    XorTail24(mem, at, 12 * fours, two, one, width * 3, k, m);
  }

  method XorTail24(mem: array<Byte>, at: nat, n: nat, two: nat, one: nat, ghost total: nat, k: Byte, ghost m: Mem)
    requires Flipped(m, mem[..], at, n, k) && two in {0, 2} && one in {0, 1}
    requires total == n + 3 * two + 3 * one && at + total <= mem.Length
    modifies mem
    ensures Flipped(m, mem[..], at, total, k)
  {
    XorTwo24(mem, at, n, two, k, m);
    XorOne24(mem, at, n + 3 * two, one, k, m);
  }

  method XorOne24(mem: array<Byte>, at: nat, n: nat, one: nat, k: Byte, ghost m: Mem)
    requires Flipped(m, mem[..], at, n, k) && one in {0, 1} && at + n + 3 * one <= mem.Length
    modifies mem
    ensures Flipped(m, mem[..], at, n + 3 * one, k)
  {
    XorHalfIf(mem, at, n, 2 * one, k, m);
    XorByteIf(mem, at, n + 2 * one, one, k, m);
  }

  method XorTwo24(mem: array<Byte>, at: nat, n: nat, two: nat, k: Byte, ghost m: Mem)
    requires Flipped(m, mem[..], at, n, k) && two in {0, 2} && at + n + 3 * two <= mem.Length
    modifies mem
    ensures Flipped(m, mem[..], at, n + 3 * two, k)
  {
    if two != 0 {
      ghost var m1 := mem[..];
      XorL(mem, at + n, k);
      FlippedThen(m, m1, mem[..], at, n, 4, k);
      ghost var m2 := mem[..];
      XorW(mem, at + n + 4, k);
      FlippedThen(m, m2, mem[..], at, n + 4, 2, k);
    }
  }

  method RevLine32(mem: array<Byte>, at: nat, width: nat, k: Byte)
    requires at + width * 4 <= mem.Length
    modifies mem
    ensures Flipped(old(mem[..]), mem[..], at, width * 4, k)
  {
    XorWords(mem, at, width, k);
  }

  // The value a device inverts with: only the low nibble at 8 bits.
  function Mask(bpp: nat): Byte { if bpp == 1 then 0x0F else 0xFF }

  method RevLine(fb: FrameBuffer, at: nat, width: nat)
    requires 1 <= fb.g.bpp <= 4 && at + width * fb.g.bpp <= fb.mem.Length
    modifies fb.mem
    ensures Flipped(old(fb.mem[..]), fb.mem[..], at, width * fb.g.bpp, Mask(fb.g.bpp))
  {
    var k := Mask(fb.g.bpp);
    match fb.g.bpp {
      case 1 => assert width * fb.g.bpp == width; RevLine8(fb.mem, at, width, k);
      case 2 => assert width * fb.g.bpp == width * 2; RevLine16(fb.mem, at, width, k);
      case 3 => assert width * fb.g.bpp == width * 3; RevLine24(fb.mem, at, width, k);
      case _ => assert width * fb.g.bpp == width * 4; RevLine32(fb.mem, at, width, k);
    }
  }

  // The inverted picture of a rectangle.
  function Negative(g: Geometry, m: Mem, r: Rect): (c: Mem)
    requires Fits(g, m) && OnScreen(g, r)
    ensures |c| == Size(g, r)
  {
    Xored(Grab(g, m, r), Mask(g.bpp))
  }

  // One inverted line more.
  lemma NegativeLine(g: Geometry, m: Mem, r: Rect, j: int, m': Mem)
    requires Fits(g, m) && OnScreen(g, r) && 0 <= j <= r.y2 - r.y1
    requires 0 <= LineStart(g, r, j) && 0 < RowLen(g, r)
    requires Flipped(BlitLines(g, m, r, Negative(g, m, r), j), m', LineStart(g, r, j), RowLen(g, r), Mask(g.bpp))
    ensures m' == BlitLines(g, m, r, Negative(g, m, r), j + 1)
  {
    var c, k, at, n := Negative(g, m, r), Mask(g.bpp), LineStart(g, r, j), RowLen(g, r);
    LineInMemory(g, r, j);
    LineUntouched(g, m, r, c, j);
    NegativeSlice(g, m, r, j);
    BlitLine(g, m, r, c, j);
  }

  lemma NegativeSlice(g: Geometry, m: Mem, r: Rect, j: int)
    requires Fits(g, m) && OnScreen(g, r) && 0 <= j <= r.y2 - r.y1
    ensures 0 <= j * RowLen(g, r) && j * RowLen(g, r) + RowLen(g, r) <= Size(g, r) && 0 < RowLen(g, r)
    ensures 0 <= LineStart(g, r, j) && LineStart(g, r, j) + RowLen(g, r) <= |m|
    ensures Negative(g, m, r)[j * RowLen(g, r)..j * RowLen(g, r) + RowLen(g, r)]
      == Xored(m[LineStart(g, r, j)..LineStart(g, r, j) + RowLen(g, r)], Mask(g.bpp))
  {
    GrabLine(g, m, r, j);
    var a, n, at := j * RowLen(g, r), RowLen(g, r), LineStart(g, r, j);
    assert Grab(g, m, r)[a..a + n] == Grab(g, m, r)[..a + n][a..] == m[at..at + n];
  }

  /** RevRect at 8, 16, 24 and 32 bits: every byte of the rectangle exclusive-ored, and no other. */
  method RevRect(fb: FrameBuffer, r: Rect)
    requires fb.Valid() && 1 <= fb.g.bpp <= 4 && OnScreen(fb.g, r)
    modifies fb.mem
    ensures fb.mem[..] == Blit(fb.g, old(fb.mem[..]), r, Negative(fb.g, old(fb.mem[..]), r))
  {
    var g := fb.g;
    RectIsPositive(g, r);
    ghost var m := fb.mem[..];
    ghost var c := Negative(g, m, r);
    var dest := g.stride * r.y1 + r.x1 * g.bpp;
    var height, width := r.y2 - r.y1 + 1, r.x2 - r.x1 + 1;
    assert fb.mem[..] == BlitLines(g, m, r, c, 0);
    for j := 0 to height
      invariant dest == LineStart(g, r, j)
      invariant fb.mem[..] == BlitLines(g, m, r, c, j)
    {
      LineInMemory(g, r, j);
      RevLine(fb, dest, width);
      NegativeLine(g, m, r, j, fb.mem[..]);
      dest := dest + g.stride;
    }
    assert fb.mem[..] == Blit(g, m, r, c);
  }

  /** So a byte of the rectangle is complemented, and only its low half at 8 bits; every other byte stays. */
  lemma InvertedByte(g: Geometry, m: Mem, r: Rect, i: nat)
    requires Fits(g, m) && OnScreen(g, r) && i < |m|
    ensures var v := Blit(g, m, r, Negative(g, m, r))[i];
      && (!Covers(g, r, i) ==> v == m[i])
      && (Covers(g, r, i) && g.bpp > 1 ==> v == 0xFF - m[i])
      && (Covers(g, r, i) && g.bpp == 1 ==> v & 0xF0 == m[i] & 0xF0 && v & 0x0F == 0x0F - (m[i] & 0x0F))
  {
    if Covers(g, r, i) {
      GrabAt(g, m, r, i);
      Complement(m[i]);
    }
  }

  lemma Complement(b: Byte)
    ensures Xor(b, 0xFF) == 0xFF - b
    ensures Xor(b, 0x0F) & 0xF0 == b & 0xF0 && Xor(b, 0x0F) & 0x0F == 0x0F - (b & 0x0F)
  {
  }

  /** Inverting twice changes nothing. */
  lemma RevTwice(g: Geometry, m: Mem, r: Rect)
    requires Fits(g, m) && OnScreen(g, r)
    ensures var m1 := Blit(g, m, r, Negative(g, m, r));
      Blit(g, m1, r, Negative(g, m1, r)) == m
  {
    var c := Negative(g, m, r);
    GrabBlit(g, m, r, c);
    XoredTwice(Grab(g, m, r), Mask(g.bpp));
    BlitBlit(g, m, r, c, Grab(g, m, r));
    BlitGrab(g, m, r);
  }
}
