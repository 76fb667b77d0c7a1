/**
 The save and restore loops of the 16 and 32 bit linear framebuffers, proved against the
 rectangle transfers of Raster.  Both devices run the same two loops; one copies `__u16` words
 and the other `__u32` words, so here a word is `bpp` bytes.
 */
module FrameBuffers {
  import opened Raster

  class FrameBuffer {
    const g: Geometry
    const mem: array<Byte>

    constructor (g: Geometry, mem: array<Byte>)
      requires g.Valid() && g.stride * g.yres <= mem.Length
      ensures this.g == g && this.mem == mem && Valid()
    {
      this.g, this.mem := g, mem;
    }

    ghost predicate Valid() {
      g.Valid() && g.stride * g.yres <= mem.Length
    }

    // The inner loop of both operations: `width` words from one place to another.
    method CopyWords(src: array<Byte>, from: nat, dst: array<Byte>, to: nat, width: nat, ghost n: nat)
      requires src != dst && n == width * g.bpp
      requires from + n <= src.Length && to + n <= dst.Length
      modifies dst
      ensures dst[..] == old(dst[..to]) + src[from..from + n] + old(dst[to + n..])
    {
      var o := 0;
      for cnt := 0 to width
        invariant o == cnt * g.bpp <= n
        invariant forall b :: to <= b < to + o ==> dst[b] == src[b - to + from]
        invariant forall b :: 0 <= b < dst.Length && !(to <= b < to + o) ==> dst[b] == old(dst[b])
      {
        Lines(cnt, width, g.bpp);
        CopyWord(src, from + o, dst, to + o, g.bpp);
        o := o + g.bpp;
      }
    }

    static method CopyWord(src: array<Byte>, from: nat, dst: array<Byte>, to: nat, bpp: nat)
      requires src != dst
      requires from + bpp <= src.Length && to + bpp <= dst.Length
      modifies dst
      ensures forall b :: to <= b < to + bpp ==> dst[b] == src[b - to + from]
      ensures forall b :: 0 <= b < dst.Length && !(to <= b < to + bpp) ==> dst[b] == old(dst[b])
    {
      for n := 0 to bpp
        invariant forall b :: to <= b < to + n ==> dst[b] == src[b - to + from]
        invariant forall b :: 0 <= b < dst.Length && !(to <= b < to + n) ==> dst[b] == old(dst[b])
      {
        dst[to + n] := src[from + n];
      }
    }

    method SaveRect(r: Rect) returns (buffer: array<Byte>)
      requires Valid() && OnScreen(g, r)
      ensures fresh(buffer) && buffer[..] == Grab(g, mem[..], r)
    {
      RectIsPositive(g, r);
      var height, width := r.y2 - r.y1 + 1, r.x2 - r.x1 + 1;
      buffer := new Byte[height * (width * g.bpp)];
      var dest, buf := g.stride * r.y1 + r.x1 * g.bpp, 0;
      for j := 0 to height
        invariant dest == LineStart(g, r, j) && buf == j * RowLen(g, r)
        invariant buf <= buffer.Length && buffer[..buf] == Grab(g, mem[..], r)[..buf]
      {
        LineInMemory(g, r, j);
        ghost var done := buffer[..buf];
        CopyWords(mem, dest, buffer, buf, width, RowLen(g, r));
        GrabLine(g, mem[..], r, j);
        assert buffer[..buf + RowLen(g, r)] == done + mem[..][dest..dest + RowLen(g, r)];
        dest, buf := dest + g.stride, buf + width * g.bpp;
      }
    }

    // One row of the restore.
    method RstrRow(buffer: array<Byte>, buf: nat, dest: nat, width: nat, ghost rowLen: nat, ghost c: Mem)
      requires buffer != mem && rowLen == width * g.bpp && dest + rowLen <= mem.Length
      requires buf + rowLen <= |c| <= buffer.Length && c == buffer[..|c|]
      modifies mem
      ensures mem[..] == old(mem[..])[..dest] + c[buf..buf + rowLen] + old(mem[..])[dest + rowLen..]
    {
      ghost var m := mem[..];
      assert m[..dest] == mem[..dest] && m[dest + rowLen..] == mem[dest + rowLen..];
      CopyWords(buffer, buf, mem, dest, width, rowLen);
      assert c[buf..buf + rowLen] == buffer[buf..buf + rowLen];
    }

    method RstrRect(r: Rect, buffer: array<Byte>)
      requires Valid() && OnScreen(g, r)
      requires buffer != mem && buffer.Length >= Size(g, r)
      modifies mem
      ensures mem[..] == BlitHead(g, old(mem[..]), r, buffer[..])
    {
      RectIsPositive(g, r);
      ghost var b, size := buffer[..], Size(g, r);
      assert b[..size] == buffer[..size];
      RstrRows(r, buffer, b[..size]);
      assert buffer[..] == b;
    }

    method RstrRows(r: Rect, buffer: array<Byte>, ghost c: Mem)
      requires Valid() && OnScreen(g, r)
      requires buffer != mem && Size(g, r) == |c| <= buffer.Length && c == buffer[..|c|]
      modifies mem
      ensures mem[..] == Blit(g, old(mem[..]), r, c)
      ensures c == buffer[..|c|]
    {
      var height, width := r.y2 - r.y1 + 1, r.x2 - r.x1 + 1;
      var dest, buf, rowLen := g.stride * r.y1 + r.x1 * g.bpp, 0, width * g.bpp;
      ghost var m := mem[..];
      assert mem[..] == BlitLines(g, m, r, c, 0);
      for j := 0 to height
        invariant dest == LineStart(g, r, j) && buf == j * rowLen
        invariant mem[..] == BlitLines(g, m, r, c, j)
      {
        LineInMemory(g, r, j);
        BlitLine(g, m, r, c, j);
        RstrRow(buffer, buf, dest, width, rowLen, c);
        dest, buf := dest + g.stride, buf + rowLen;
      }
      assert mem[..] == Blit(g, m, r, c);
    }

    // Whatever FillRect, DrawRect or OutChar leave in a rectangle.
    method Paint(r: Rect, ink: Mem)
      requires Valid() && OnScreen(g, r) && |ink| == Size(g, r)
      modifies mem
      ensures mem[..] == Blit(g, old(mem[..]), r, ink)
    {
      ghost var m := mem[..];
      forall i | 0 <= i < mem.Length && Covers(g, r, i)
        ensures 0 <= Pos(g, r, i) < Size(g, r)
      {
        PosInRect(g, r, i);
      }
      forall i | 0 <= i < mem.Length && Covers(g, r, i) {
        mem[i] := ink[Pos(g, r, i)];
      }
      assert mem[..] == Blit(g, m, r, ink);
    }
  }
}
