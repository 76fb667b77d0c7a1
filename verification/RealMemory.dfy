/**
 The real-mode memory allocator: a first-fit allocator with splitting and two-sided coalescing
 over a table of at most 256 blocks that lie end to end in an arena of 0x10000 bytes.

 A table is a sequence of blocks; `Live` is what it means to a caller: which addresses hold
 allocations, and how large they are.  The central fact is that a tidy table is determined by its
 live allocations.
 */
module RealMemory {
  import opened Basics

  const REAL_MEM_BASE := 0x10000
  const REAL_MEM_SIZE := 0x10000
  const REAL_MEM_BLOCKS := 0x100

  // The size field of a block is twenty bits wide.
  const SIZE_RANGE := 0x100000

  datatype Block = Block(size: int, free: bool)

  type Table = seq<Block>

  function Stored(size: int): int { if 0 <= size < SIZE_RANGE then size else size % SIZE_RANGE }

  // (size + 15) & ~15
  function Round(size: int): int { size + 15 - (size + 15) % 16 }

  // ---------------------------------------------------------------- the code's steps

  function Offset(t: Table, i: nat): int
    requires i <= |t|
  {
    if i == 0 then 0 else Offset(t, i - 1) + t[i - 1].size
  }

  predicate Suits(b: Block, size: int) { b.free && size < b.size }

  // The first block at or after `i` that suits, or |t|.
  function FirstFit(t: Table, size: int, i: nat): (r: nat)
    requires i <= |t|
    ensures i <= r <= |t|
    ensures r < |t| ==> Suits(t[r], size)
    ensures forall j :: i <= j < r ==> !Suits(t[j], size)
    decreases |t| - i
  {
    if i == |t| || Suits(t[i], size) then i else FirstFit(t, size, i + 1)
  }

  // insert_block and the three assignments after it.
  function Split(t: Table, i: nat, size: int): Table
    requires i < |t|
  {
    t[..i] + [Block(Stored(size), false), t[i].(size := Stored(t[i].size - size))] + t[i + 1..]
  }

  // LRMI_alloc_real
  function Alloc(t: Table, size: int): (Table, Option<int>) {
    if |t| == REAL_MEM_BLOCKS then (t, None) else
    var i := FirstFit(t, Round(size), 0);
    if i == |t| then (t, None) else (Split(t, i, Round(size)), Some(REAL_MEM_BASE + Offset(t, i)))
  }

  // The first block at or after `i` that starts at `r`, or |t|.
  function BlockAt(t: Table, r: int, i: nat): (b: nat)
    requires i <= |t|
    ensures i <= b <= |t|
    ensures b < |t| ==> r == Offset(t, b)
    ensures forall j :: i <= j < b ==> r != Offset(t, j)
    decreases |t| - i
  {
    if i == |t| || r == Offset(t, i) then i else BlockAt(t, r, i + 1)
  }

  // Block `i` swallows the one after it.
  function Merge(t: Table, i: nat): Table
    requires i + 1 < |t|
  {
    t[..i] + [t[i].(size := Stored(t[i].size + t[i + 1].size))] + t[i + 2..]
  }

  // Block `i` swallows the next one if that is free ...
  function MergedNext(t: Table, i: nat): Table {
    if i + 1 < |t| && t[i + 1].free then Merge(t, i) else t
  }

  // ... and the one before swallows it if that is free.
  function MergedBack(t: Table, i: nat): Table
    requires i < |t|
  {
    if i >= 1 && t[i - 1].free then Merge(t, i - 1) else t
  }

  function FreeAt(t: Table, i: nat): Table
    requires i < |t|
  {
    MergedBack(MergedNext(t[i := t[i].(free := true)], i), i)
  }

  // LRMI_free_real
  function Free(t: Table, m: int): Table {
    var i := BlockAt(t, m - REAL_MEM_BASE, 0);
    if i == |t| then t else FreeAt(t, i)
  }

  const INITIAL: Table := [Block(REAL_MEM_SIZE, true)]

  // ---------------------------------------------------------------- the invariant and the meaning

  function Sum(t: Table): int {
    if t == [] then 0 else t[0].size + Sum(t[1..])
  }

  ghost predicate Positive(t: Table) {
    forall i :: 0 <= i < |t| ==> t[i].size > 0
  }

  ghost predicate Aligned(t: Table) {
    forall i :: 0 <= i < |t| ==> t[i].size % 16 == 0
  }

  ghost predicate FreePair(t: Table, k: int)
    requires 0 <= k < |t| - 1
  {
    t[k].free && t[k + 1].free
  }

  // The sizes are positive multiples of 16, and no two free blocks are neighbours.
  ghost predicate Tidy(t: Table) {
    && Positive(t) && Aligned(t)
    && (forall k :: 0 <= k < |t| - 1 ==> !FreePair(t, k))
  }

  ghost predicate Inv(t: Table) {
    && 1 <= |t| <= REAL_MEM_BLOCKS
    && Tidy(t)
    && Sum(t) == REAL_MEM_SIZE
    && t[|t| - 1].free
  }

  // The live allocations of a table whose first block starts at `a`.
  ghost function Live(t: Table, a: int): map<int, int> {
    if t == [] then map[]
    else if t[0].free then Live(t[1..], a + t[0].size)
    else Live(t[1..], a + t[0].size)[a := t[0].size]
  }

  ghost function Heap(t: Table): map<int, int> { Live(t, REAL_MEM_BASE) }

  // ---------------------------------------------------------------- sums and concatenations

  lemma SumConcat(x: Table, y: Table)
    ensures Sum(x + y) == Sum(x) + Sum(y)
  {
    if x == [] {
      assert x + y == y;
    } else {
      assert (x + y)[1..] == x[1..] + y;
    }
  }

  lemma OffsetIsSum(t: Table, i: nat)
    requires i <= |t|
    ensures Offset(t, i) == Sum(t[..i])
  {
    if i > 0 {
      OffsetIsSum(t, i - 1);
      assert t[..i] == t[..i - 1] + [t[i - 1]];
      SumConcat(t[..i - 1], [t[i - 1]]);
    }
  }

  lemma SumPositive(t: Table)
    requires Positive(t)
    ensures Sum(t) >= 0 && (t != [] ==> Sum(t) > 0)
  {
  }

  // A table around block `i`.
  lemma Around(t: Table, i: nat)
    requires i < |t|
    ensures t == t[..i] + [t[i]] + t[i + 1..]
    ensures Sum(t) == Offset(t, i) + t[i].size + Sum(t[i + 1..])
    ensures Offset(t, i) == Sum(t[..i])
  {
    assert t == t[..i] + [t[i]] + t[i + 1..];
    AroundSum(t[..i], t[i], t[i + 1..]);
    OffsetIsSum(t, i);
  }

  lemma AroundSum(x: Table, b: Block, y: Table)
    ensures Sum(x + [b] + y) == Sum(x) + b.size + Sum(y)
  {
    SumParts(x, [b], y);
    LiveOne(b, 0);
  }

  lemma EntryFirst(x: map<int, int>, k: int, v: int, y: map<int, int>)
    requires k !in y
    ensures x[k := v] + y == (x + y)[k := v]
  {
  }

  lemma {:induction false} LiveConcat(x: Table, y: Table, a: int)
    requires Positive(x) && Positive(y)
    ensures Live(x + y, a) == Live(x, a) + Live(y, a + Sum(x))
  {
    if x == [] {
      assert x + y == y;
    } else {
      assert (x + y)[1..] == x[1..] + y;
      LiveConcat(x[1..], y, a + x[0].size);
      LiveBounds(y, a + Sum(x));
      SumPositive(x[1..]);
      EntryFirst(Live(x[1..], a + x[0].size), a, x[0].size, Live(y, a + Sum(x)));
    }
  }

  lemma {:induction false} LiveBounds(t: Table, a: int)
    requires Positive(t)
    ensures forall k :: k in Live(t, a) ==> a <= k && Live(t, a)[k] > 0 && k + Live(t, a)[k] <= a + Sum(t)
  {
    if t != [] {
      LiveBounds(t[1..], a + t[0].size);
      SumPositive(t[1..]);
    }
  }

  lemma TidyTail(t: Table)
    requires Tidy(t) && t != []
    ensures Tidy(t[1..])
  {
    forall k | 0 <= k < |t[1..]| - 1
      ensures !FreePair(t[1..], k)
    {
      assert !FreePair(t, k + 1);
    }
  }

  /** Live allocations lie in the arena, 16-aligned, and do not overlap. */
  lemma {:induction false} LiveDisjoint(t: Table, a: int)
    requires Tidy(t) && a % 16 == 0
    ensures forall k :: k in Live(t, a) ==>
      k % 16 == 0 && Live(t, a)[k] % 16 == 0 && a <= k && k + Live(t, a)[k] <= a + Sum(t)
    ensures forall k, l :: k in Live(t, a) && l in Live(t, a) && k < l ==> k + Live(t, a)[k] <= l
  {
    LiveBounds(t, a);
    if t != [] {
      TidyTail(t);
      LiveDisjoint(t[1..], a + t[0].size);
      LiveBounds(t[1..], a + t[0].size);
    }
  }

  // ---------------------------------------------------------------- the canonical form

  /** A tidy table is determined by its live allocations. */
  lemma {:induction false} Canonical(t: Table, u: Table, a: int)
    requires Tidy(t) && Tidy(u) && Sum(t) == Sum(u) && Live(t, a) == Live(u, a)
    ensures t == u
    decreases |t| + |u|
  {
    SumPositive(t);
    SumPositive(u);
    if t != [] {
      LiveBounds(t[1..], a + t[0].size);
      LiveBounds(u[1..], a + u[0].size);
      if !t[0].free || !u[0].free {
        SameFirstLive(t, u, a);
      } else {
        if t[0].size < u[0].size {
          FreeNotShorter(t, u, a);
        } else if u[0].size < t[0].size {
          FreeNotShorter(u, t, a);
        }
      }
      TidyTail(t);
      TidyTail(u);
      Canonical(t[1..], u[1..], a + t[0].size);
    }
  }

  lemma SameFirstLive(t: Table, u: Table, a: int)
    requires Tidy(t) && Tidy(u) && t != [] && u != [] && Live(t, a) == Live(u, a)
    requires !t[0].free || !u[0].free
    ensures t[0] == u[0]
    ensures Live(t[1..], a + t[0].size) == Live(u[1..], a + u[0].size)
  {
    LiveBounds(t[1..], a + t[0].size);
    LiveBounds(u[1..], a + u[0].size);
    assert a !in Live(t[1..], a + t[0].size) && a !in Live(u[1..], a + u[0].size);
    assert a in Live(t, a) <==> !t[0].free;
    assert Live(t, a)[a] == Live(u, a)[a];
    assert Live(t[1..], a + t[0].size) == Live(t, a) - {a};
    assert Live(u[1..], a + u[0].size) == Live(u, a) - {a};
  }

  // A free block ends where the next live one, or the arena, begins.
  lemma FreeNotShorter(t: Table, u: Table, a: int)
    requires Tidy(t) && Tidy(u) && t != [] && u != [] && Sum(t) == Sum(u) && Live(t, a) == Live(u, a)
    requires t[0].free && u[0].free
    ensures t[0].size >= u[0].size
  {
    if t[0].size < u[0].size {
      SumPositive(u[1..]);
      assert t[1..] != [] && !FreePair(t, 0);
      assert a + t[0].size in Live(t, a);
      LiveBounds(u[1..], a + u[0].size);
      assert false;
    }
  }

  // ---------------------------------------------------------------- what the steps do

  lemma SumTwo(b: Block, c: Block)
    ensures Sum([b]) == b.size && Sum([c]) == c.size
    ensures Sum([b, c]) == b.size + c.size
  {
    assert [b][1..] == [] && [c][1..] == [];
    SumConcat([b], [c]);
    assert [b] + [c] == [b, c];
  }

  lemma LiveOne(b: Block, a: int)
    ensures Sum([b]) == b.size
    ensures Live([b], a) == if b.free then map[] else map[a := b.size]
  {
    assert [b][1..] == [];
  }

  lemma LiveTwo(b: Block, c: Block, a: int)
    requires c.free
    ensures Live([b, c], a) == if b.free then map[] else map[a := b.size]
  {
    assert [b, c][1..] == [c];
    LiveOne(c, a + b.size);
  }

  lemma SumParts(x: Table, p: Table, y: Table)
    ensures Sum(x + p + y) == Sum(x) + Sum(p) + Sum(y)
  {
    SumConcat(x + p, y);
    SumConcat(x, p);
  }

  lemma LiveParts(x: Table, p: Table, y: Table, a: int)
    requires Positive(x) && Positive(p) && Positive(y)
    ensures Live(x + p + y, a) == Live(x, a) + Live(p, a + Sum(x)) + Live(y, a + Sum(x) + Sum(p))
  {
    LiveConcat(x + p, y, a);
    LiveConcat(x, p, a);
    SumConcat(x, p);
  }

  lemma SplitSum(t: Table, i: nat, size: int)
    requires i < |t|
    ensures Sum(Split(t, i, size)) == Sum(t) - t[i].size + Stored(size) + Stored(t[i].size - size)
  {
    PairSum(t, i, Block(Stored(size), false), t[i].(size := Stored(t[i].size - size)));
  }

  // Two blocks in the place of one.
  lemma PairSum(t: Table, i: nat, b: Block, c: Block)
    requires i < |t|
    ensures Sum(t[..i] + [b, c] + t[i + 1..]) == Sum(t) - t[i].size + b.size + c.size
  {
    Around(t, i);
    SumParts(t[..i], [b, c], t[i + 1..]);
    SumTwo(b, c);
  }

  lemma SizeInArena(t: Table, i: nat)
    requires Inv(t) && i < |t|
    ensures 0 < t[i].size <= REAL_MEM_SIZE - Offset(t, i) <= REAL_MEM_SIZE
  {
    Around(t, i);
    SumPositive(t[..i]);
    SumPositive(t[i + 1..]);
  }

  // The remainder of a block of size `s`, as it is stored.
  lemma StoredRest(s: int, size: int)
    requires 0 <= s < SIZE_RANGE
    ensures 0 <= Stored(size) < SIZE_RANGE
    ensures Stored(s - size) == if Stored(size) <= s then s - Stored(size) else s - Stored(size) + SIZE_RANGE
  {
    var x := Stored(size);
    assert x == size % SIZE_RANGE;
    assert size == SIZE_RANGE * (size / SIZE_RANGE) + x;
    ModShift(s - x, size / SIZE_RANGE);
    assert (s - size) % SIZE_RANGE == (s - x) % SIZE_RANGE;
  }

  /** Exactly when splitting a free block for a request keeps the table in order. */
  lemma SplitInv(t: Table, i: nat, size: int)
    requires Inv(t) && |t| < REAL_MEM_BLOCKS && i < |t| && t[i].free && size % 16 == 0
    ensures Inv(Split(t, i, size)) <==> 0 < Stored(size) < t[i].size
  {
    var u := Split(t, i, size);
    SplitSum(t, i, size);
    SizeInArena(t, i);
    StoredRest(t[i].size, size);
    if 0 < Stored(size) < t[i].size {
      SplitTidy(t, i, size);
    } else {
      assert u[i].size == Stored(size) && u[i + 1].size == Stored(t[i].size - size);
    }
  }

  lemma SplitTidy(t: Table, i: nat, size: int)
    requires Tidy(t) && i < |t| && t[i].free && size % 16 == 0
    requires 0 < Stored(size) < t[i].size < SIZE_RANGE && Stored(t[i].size - size) == t[i].size - Stored(size)
    ensures Tidy(Split(t, i, size))
  {
    var u := Split(t, i, size);
    Mod16(size);
    forall j | 0 <= j < |u|
      ensures u[j].size > 0 && u[j].size % 16 == 0
    {
      assert j < i ==> u[j] == t[j];
      assert j > i + 1 ==> u[j] == t[j - 1];
    }
    forall j | 0 <= j < |u| - 1
      ensures !FreePair(u, j)
    {
      assert j + 1 < i ==> FreePair(u, j) == FreePair(t, j);
      assert j > i ==> FreePair(u, j) == FreePair(t, j - 1);
      assert j + 1 == i ==> !FreePair(t, j);
    }
  }

  lemma ModShift(n: int, k: int)
    ensures (n - SIZE_RANGE * k) % SIZE_RANGE == n % SIZE_RANGE
  {
    var q, r := n / SIZE_RANGE, n % SIZE_RANGE;
    assert n - SIZE_RANGE * k == SIZE_RANGE * (q - k) + r;
  }

  lemma Mod16(n: int)
    requires n % 16 == 0
    ensures Stored(n) % 16 == 0
  {
    assert n == SIZE_RANGE * (n / SIZE_RANGE) + n % SIZE_RANGE;
  }

  // One entry in the middle, put in or taken out.
  lemma MiddleEntry(x: map<int, int>, k: int, v: int, y: map<int, int>)
    requires k !in x && k !in y
    ensures x + map[k := v] + y == (x + map[] + y)[k := v]
    ensures (x + map[k := v] + y) - {k} == x + map[] + y
    ensures k !in x + map[] + y
  {
  }

  lemma SplitMiddle(x: Table, d: Block, b: Block, c: Block, y: Table, a: int)
    requires Positive(x) && Positive([d]) && Positive([b, c]) && Positive(y)
    requires d.free && c.free && !b.free && d.size == b.size + c.size
    ensures Live(x + [b, c] + y, a) == Live(x + [d] + y, a)[a + Sum(x) := b.size]
    ensures a + Sum(x) !in Live(x + [d] + y, a)
  {
    LiveParts(x, [d], y, a);
    LiveParts(x, [b, c], y, a);
    SumTwo(b, c);
    LiveOne(d, a + Sum(x));
    LiveTwo(b, c, a + Sum(x));
    LiveBounds(x, a);
    LiveBounds(y, a + Sum(x) + d.size);
    MiddleEntry(Live(x, a), a + Sum(x), b.size, Live(y, a + Sum(x) + d.size));
  }

  lemma SplitLive(t: Table, i: nat, size: int, a: int)
    requires Tidy(t) && i < |t| && t[i].free && 0 < Stored(size) == size < t[i].size < SIZE_RANGE
    ensures Live(Split(t, i, size), a) == Live(t, a)[a + Offset(t, i) := size]
    ensures a + Offset(t, i) !in Live(t, a)
  {
    Around(t, i);
    SplitMiddle(t[..i], t[i], Block(size, false), Block(t[i].size - size, true), t[i + 1..], a);
  }

  // Merging two free neighbours: the other pairs of neighbours stay what they were ...
  lemma MergePairs(t: Table, i: nat)
    requires Positive(t) && Aligned(t) && i + 1 < |t| && t[i].free && t[i + 1].free
    requires t[i].size + t[i + 1].size < SIZE_RANGE
    ensures var u := Merge(t, i);
      && |u| == |t| - 1 && Positive(u) && Aligned(u)
      && (forall j :: 0 <= j < |u| - 1 ==> FreePair(u, j) == FreePair(t, if j < i then j else j + 1))
      && u[|u| - 1].free == t[|t| - 1].free
  {
    var u := Merge(t, i);
    forall j | 0 <= j < |u|
      ensures u[j].free == t[if j <= i then j else j + 1].free
      ensures u[j].size > 0 && u[j].size % 16 == 0
    {
    }
  }

  // ... and so do the sum and the live allocations.
  lemma MergeLive(t: Table, i: nat, a: int)
    requires Positive(t) && Sum(t) < SIZE_RANGE && i + 1 < |t| && t[i].free && t[i + 1].free
    ensures t[i].size + t[i + 1].size < SIZE_RANGE
    ensures Sum(Merge(t, i)) == Sum(t) && Live(Merge(t, i), a) == Live(t, a)
  {
    var x, y := t[..i], t[i + 2..];
    var b := Block(t[i].size + t[i + 1].size, true);
    assert t == x + [t[i], t[i + 1]] + y;
    SumParts(x, [t[i], t[i + 1]], y);
    SumTwo(t[i], t[i + 1]);
    SumPositive(x);
    SumPositive(y);
    assert Merge(t, i) == x + [b] + y;
    SameMiddle(x, [t[i], t[i + 1]], [b], y, a);
  }

  lemma SameMiddle(x: Table, p: Table, q: Table, y: Table, a: int)
    requires Positive(x) && Positive(y)
    requires |p| == 2 && |q| == 1 && p[0].free && p[1].free && q[0].free
    requires p[0].size > 0 && p[1].size > 0 && q[0].size == p[0].size + p[1].size
    ensures Sum(x + q + y) == Sum(x + p + y)
    ensures Live(x + q + y, a) == Live(x + p + y, a)
  {
    assert p == [p[0], p[1]] && q == [q[0]];
    SumParts(x, p, y);
    SumParts(x, q, y);
    LiveParts(x, p, y, a);
    LiveParts(x, q, y, a);
    SumTwo(p[0], p[1]);
    LiveTwo(p[0], p[1], a + Sum(x));
    LiveOne(q[0], a + Sum(x));
  }

  lemma ReleaseLive(x: Table, b: Block, y: Table, a: int)
    requires Positive(x) && Positive(y) && b.size > 0
    ensures Sum(x + [b.(free := true)] + y) == Sum(x + [b] + y)
    ensures Live(x + [b.(free := true)] + y, a) == Live(x + [b] + y, a) - {a + Sum(x)}
  {
    var c := b.(free := true);
    var o := a + Sum(x);
    AroundSum(x, b, y);
    AroundSum(x, c, y);
    LiveAround(x, b, y, a);
    LiveAround(x, c, y, a);
    LiveBounds(x, a);
    LiveBounds(y, o + b.size);
    Released(Live(x, a), o, b, Live(y, o + b.size));
  }

  // The live allocations with one block in the middle.
  lemma LiveAround(x: Table, b: Block, y: Table, a: int)
    requires Positive(x) && Positive(y) && b.size > 0
    ensures Live(x + [b] + y, a) == Live(x, a) + LiveBlock(b, a + Sum(x)) + Live(y, a + Sum(x) + b.size)
  {
    LiveParts(x, [b], y, a);
    LiveOne(b, a + Sum(x));
    assert Sum([b]) == b.size;
  }

  function LiveBlock(b: Block, o: int): map<int, int> { if b.free then map[] else map[o := b.size] }

  lemma Released(x: map<int, int>, o: int, b: Block, y: map<int, int>)
    requires o !in x && o !in y
    ensures x + LiveBlock(b.(free := true), o) + y == x + LiveBlock(b, o) + y - {o}
  {
  }

  // In order but for free neighbours, of which block `i` is one in each pair ...
  ghost predicate LooseAt(t: Table, i: nat) {
    && Positive(t) && Aligned(t) && Sum(t) == REAL_MEM_SIZE && 1 <= |t| <= REAL_MEM_BLOCKS && t[|t| - 1].free
    && i < |t| && t[i].free
    && forall j :: 0 <= j < |t| - 1 && FreePair(t, j) ==> j == i - 1 || j == i
  }

  // ... or the second one.
  ghost predicate LooseBefore(t: Table, i: nat) {
    && Positive(t) && Aligned(t) && Sum(t) == REAL_MEM_SIZE && 1 <= |t| <= REAL_MEM_BLOCKS && t[|t| - 1].free
    && i < |t| && t[i].free
    && forall j :: 0 <= j < |t| - 1 && FreePair(t, j) ==> j == i - 1
  }

  // Block `i` marked free: at most two pairs of free neighbours, both with block `i`.
  lemma Release(t: Table, i: nat, a: int)
    requires Inv(t) && i < |t|
    ensures LooseAt(t[i := t[i].(free := true)], i)
    ensures Live(t[i := t[i].(free := true)], a) == Live(t, a) - {a + Offset(t, i)}
  {
    Around(t, i);
    ReleaseLive(t[..i], t[i], t[i + 1..], a);
    assert t[i := t[i].(free := true)] == t[..i] + [t[i].(free := true)] + t[i + 1..];
    ReleasePairs(t, i);
  }

  lemma ReleasePairs(t: Table, i: nat)
    requires Inv(t) && i < |t|
    requires Sum(t[i := t[i].(free := true)]) == Sum(t)
    ensures LooseAt(t[i := t[i].(free := true)], i)
  {
    var u := t[i := t[i].(free := true)];
    forall j | 0 <= j < |u| - 1 && FreePair(u, j)
      ensures j == i - 1 || j == i
    {
      assert !FreePair(t, j);
    }
  }

  lemma MergeNext(t: Table, i: nat, a: int)
    requires LooseAt(t, i)
    ensures LooseBefore(MergedNext(t, i), i) && Live(MergedNext(t, i), a) == Live(t, a)
  {
    if i + 1 < |t| && t[i + 1].free {
      MergeLive(t, i, a);
      MergePairs(t, i);
    }
  }

  lemma MergeBack(t: Table, i: nat, a: int)
    requires LooseBefore(t, i)
    ensures Inv(MergedBack(t, i)) && Live(MergedBack(t, i), a) == Live(t, a)
  {
    if i >= 1 && t[i - 1].free {
      MergeLive(t, i - 1, a);
      MergedInv(t, i);
    }
  }

  lemma MergedInv(t: Table, i: nat)
    requires LooseBefore(t, i) && i >= 1 && t[i - 1].free && Sum(Merge(t, i - 1)) == Sum(t)
    requires t[i - 1].size + t[i].size < SIZE_RANGE
    ensures Inv(Merge(t, i - 1))
  {
    MergePairs(t, i - 1);
  }

  /** Freeing a block, live or not: the table stays in order and exactly that allocation goes. */
  lemma FreeAtKeeps(t: Table, i: nat, a: int)
    requires Inv(t) && i < |t|
    ensures Inv(FreeAt(t, i))
    ensures Live(FreeAt(t, i), a) == Live(t, a) - {a + Offset(t, i)}
  {
    var t1 := t[i := t[i].(free := true)];
    Release(t, i, a);
    MergeNext(t1, i, a);
    MergeBack(MergedNext(t1, i), i, a);
  }

  // ---------------------------------------------------------------- allocation

  lemma RoundsUp(size: int)
    ensures size <= Round(size) < size + 16 && Round(size) % 16 == 0
    ensures size <= 0 <==> Round(size) <= 0
  {
  }

  lemma FirstFitExists(t: Table, size: int, i: nat)
    requires i < |t| && Suits(t[i], size)
    ensures FirstFit(t, size, 0) <= i
  {
  }

  // `r` is where the first free block larger than `size` starts.
  ghost predicate IsFirstFit(t: Table, size: int, r: int) {
    exists i :: 0 <= i < |t| && t[i].free && size < t[i].size && r == REAL_MEM_BASE + Offset(t, i)
      && (forall j :: 0 <= j < i ==> !(t[j].free && size < t[j].size))
  }

  /**
   Allocation is exact first fit: it succeeds if and only if the table is not full and some free
   block is strictly larger than the rounded request, and then it returns the first such block.
   The heap gains that one allocation; a failure changes nothing.
   */
  lemma AllocFirstFit(t: Table, size: int)
    requires Inv(t) && size > 0
    ensures size <= Round(size) < size + 16 && Round(size) % 16 == 0
    ensures var (u, r) := Alloc(t, size);
      && Inv(u)
      && (r.Some? <==> |t| < REAL_MEM_BLOCKS && exists i :: 0 <= i < |t| && t[i].free && Round(size) < t[i].size)
      && (r.None? ==> u == t)
      && (r.Some? ==>
        && r.value !in Heap(t)
        && Heap(u) == Heap(t)[r.value := Round(size)]
        && IsFirstFit(t, Round(size), r.value))
  {
    var n := Round(size);
    RoundsUp(size);
    var i := FirstFit(t, n, 0);
    if |t| < REAL_MEM_BLOCKS && i < |t| {
      SizeInArena(t, i);
      assert Stored(n) == n;
      SplitInv(t, i, n);
      SplitLive(t, i, n, REAL_MEM_BASE);
      assert IsFirstFit(t, n, REAL_MEM_BASE + Offset(t, i));
    }
  }

  // What is stored of a size is positive, and strictly inside a block of size `room`.
  predicate StoredFits(size: int, room: int) { 0 < Stored(size) < room }

  /**
   For a request that is not positive the code still takes the first free block.  The table stays
   in order exactly when the twenty bits that are stored happen to be a size that fits it.
   */
  lemma AllocNotPositive(t: Table, size: int)
    requires Inv(t) && size <= 0 && |t| < REAL_MEM_BLOCKS
    ensures var i := FirstFit(t, 0, 0);
      && i < |t| && t[i].free && (forall j :: 0 <= j < i ==> !t[j].free)
      && Alloc(t, size).1 == Some(REAL_MEM_BASE + Offset(t, i))
      && (Inv(Alloc(t, size).0) <==> StoredFits(Round(size), t[i].size))
  {
    var n, i := Round(size), FirstFit(t, 0, 0);
    RoundsUp(size);
    RoundedNotPositive(t, size, n, i);
  }

  lemma RoundedNotPositive(t: Table, size: int, n: int, i: nat)
    requires Inv(t) && n <= 0 && n % 16 == 0 && |t| < REAL_MEM_BLOCKS && n == Round(size) && i == FirstFit(t, 0, 0)
    ensures i < |t| && Alloc(t, size).1 == Some(REAL_MEM_BASE + Offset(t, i))
    ensures Inv(Alloc(t, size).0) <==> StoredFits(n, t[i].size)
  {
    SplitNotPositive(t, n);
    AllocIs(t, size, n, i);
  }

  lemma AllocIs(t: Table, size: int, n: int, i: nat)
    requires n == Round(size) && |t| < REAL_MEM_BLOCKS && FirstFit(t, n, 0) == i < |t|
    ensures Alloc(t, size) == (Split(t, i, n), Some(REAL_MEM_BASE + Offset(t, i)))
  {
  }

  lemma SplitNotPositive(t: Table, n: int)
    requires Inv(t) && n <= 0 && n % 16 == 0 && |t| < REAL_MEM_BLOCKS
    ensures FirstFit(t, n, 0) == FirstFit(t, 0, 0) < |t|
    ensures Inv(Split(t, FirstFit(t, 0, 0), n)) <==> StoredFits(n, t[FirstFit(t, 0, 0)].size)
  {
    NotPositiveFits(t, n);
    SplitInv(t, FirstFit(t, 0, 0), n);
  }

  lemma NotPositiveFits(t: Table, n: int)
    requires Inv(t) && n <= 0
    ensures FirstFit(t, n, 0) == FirstFit(t, 0, 0) < |t|
  {
    FirstFitExists(t, n, |t| - 1);
    SameFirstFit(t, n, 0);
  }

  // Block sizes being positive, every request that is not positive fits the first free block.
  lemma SameFirstFit(t: Table, n: int, i: nat)
    requires i <= |t| && n <= 0 && Positive(t)
    ensures FirstFit(t, n, i) == FirstFit(t, 0, i)
    decreases |t| - i
  {
  }

  /** A request for nothing leaves a block of size zero in the table. */
  lemma AllocZeroBreaks()
    ensures Inv(INITIAL) && !Inv(Alloc(INITIAL, 0).0)
    ensures Alloc(INITIAL, 0) == ([Block(0, false), Block(REAL_MEM_SIZE, true)], Some(REAL_MEM_BASE))
  {
    InitialInv();
    assert Round(0) == 0;
    assert FirstFit(INITIAL, 0, 0) == 0;
    assert Split(INITIAL, 0, 0) == [Block(0, false), Block(REAL_MEM_SIZE, true)];
  }

  lemma InitialInv()
    ensures Inv(INITIAL) && Heap(INITIAL) == map[]
  {
    LiveOne(INITIAL[0], REAL_MEM_BASE);
  }

  // ---------------------------------------------------------------- freeing

  // Where the live blocks are.
  lemma {:induction false} LiveIsABlock(t: Table, a: int, m: int) returns (i: nat)
    requires Positive(t) && m in Live(t, a)
    ensures i < |t| && !t[i].free && m == a + Offset(t, i)
  {
    LiveBounds(t[1..], a + t[0].size);
    if m == a {
      i := 0;
    } else {
      var k := LiveIsABlock(t[1..], a + t[0].size, m);
      i := k + 1;
      OffsetIsSum(t, i);
      OffsetIsSum(t[1..], k);
      assert t[..i][1..] == t[1..][..k];
    }
  }

  // What is found at a block's own address is that block.
  lemma OffsetsDiffer(t: Table, i: nat, j: nat)
    requires Positive(t) && i < j <= |t|
    ensures Offset(t, i) < Offset(t, j)
    decreases j
  {
    if i < j - 1 {
      OffsetsDiffer(t, i, j - 1);
    }
  }

  lemma FreeBlockUnchanged(t: Table, i: nat)
    requires Inv(t) && i < |t| && t[i].free
    ensures FreeAt(t, i) == t
  {
    assert t[i := t[i].(free := true)] == t;
    assert i + 1 < |t| ==> !FreePair(t, i);
    assert i >= 1 ==> !FreePair(t, i - 1);
  }

  /**
   free gives back exactly the allocation at the address, and an address where no live allocation
   starts changes nothing at all.
   */
  lemma FreeKeeps(t: Table, m: int)
    requires Inv(t)
    ensures Inv(Free(t, m))
    ensures Heap(Free(t, m)) == Heap(t) - {m}
    ensures m !in Heap(t) ==> Free(t, m) == t
  {
    var i := BlockAt(t, m - REAL_MEM_BASE, 0);
    if i < |t| {
      FreeAtKeeps(t, i, REAL_MEM_BASE);
      if t[i].free {
        FreeBlockUnchanged(t, i);
      } else {
        BlockIsLive(t, i, REAL_MEM_BASE);
      }
    } else if m in Heap(t) {
      var j := LiveIsABlock(t, REAL_MEM_BASE, m);
    }
  }

  lemma BlockIsLive(t: Table, i: nat, a: int)
    requires Positive(t) && i < |t| && !t[i].free
    ensures a + Offset(t, i) in Live(t, a)
  {
    Around(t, i);
    LiveParts(t[..i], [t[i]], t[i + 1..], a);
    LiveOne(t[i], a + Sum(t[..i]));
    LiveBounds(t[i + 1..], a + Sum(t[..i]) + t[i].size);
  }

  lemma FreeTwice(t: Table, m: int, n: int)
    requires Inv(t)
    ensures Inv(Free(Free(t, m), n))
    ensures Heap(Free(Free(t, m), n)) == Heap(t) - {m, n}
  {
    FreeKeeps(t, m);
    FreeKeeps(Free(t, m), n);
    assert Heap(t) - {m} - {n} == Heap(t) - {m, n};
  }

  /** Two frees commute: only the set of live allocations matters. */
  lemma FreeCommutes(t: Table, m: int, n: int)
    requires Inv(t)
    ensures Free(Free(t, m), n) == Free(Free(t, n), m)
  {
    FreeTwice(t, m, n);
    FreeTwice(t, n, m);
    assert {m, n} == {n, m};
    Canonical(Free(Free(t, m), n), Free(Free(t, n), m), REAL_MEM_BASE);
  }

  /** Freeing what was just allocated restores the identical table. */
  lemma FreeUndoesAlloc(t: Table, size: int)
    requires Inv(t) && size > 0 && Alloc(t, size).1.Some?
    ensures Free(Alloc(t, size).0, Alloc(t, size).1.value) == t
  {
    AllocFirstFit(t, size);
    var (u, r) := Alloc(t, size);
    assert Heap(t)[r.value := Round(size)] - {r.value} == Heap(t);
    FreeGives(u, r.value, t);
  }

  lemma FreeGives(u: Table, m: int, t: Table)
    requires Inv(u) && Inv(t) && Heap(u) - {m} == Heap(t)
    ensures Free(u, m) == t
  {
    FreeKeeps(u, m);
    Canonical(Free(u, m), t, REAL_MEM_BASE);
  }

  function FreeEach(t: Table, ms: seq<int>): Table
    decreases |ms|
  {
    if ms == [] then t else FreeEach(Free(t, ms[0]), ms[1..])
  }

  lemma {:induction false} FreeEachKeeps(t: Table, ms: seq<int>)
    requires Inv(t)
    ensures Inv(FreeEach(t, ms)) && Heap(FreeEach(t, ms)) == Heap(t) - (set m | m in ms)
    decreases |ms|
  {
    if ms == [] {
      assert Heap(t) - (set m | m in ms) == Heap(t);
    } else {
      FreeKeeps(t, ms[0]);
      FreeEachKeeps(Free(t, ms[0]), ms[1..]);
      Without(Heap(t), ms);
    }
  }

  lemma Without(h: map<int, int>, ms: seq<int>)
    requires ms != []
    ensures h - {ms[0]} - (set m | m in ms[1..]) == h - (set m | m in ms)
  {
    assert (set m | m in ms) == {ms[0]} + (set m | m in ms[1..]);
  }

  /** Freeing everything, in any order and with whatever else mixed in, gives back the one block. */
  lemma FreeEverything(t: Table, ms: seq<int>)
    requires Inv(t) && forall m :: m in Heap(t) ==> m in ms
    ensures FreeEach(t, ms) == INITIAL
  {
    FreeEachKeeps(t, ms);
    InitialInv();
    forall m | m in Heap(t)
      ensures m in (set k | k in ms)
    {
    }
    assert Heap(FreeEach(t, ms)) == map[];
    Canonical(FreeEach(t, ms), INITIAL, REAL_MEM_BASE);
  }

  // ---------------------------------------------------------------- whole runs

  datatype Call = AllocCall(size: int) | FreeCall(m: int)

  function Step(t: Table, c: Call): Table {
    match c
    case AllocCall(size) => Alloc(t, size).0
    case FreeCall(m) => Free(t, m)
  }

  function Run(t: Table, calls: seq<Call>): Table
    decreases |calls|
  {
    if calls == [] then t else Run(Step(t, calls[0]), calls[1..])
  }

  ghost predicate Proper(calls: seq<Call>) {
    forall c :: c in calls && c.AllocCall? ==> c.size > 0
  }

  /** Over every run of allocations and frees, of whatever addresses, the table stays in order. */
  lemma {:induction false} RunKeeps(t: Table, calls: seq<Call>)
    requires Inv(t) && Proper(calls)
    ensures Inv(Run(t, calls))
    decreases |calls|
  {
    if calls != [] {
      assert calls[0] in calls;
      if calls[0].AllocCall? {
        AllocFirstFit(t, calls[0].size);
      } else {
        FreeKeeps(t, calls[0].m);
      }
      RunKeeps(Step(t, calls[0]), calls[1..]);
    }
  }

  /** Two runs that leave the same allocations leave the same table, whatever happened before. */
  lemma HistoryForgotten(calls: seq<Call>, calls': seq<Call>)
    requires Proper(calls) && Proper(calls')
    requires Heap(Run(INITIAL, calls)) == Heap(Run(INITIAL, calls'))
    ensures Run(INITIAL, calls) == Run(INITIAL, calls')
  {
    InitialInv();
    RunKeeps(INITIAL, calls);
    RunKeeps(INITIAL, calls');
    Canonical(Run(INITIAL, calls), Run(INITIAL, calls'), REAL_MEM_BASE);
  }

  /** After any run: live allocations are 16-aligned, inside the arena, and apart. */
  lemma RunLiveDisjoint(calls: seq<Call>)
    requires Proper(calls)
    ensures var h := Heap(Run(INITIAL, calls));
      && (forall k :: k in h ==> k % 16 == 0 && REAL_MEM_BASE <= k && k + h[k] <= REAL_MEM_BASE + REAL_MEM_SIZE)
      && (forall k, l :: k in h && l in h && k < l ==> k + h[k] <= l)
  {
    InitialInv();
    RunKeeps(INITIAL, calls);
    LiveDisjoint(Run(INITIAL, calls), REAL_MEM_BASE);
  }

  // ---------------------------------------------------------------- the table in place

  // A table with a slot opened at `i`, and two blocks written from there.
  lemma TwoForOne(t: Table, t1: Table, i: nat, b: Block, c: Block)
    requires i < |t| && |t1| == |t| + 1 && t1[..i] == t[..i] && t1[i + 1..] == t[i..]
    ensures t1[i := b][i + 1 := c] == t[..i] + [b, c] + t[i + 1..]
  {
    assert t1[i + 2..] == t1[i + 1..][1..] == t[i + 1..];
    assert t1 == t1[..i] + [t1[i], t1[i + 1]] + t1[i + 2..];
  }

  class MemInfo {
    var ready: bool
    var count: int
    const blocks: array<Block>

    constructor ()
      ensures Valid() && !ready && fresh(blocks)
    {
      ready, count := false, 0;
      blocks := new Block[REAL_MEM_BLOCKS](_ => Block(0, false));
    }

    ghost predicate Valid()
      reads this
    {
      blocks.Length == REAL_MEM_BLOCKS && 0 <= count <= REAL_MEM_BLOCKS && (ready ==> 1 <= count)
    }

    ghost function Contents(): Table
      requires Valid()
      reads this, blocks
    {
      blocks[..count]
    }

    // real_mem_init, once the arena is mapped or the attempt has failed.
    method Init(mapped: bool) returns (ok: bool)
      requires Valid()
      modifies this, blocks
      ensures Valid() && ok == ready == (old(ready) || mapped)
      ensures Contents() == if !old(ready) && mapped then INITIAL else old(Contents())
    {
      if ready {
        return true;
      }
      if !mapped {
        return false;
      }
      ready, count := true, 1;
      blocks[0] := Block(REAL_MEM_SIZE, true);
      return true;
    }

    method InsertBlock(i: nat)
      requires Valid() && i <= count < REAL_MEM_BLOCKS
      modifies `count, blocks
      ensures Valid() && count == old(count) + 1
      ensures Contents()[..i] == old(Contents()[..i]) && Contents()[i + 1..] == old(Contents()[i..])
    {
      forall k | i <= k < count {
        blocks[k + 1] := blocks[k];
      }
      count := count + 1;
    }

    method DeleteBlock(i: nat)
      requires Valid() && i < count && (ready ==> 2 <= count)
      modifies `count, blocks
      ensures Valid() && count == old(count) - 1
      ensures Contents() == old(Contents()[..i] + Contents()[i + 1..])
    {
      count := count - 1;
      forall k | i <= k < count {
        blocks[k] := blocks[k + 1];
      }
    }

    // The chosen block makes room for the request in front of it.
    method Carve(i: nat, size: int)
      requires Valid() && i < count < REAL_MEM_BLOCKS
      modifies `count, blocks
      ensures Valid() && Contents() == Split(old(Contents()), i, size)
    {
      ghost var t := Contents();
      InsertBlock(i);
      ghost var t1 := Contents();
      ghost var b, c := Block(Stored(size), false), t[i].(size := Stored(t[i].size - size));
      assert t1[i + 1] == t[i..][0];
      blocks[i] := Block(Stored(size), false);
      blocks[i + 1] := blocks[i + 1].(size := Stored(blocks[i + 1].size - size));
      assert Contents() == t1[i := b][i + 1 := c];
      TwoForOne(t, t1, i, b, c);
    }

    // Block `i` swallows the one after it.
    method Swallow(i: nat)
      requires Valid() && i + 1 < count
      modifies `count, blocks
      ensures Valid() && Contents() == Merge(old(Contents()), i)
    {
      ghost var t := Contents();
      blocks[i] := blocks[i].(size := Stored(blocks[i].size + blocks[i + 1].size));
      ghost var u := Contents();
      assert u[..i + 1] == t[..i] + [u[i]] && u[i + 2..] == t[i + 2..];
      DeleteBlock(i + 1);
    }

    method AllocReal(size: int) returns (r: Option<int>)
      requires Valid()
      modifies `count, blocks
      ensures Valid()
      ensures !ready ==> r == None && Contents() == old(Contents())
      ensures ready ==> (Contents(), r) == Alloc(old(Contents()), size)
    {
      if !ready || count == REAL_MEM_BLOCKS {
        return None;
      }
      var size := Round(size);
      var m, i := REAL_MEM_BASE, 0;
      ghost var t := Contents();
      while i < count
        invariant 0 <= i <= count && Valid() && Contents() == t
        invariant m == REAL_MEM_BASE + Offset(t, i)
        invariant FirstFit(t, size, 0) == FirstFit(t, size, i)
      {
        if blocks[i].free && size < blocks[i].size {
          Carve(i, size);
          return Some(m);
        }
        m := m + blocks[i].size;
        i := i + 1;
      }
      return None;
    }

    method FreeReal(m: int)
      requires Valid()
      modifies `count, blocks
      ensures Valid()
      ensures Contents() == if ready then Free(old(Contents()), m) else old(Contents())
    {
      if !ready {
        return;
      }
      ghost var t := Contents();
      var r, i := REAL_MEM_BASE, 0;
      while m != r
        invariant 0 <= i < count && Contents() == t
        invariant r == REAL_MEM_BASE + Offset(t, i)
        invariant BlockAt(t, m - REAL_MEM_BASE, 0) == BlockAt(t, m - REAL_MEM_BASE, i)
        decreases count - i
      {
        r := r + blocks[i].size;
        i := i + 1;
        if i == count {
          return;
        }
      }
      Coalesce(i);
    }

    method Coalesce(i: nat)
      requires Valid() && i < count
      modifies `count, blocks
      ensures Valid() && Contents() == FreeAt(old(Contents()), i)
    {
      ghost var t := Contents();
      blocks[i] := blocks[i].(free := true);
      ghost var t1 := t[i := t[i].(free := true)];
      assert Contents() == t1;
      if i + 1 < count && blocks[i + 1].free {
        Swallow(i);
      }
      assert Contents() == MergedNext(t1, i);
      if i - 1 >= 0 && blocks[i - 1].free {
        Swallow(i - 1);
      }
    }
  }
}
