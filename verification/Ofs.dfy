/**
 The disk layout and the bitmap allocation of asgard/tools/mkofs.c. Sectors are 512 bytes, blocks
 8 sectors, and a sector holds 4 nodes.
 */
module Ofs {
  import opened Arithmetic

  // -------------------------------------------------------------- bitmap sizes

  /** Sectors `bitmaps_size` reserves for `n` bits: the bits of a sector are written without
      parentheses, so the division is by 512 and its result is multiplied by 8. */
  function Sectors(n: nat): nat { n / 512 * 8 + (if n % 512 == 0 then 0 else 1) }

  function BitmapsSize(nodes: nat, blocks: nat): nat { Sectors(nodes) * 512 + Sectors(blocks) * 512 }

  /** The least number of sectors with room for `n` bits. */
  function Needed(n: nat): (k: nat)
    ensures n <= k * 4096 && (k > 0 ==> (k - 1) * 4096 < n)
  {
    (n + 4095) / 4096
  }

  /** The sectors reserved always suffice, and are as few as can be just for less than 512 bits. */
  lemma SectorsSuffice(n: nat)
    ensures n <= Sectors(n) * 4096 && Needed(n) <= Sectors(n)
    ensures Sectors(n) == Needed(n) <==> n < 512
  {
    var q, r := n / 512, n % 512;
    assert n == 512 * q + r;
  }

  /** Every 512 bits more take eight sectors more, and fewer than that take one. */
  lemma SectorsStep(n: nat)
    ensures Sectors(n + 512) == Sectors(n) + 8
    ensures n < 512 ==> Sectors(n) == if n == 0 then 0 else 1
  {
    var q, r := n / 512, n % 512;
    assert n == 512 * q + r && n + 512 == 512 * (q + 1) + r;
    assert (n + 512) / 512 == q + 1 && (n + 512) % 512 == r;
  }

  /** The first count for which they are not: eight sectors for 512 bits, which fit in one. */
  lemma SectorsWasted()
    ensures Sectors(512) == 8 && Needed(512) == 1
  {
  }

  lemma SectorsGrow(n: nat, m: nat)
    requires n <= m
    ensures Sectors(n) <= Sectors(m)
  {
    var q, r := n / 512, n % 512;
    var q', r' := m / 512, m % 512;
    assert n == 512 * q + r && m == 512 * q' + r';
  }

  // ------------------------------------------------------------------- sizing

  /** A partition: reserved sectors for boot, table, metadata and group header, then the group. */
  datatype Layout = Layout(meta: nat, nodes: nat, blocks: nat)
  {
    /** `blocks_bitmap_offset`. */
    function BlocksBitmap(): nat { 3 + meta }
    /** `nodes_bitmap_offset`. */
    function NodesBitmap(): nat { 3 + meta + BitmapsSize(0, blocks) / 512 }
    /** `nodes_table_offset`. */
    function NodesTable(): nat { NodesBitmap() + BitmapsSize(nodes, 0) / 512 }
    /** `blocks_offset`. */
    function Blocks(): nat
    {
      NodesBitmap() + BitmapsSize(nodes, 0) / 512 + nodes / 4 + (if nodes % 4 == 0 then 0 else 1)
    }
    /** The first sector after the blocks. */
    function End(): nat { Blocks() + 8 * blocks }
  }

  /** What is left of the storage, and what each structure takes, add up. */
  ghost predicate Accounted(storage: nat, l: Layout, remaining: int)
  {
    && storage == 512 * (3 + l.meta) + 128 * l.nodes + 4096 * l.blocks + remaining
    && remaining >= BitmapsSize(l.nodes, l.blocks)
  }

  /** All structures together take no more than the storage. */
  ghost predicate Fits(storage: nat, l: Layout)
  {
    512 * (3 + l.meta) + 128 * l.nodes + 4096 * l.blocks + BitmapsSize(l.nodes, l.blocks) <= storage
  }

  /** The second loop stops as soon as a block would leave nothing over. */
  ghost predicate Full(l: Layout, remaining: int) { remaining <= 4096 + BitmapsSize(l.nodes, l.blocks + 1) }

  /** With the second loop done, more blocks fit just when exactly one does, and fills the storage to the last byte. */
  lemma MoreBlocks(storage: nat, l: Layout, remaining: int, blocks: nat)
    requires Accounted(storage, l, remaining) && Full(l, remaining) && blocks > l.blocks
    ensures Fits(storage, l.(blocks := blocks)) <==>
      blocks == l.blocks + 1 && remaining == 4096 + BitmapsSize(l.nodes, l.blocks + 1)
  {
    SectorsGrow(l.blocks + 1, blocks);
    hide Sectors;
  }

  /** Nor can the nodes be four more, with as many blocks. */
  lemma MoreNodes(storage: nat, l: Layout, remaining: int)
    requires Accounted(storage, l, remaining)
    requires remaining + 4096 * (l.blocks - l.nodes) < 16896 + BitmapsSize(l.nodes + 4, l.nodes + 4)
    ensures !Fits(storage, Layout(l.meta, l.nodes + 4, l.nodes + 4))
  {
    hide Sectors, BitmapsSize;
  }

  /** `remaining` before the loops: the sizes are unsigned, and the difference is read as an `int`. */
  function Start(storage: nat, meta: nat): int { Signed(storage - 512 * (3 + meta)) }

  /** The numbers an `int` can hold. */
  predicate IsInt(x: int) { -0x8000_0000 <= x < 0x8000_0000 }

  /** What the sizing makes of `start` bytes: no layout at all if they are negative. */
  ghost predicate Sized(start: int, l: Layout, remaining: int)
  {
    if start < 0 then l.nodes == l.blocks == 0 && remaining == start else
    var storage := 512 * (3 + l.meta) + start;
    && Accounted(storage, l, remaining) && l.nodes <= l.blocks && l.nodes % 4 == 0
    // the nodes are the most that fit with as many blocks
    && Fits(storage, Layout(l.meta, l.nodes, l.nodes)) && !Fits(storage, Layout(l.meta, l.nodes + 4, l.nodes + 4))
    // blocks beyond those leave something over
    && (l.blocks > l.nodes ==> remaining > BitmapsSize(l.nodes, l.blocks))
    // one more block fits only if nothing would be left over; two never do
    && forall blocks: nat :: blocks > l.blocks ==>
         (Fits(storage, l.(blocks := blocks)) <==>
           blocks == l.blocks + 1 && remaining == 4096 + BitmapsSize(l.nodes, l.blocks + 1))
  }

  /** The sizing loops of `format`. The first difference they take is an `int`. */
  method Size(storage: nat, meta: nat) returns (l: Layout, remaining: int)
    requires storage < 0x1_0000_0000 && IsInt(Start(storage, meta) - 17920)
    ensures l.meta == meta && Sized(Start(storage, meta), l, remaining)
  {
    hide Sectors, BitmapsSize, Signed;
    SmallSizes(4);
    StartIsInt(storage, meta);
    remaining := Start(storage, meta);
    l, remaining := SizeEqual(remaining, meta);
    l, remaining := SizeBlocks(Start(storage, meta), l, remaining);
    if Start(storage, meta) >= 0 { SizedOk(Start(storage, meta), l, remaining); }
  }

  lemma StartIsInt(storage: nat, meta: nat)
    ensures IsInt(Start(storage, meta))
  {
  }

  lemma SizedOk(start: nat, l: Layout, remaining: int)
    requires Accounted(512 * (3 + l.meta) + start, l, remaining) && l.nodes <= l.blocks && l.nodes % 4 == 0
    requires Full(l, remaining) && (l.blocks > l.nodes ==> remaining > BitmapsSize(l.nodes, l.blocks))
    requires Fits(512 * (3 + l.meta) + start, Layout(l.meta, l.nodes, l.nodes))
    requires remaining + 4096 * (l.blocks - l.nodes) < 16896 + BitmapsSize(l.nodes + 4, l.nodes + 4)
    ensures Sized(start, l, remaining)
  {
    hide Sectors, BitmapsSize;
    var storage := 512 * (3 + l.meta) + start;
    MoreNodes(storage, l, remaining);
    forall blocks: nat | blocks > l.blocks
      ensures Fits(storage, l.(blocks := blocks)) <==>
        blocks == l.blocks + 1 && remaining == 4096 + BitmapsSize(l.nodes, l.blocks + 1)
    {
      MoreBlocks(storage, l, remaining, blocks);
    }
  }

  /** The bytes sized are those of the storage if and only if the reserved sectors fit in it and leave less than 2^31.
      From there on, and when they do not fit, the loops see a negative number, as long as the reserved sectors
      themselves are not too many. */
  lemma SizedExact(storage: nat, meta: nat, l: Layout, remaining: int)
    requires storage < 0x1_0000_0000 && l.meta == meta && 512 * (3 + meta) <= 0x8000_0000
    requires Sized(Start(storage, meta), l, remaining)
    ensures 0 <= storage - 512 * (3 + meta) < 0x8000_0000 <==> Accounted(storage, l, remaining)
    ensures !(0 <= storage - 512 * (3 + meta) < 0x8000_0000) ==> l == Layout(meta, 0, 0)
  {
    hide Sectors, BitmapsSize;
    var d := storage - 512 * (3 + meta);
    SignedIs(d);
    SignedFar(d);
    hide Signed;
  }

  lemma SignedFar(d: int)
    requires -0x8000_0000 <= d < 0x1_0000_0000
    ensures d >= 0x8000_0000 ==> Signed(d) == d - 0x1_0000_0000
  {
  }

  /** Three gigabytes get no node and no block. */
  method SizeThreeGigabytes() returns (l: Layout, remaining: int)
    ensures l == Layout(0, 0, 0) && Fits(0xC000_0000, Layout(0, 4, 4))
  {
    hide Sectors, BitmapsSize, Signed;
    SignedFar(0xC000_0000 - 1536);
    l, remaining := Size(0xC000_0000, 0);
    SmallSizes(4);
  }

  /** In twelve sectors a block would fit, with its bitmap, after the reserved ones. It is not used. */
  method SizeTwelveSectors() returns (l: Layout, remaining: int)
    ensures l == Layout(0, 0, 0) && Fits(6144, Layout(0, 0, 1))
  {
    hide Sectors, BitmapsSize, Signed;
    SignedIs(6144 - 1536);
    l, remaining := Size(6144, 0);
    SmallSizes(1);
    SmallSizes(4);
    MostNodes(6144, 0, 0, l.nodes);
  }

  lemma SmallSizes(n: nat)
    requires 0 < n < 512
    ensures BitmapsSize(0, 0) == 0 && BitmapsSize(0, n) == 512 && BitmapsSize(n, n) == 1024
  {
    hide Sectors, BitmapsSize;
    SectorsNone();
    SectorsFew(n);
    BitmapsAdd(0, 0);
    BitmapsAdd(0, n);
    BitmapsAdd(n, n);
  }

  lemma BitmapsAdd(nodes: nat, blocks: nat)
    ensures BitmapsSize(nodes, blocks) == 512 * Sectors(nodes) + 512 * Sectors(blocks)
  {
  }

  lemma SectorsNone()
    ensures Sectors(0) == 0
  {
  }

  lemma SectorsFew(n: nat)
    requires 0 < n < 512
    ensures Sectors(n) == 1
  {
    assert n / 512 == 0 && n % 512 == n;
  }

  /** The nodes that `format` settles for are the only ones it can. */
  lemma MostNodes(storage: nat, meta: nat, n: nat, m: nat)
    requires n % 4 == 0 && Fits(storage, Layout(meta, n, n)) && !Fits(storage, Layout(meta, n + 4, n + 4))
    requires m % 4 == 0 && Fits(storage, Layout(meta, m, m)) && !Fits(storage, Layout(meta, m + 4, m + 4))
    ensures n == m
  {
    hide Fits;
    if n + 4 <= m { FitsLess(storage, meta, n + 4, m); assert false; }
    if m + 4 <= n { FitsLess(storage, meta, m + 4, n); assert false; }
  }

  /** What fits for a number of nodes and blocks fits for less. */
  lemma FitsLess(storage: nat, meta: nat, n: nat, m: nat)
    requires n <= m && Fits(storage, Layout(meta, m, m))
    ensures Fits(storage, Layout(meta, n, n))
  {
    SectorsGrow(n, m);
    hide Sectors;
  }

  /** As many nodes as blocks, four at a time (lines 143-156). No `int` overflows. */
  method SizeEqual(start: int, meta: nat) returns (l: Layout, remaining: int)
    requires IsInt(start) && IsInt(start - 17920)
    ensures l.meta == meta && l.nodes == l.blocks && l.nodes % 4 == 0
    ensures start < 0 ==> l.nodes == 0 && remaining == start
    ensures start >= 0 ==> Accounted(512 * (3 + meta) + start, l, remaining)
    ensures remaining < 16896 + BitmapsSize(l.nodes + 4, l.nodes + 4)
  {
    hide BitmapsSize, Sectors;
    BitmapsNone();
    SmallSizes(4);
    var blocks, nodes := 0, 0;
    ghost var q := 0;
    remaining := start;
    var proposed := 512 + 4096 * 4;
    proposed := proposed + BitmapsSize(nodes + 4, blocks + 4);
    while remaining - proposed >= 0
      invariant blocks == nodes == 4 * q && IsInt(proposed) && IsInt(remaining) && IsInt(remaining - proposed)
      invariant proposed == 16896 + BitmapsSize(nodes + 4, blocks + 4)
      invariant start < 0 ==> nodes == 0 && remaining == start
      invariant start >= 0 ==> Accounted(512 * (3 + meta) + start, Layout(meta, nodes, blocks), remaining)
      decreases remaining
    {
      blocks := blocks + 4;
      nodes := nodes + 4;
      q := q + 1;
      remaining := remaining - (512 + 4096 * 4);
      proposed := 512 + 4096 * 4;
      proposed := proposed + BitmapsSize(nodes + 4, blocks + 4);
      BitmapsSmall(nodes + 4, blocks + 4);
    }
    l := Layout(meta, nodes, blocks);
    FourTimes(nodes, q);
  }

  /** The space that remains is filled with blocks (lines 158-166). */
  method SizeBlocks(start: int, even: Layout, most: int) returns (l: Layout, remaining: int)
    requires IsInt(start) && IsInt(start - 17920)
    requires start < 0 ==> even.nodes == even.blocks == 0 && most == start
    requires start >= 0 ==> Accounted(512 * (3 + even.meta) + start, even, most)
    ensures l == even.(blocks := l.blocks) && l.blocks >= even.blocks
    ensures start < 0 ==> l == even && remaining == start
    ensures start >= 0 ==> Accounted(512 * (3 + even.meta) + start, l, remaining) && Full(l, remaining)
    ensures remaining + 4096 * (l.blocks - even.blocks) == most
    ensures l.blocks > even.blocks ==> remaining > BitmapsSize(l.nodes, l.blocks)
  {
    hide BitmapsSize, Sectors;
    remaining := most;
    var nodes, blocks := even.nodes, even.blocks;
    var proposed := 4096 + BitmapsSize(nodes, blocks + 1);
    BitmapsSmall(nodes, blocks + 1);
    while remaining - proposed > 0
      invariant blocks >= even.blocks && proposed == 4096 + BitmapsSize(nodes, blocks + 1)
      invariant IsInt(proposed) && IsInt(remaining) && IsInt(remaining - proposed)
      invariant remaining + 4096 * (blocks - even.blocks) == most
      invariant start < 0 ==> blocks == 0 && remaining == start
      invariant start >= 0 ==> Accounted(512 * (3 + even.meta) + start, even.(blocks := blocks), remaining)
      invariant blocks > even.blocks ==> remaining > BitmapsSize(nodes, blocks)
      decreases remaining
    {
      blocks := blocks + 1;
      proposed := 4096 + BitmapsSize(nodes, blocks + 1);
      remaining := remaining - 4096;
      BitmapsSmall(nodes, blocks + 1);
    }
    l := even.(blocks := blocks);
  }

  /** Bitmaps are small beside what they are for. */
  lemma BitmapsSmall(nodes: nat, blocks: nat)
    ensures BitmapsSize(nodes, blocks) <= 8 * nodes + 8 * blocks + 1024
  {
    hide Sectors;
    SectorsSmall(nodes);
    SectorsSmall(blocks);
  }

  lemma SectorsSmall(n: nat)
    ensures 512 * Sectors(n) <= 8 * n + 512
  {
    var q, r := n / 512, n % 512;
    assert n == 512 * q + r;
  }

  lemma BitmapsNone()
    ensures BitmapsSize(0, 0) == 0
  {
  }

  /** Header, block bitmap, node bitmap, node table and blocks follow one another without gaps, each with room
      for what it holds, and end within the storage; what is left over is what the sizing had to spare. */
  lemma LayoutFits(storage: nat, l: Layout, remaining: int)
    requires Accounted(storage, l, remaining) && l.nodes % 4 == 0
    ensures l.BlocksBitmap() == 3 + l.meta
    ensures l.NodesBitmap() == l.BlocksBitmap() + Sectors(l.blocks) && l.blocks <= 4096 * Sectors(l.blocks)
    ensures l.NodesTable() == l.NodesBitmap() + Sectors(l.nodes) && l.nodes <= 4096 * Sectors(l.nodes)
    ensures 4 * (l.Blocks() - l.NodesTable()) == l.nodes
    ensures 512 * l.End() + (remaining - BitmapsSize(l.nodes, l.blocks)) == storage
    ensures 512 * l.End() <= storage
  {
    SectorsSuffice(l.blocks);
    SectorsSuffice(l.nodes);
    assert Sectors(0) == 0;
    assert BitmapsSize(0, l.blocks) / 512 == Sectors(l.blocks);
    assert BitmapsSize(l.nodes, 0) / 512 == Sectors(l.nodes);
  }

  /** `metadata_sec`. */
  function MetaSectors(size: nat): (k: nat)
    ensures size <= 512 * k < size + 512
  {
    size / 512 + (if size % 512 == 0 then 0 else 1)
  }

  /** The group header is written at a byte offset, and found again by sector. */
  function HeaderWritten(metadata: nat): nat { 512 + 512 + metadata }
  function HeaderExpected(metadata: nat): nat { 512 * (1 + 1 + MetaSectors(metadata)) }

  lemma HeaderPlaced(metadata: nat)
    ensures HeaderWritten(metadata) == HeaderExpected(metadata) <==> metadata % 512 == 0
  {
  }

  /** With 100 bytes of metadata the header is written in the middle of the sector before its own. */
  lemma HeaderMisplaced()
    ensures HeaderWritten(100) == 1124 && HeaderExpected(100) == 1536
  {
  }

  // ------------------------------------------------------------------ bitmaps

  /** `0x1 << (7 - j)`. */
  function Mask(j: int): bv8
  {
    if j == 0 then 0x80 else if j == 1 then 0x40 else if j == 2 then 0x20 else if j == 3 then 0x10
    else if j == 4 then 0x08 else if j == 5 then 0x04 else if j == 6 then 0x02 else 0x01
  }

  predicate Bit(b: bv8, j: int) { b & Mask(j) != 0 }

  function SetBit(b: bv8, j: int): bv8 { b | Mask(j) }

  /** The masks go from the highest bit down to the lowest. */
  lemma MaskOrder(j: int)
    ensures Mask(0) == 0x80 && Mask(7) == 1
    ensures 0 < j < 8 ==> Mask(j - 1) == Mask(j) << 1
  {
  }

  lemma SetBitIs(b: bv8, j: int, i: int)
    requires 0 <= j < 8 && 0 <= i < 8
    ensures Bit(SetBit(b, j), i) <==> i == j || Bit(b, i)
  {
  }

  lemma FullByte(b: bv8, j: int)
    ensures b == 0xFF ==> Bit(b, j)
  {
  }

  /** Bit `p` of a bitmap, the most significant of each byte first. */
  predicate Used(bytes: seq<bv8>, p: int)
    requires 0 <= p < 8 * |bytes|
  {
    Bit(bytes[p / 8], p % 8)
  }

  /** The clear positions below `n`, in ascending order. */
  function Clear(bytes: seq<bv8>, n: nat): seq<int>
    requires n <= 8 * |bytes|
  {
    if n == 0 then [] else Clear(bytes, n - 1) + (if Used(bytes, n - 1) then [] else [n - 1])
  }

  lemma {:induction false} ClearIs(bytes: seq<bv8>, n: nat)
    requires n <= 8 * |bytes|
    ensures forall p :: p in Clear(bytes, n) <==> 0 <= p < n && !Used(bytes, p)
    ensures forall i, j :: 0 <= i < j < |Clear(bytes, n)| ==> Clear(bytes, n)[i] < Clear(bytes, n)[j]
  {
    hide Used, Bit;
    if n > 0 {
      ClearIs(bytes, n - 1);
      var c := Clear(bytes, n - 1);
      assert forall i :: 0 <= i < |c| ==> c[i] in c;
    }
  }

  lemma {:induction false} ClearPrefix(bytes: seq<bv8>, n: nat, m: nat)
    requires n <= m <= 8 * |bytes|
    ensures |Clear(bytes, n)| <= |Clear(bytes, m)| && Clear(bytes, n) == Clear(bytes, m)[..|Clear(bytes, n)|]
  {
    if n < m { ClearPrefix(bytes, n, m - 1); }
  }

  lemma {:induction false} NoneClear(bytes: seq<bv8>, n: nat)
    requires n <= 8 * |bytes| && forall p :: 0 <= p < n ==> Used(bytes, p)
    ensures Clear(bytes, n) == []
  {
    if n > 0 { NoneClear(bytes, n - 1); }
  }

  /** A byte of ones has no clear position. */
  lemma {:induction false} ClearFull(bytes: seq<bv8>, i: nat, j: nat)
    requires i < |bytes| && bytes[i] == 0xFF && j <= 8
    ensures Clear(bytes, 8 * i + j) == Clear(bytes, 8 * i)
    decreases j
  {
    if j > 0 {
      ClearFull(bytes, i, j - 1);
      FullByte(bytes[i], j - 1);
      ByteOf(i, j - 1);
    }
  }

  lemma ByteOf(i: nat, j: nat)
    requires j < 8
    ensures (8 * i + j) / 8 == i && (8 * i + j) % 8 == j
  {
  }

  // --------------------------------------------------------------- allocation

  /** The positions of `free`, as `get_free` gives them out. */
  function Scaled(free: seq<int>, offset: int, mul: int): (r: seq<int>)
    ensures |r| == |free| && forall i :: 0 <= i < |r| ==> r[i] == free[i] * mul + offset
  {
    if free == [] then [] else Scaled(free[..|free| - 1], offset, mul) + [free[|free| - 1] * mul + offset]
  }

  /** `bytes` with the positions of `taken` set. */
  ghost predicate Marked(bytes: seq<bv8>, bytes': seq<bv8>, taken: seq<int>)
  {
    |bytes'| == |bytes| && forall p :: 0 <= p < 8 * |bytes| ==> (Used(bytes', p) <==> Used(bytes, p) || p in taken)
  }

  /** The search loop of `get_free`. */
  method Search(bitmap: array<bv8>, count: nat) returns (free: seq<int>)
    ensures |free| <= count && |free| <= |Clear(bitmap[..], 8 * bitmap.Length)|
    ensures free == Clear(bitmap[..], 8 * bitmap.Length)[..|free|]
    ensures |free| == count <==> |Clear(bitmap[..], 8 * bitmap.Length)| >= count
  {
    var i, curr := 0, 0;
    free := [];
    ghost var bytes := bitmap[..];
    ClearNone(bytes);
    hide Clear;
    while i < bitmap.Length && |free| < count
      invariant 0 <= i <= bitmap.Length && |free| <= count && 0 <= curr <= 8 * |bytes|
      invariant |free| < count ==> curr == 8 * i
      invariant free == Clear(bytes, curr)
    {
      free, curr := SearchByte(bitmap, i, count, free, curr);
      i := i + 1;
    }
    ClearPrefix(bytes, curr, 8 * |bytes|);
  }

  /** The loop over the bits of a byte. */
  method SearchByte(bitmap: array<bv8>, i: nat, count: nat, found: seq<int>, at: nat)
    returns (free: seq<int>, curr: nat)
    requires i < bitmap.Length && at == 8 * i && found == Clear(bitmap[..], at) && |found| < count
    ensures curr <= 8 * i + 8 && free == Clear(bitmap[..], curr) && |free| <= count
    ensures |free| < count ==> curr == 8 * i + 8
  {
    free, curr := found, at;
    hide Clear, Bit;
    var j := 0;
    ghost var bytes := bitmap[..];
    while j < 8 && |free| < count
      invariant 0 <= j <= 8 && curr == 8 * i + j && (j > 0 ==> bitmap[i] != 0xFF)
      invariant |free| <= count && free == Clear(bytes, curr)
    {
      if bitmap[i] == 0xFF {
        ClearFull(bytes, i, 8);
        curr := curr + 8;
        break;
      }
      ClearNext(bytes, i, j);
      if !Bit(bitmap[i], j) { free := free + [curr]; }
      j := j + 1;
      curr := curr + 1;
    }
  }

  lemma ClearNone(bytes: seq<bv8>)
    ensures Clear(bytes, 0) == []
  {
  }

  lemma ClearNext(bytes: seq<bv8>, i: nat, j: nat)
    requires i < |bytes| && j < 8
    ensures Clear(bytes, 8 * i + j + 1) == Clear(bytes, 8 * i + j) + (if Bit(bytes[i], j) then [] else [8 * i + j])
  {
    ByteOf(i, j);
    hide Bit;
  }

  /** One more position is set. */
  lemma MarkNext(bytes: seq<bv8>, now: seq<bv8>, taken: seq<int>, p: int)
    requires Marked(bytes, now, taken) && 0 <= p < 8 * |bytes|
    ensures Marked(bytes, now[p / 8 := SetBit(now[p / 8], p % 8)], taken + [p])
  {
    var now' := now[p / 8 := SetBit(now[p / 8], p % 8)];
    forall q | 0 <= q < 8 * |bytes| ensures Used(now', q) <==> Used(now, q) || q == p {
      SamePosition(p, q);
      SetBitIs(now[p / 8], p % 8, q % 8);
      hide Bit, SetBit;
    }
    hide Used;
  }

  lemma SamePosition(p: int, q: int)
    ensures p == q <==> p / 8 == q / 8 && p % 8 == q % 8
  {
  }

  /** `get_free`. No result is what NULL is to the caller. */
  method GetFree(bitmap: array<bv8>, count: nat, offset: int, mul: int) returns (ok: bool, ret: seq<int>)
    modifies bitmap
    ensures ok <==> |Clear(old(bitmap[..]), 8 * bitmap.Length)| >= count
    ensures !ok ==> bitmap[..] == old(bitmap[..])
    ensures ok ==>
      var free := Clear(old(bitmap[..]), 8 * bitmap.Length)[..count];
      ret == Scaled(free, offset, mul) && Marked(old(bitmap[..]), bitmap[..], free)
  {
    var free := Search(bitmap, count);
    ghost var bytes := bitmap[..];
    if |free| != count { return false, []; }
    ok := true;
    FreePositions(bytes, free);
    hide Used, Clear, Marked;
    ret := MarkAll(bitmap, free, offset, mul);
  }

  /** The loop that sets the selected positions. */
  method MarkAll(bitmap: array<bv8>, free: seq<int>, offset: int, mul: int) returns (ret: seq<int>)
    requires forall i :: 0 <= i < |free| ==> 0 <= free[i] < 8 * bitmap.Length
    modifies bitmap
    ensures ret == Scaled(free, offset, mul) && Marked(old(bitmap[..]), bitmap[..], free)
  {
    ret := free;
    var i := 0;
    hide Used, Bit, SetBit;
    ghost var bytes := bitmap[..];
    assert Marked(bytes, bytes, []);
    hide Marked;
    while i < |free|
      invariant 0 <= i <= |free| == |ret|
      invariant Marked(bytes, bitmap[..], free[..i])
      invariant forall k :: 0 <= k < i ==> ret[k] == free[k] * mul + offset
      invariant forall k :: i <= k < |free| ==> ret[k] == free[k]
    {
      MarkNext(bytes, bitmap[..], free[..i], free[i]);
      assert free[..i + 1] == free[..i] + [free[i]];
      var k, j := ret[i] / 8, ret[i] % 8;
      ghost var now := bitmap[..];
      bitmap[k] := SetBit(bitmap[k], j);
      assert bitmap[..] == now[k := SetBit(now[k], j)];
      ret := ret[i := ret[i] * mul + offset];
      i := i + 1;
    }
    assert free[..i] == free;
    assert ret == Scaled(free, offset, mul);
  }

  lemma FreePositions(bytes: seq<bv8>, free: seq<int>)
    requires |free| <= |Clear(bytes, 8 * |bytes|)| && free == Clear(bytes, 8 * |bytes|)[..|free|]
    ensures (forall i :: 0 <= i < |free| ==> 0 <= free[i] < 8 * |bytes|) && Marked(bytes, bytes, [])
  {
    var all := Clear(bytes, 8 * |bytes|);
    ClearIs(bytes, 8 * |bytes|);
    forall i | 0 <= i < |free| ensures 0 <= free[i] < 8 * |bytes| { assert all[i] in all; }
  }

  // --------------------------------------------------------- blocks on the disk

  /** Different blocks of the group have different sectors, all of them between the node table and the end. */
  lemma BlocksApart(l: Layout, p: int, q: int)
    requires 0 <= p < q < l.blocks
    ensures var a, b := p * 8 + l.Blocks(), q * 8 + l.Blocks(); l.Blocks() <= a && a + 8 <= b && b + 8 <= l.End()
  {
  }

  /** The bitmap of the blocks is read in whole bytes, so it can have up to seven positions for which there is no
      block. `get_free_blocks` gives out existing blocks just when enough of those are clear. */
  lemma BlocksExist(bytes: seq<bv8>, l: Layout, count: nat)
    requires l.blocks <= 8 * |bytes| && count <= |Clear(bytes, 8 * |bytes|)|
    ensures var free := Clear(bytes, 8 * |bytes|)[..count];
      (forall s :: s in Scaled(free, l.Blocks(), 8) ==> l.Blocks() <= s && s + 8 <= l.End())
      <==> |Clear(bytes, l.blocks)| >= count
  {
    var all, c := Clear(bytes, 8 * |bytes|), Clear(bytes, l.blocks);
    ClearIs(bytes, 8 * |bytes|);
    ClearIs(bytes, l.blocks);
    ClearPrefix(bytes, l.blocks, 8 * |bytes|);
    hide Used, Clear;
    var free := all[..count];
    var r := Scaled(free, l.Blocks(), 8);
    if |c| >= count {
      forall s | s in r ensures l.Blocks() <= s && s + 8 <= l.End() {
        var i :| 0 <= i < |r| && r[i] == s;
        assert free[i] == c[i] && c[i] in c;
      }
    } else {
      var p := all[|c|];
      assert p == free[|c|] && p in all;
      assert p < l.blocks ==> p in c;
      assert r[|c|] in r;
    }
  }

  /** With a group of whole bytes every block given out exists; otherwise a full group gives out one that does not. */
  lemma WholeBytes(l: Layout, bytes: seq<bv8>)
    requires |bytes| == l.blocks / 8 + (if l.blocks % 8 == 0 then 0 else 1)
    ensures l.blocks % 8 == 0 ==> |Clear(bytes, 8 * |bytes|)| == |Clear(bytes, l.blocks)|
    ensures l.blocks % 8 != 0 && Clear(bytes, l.blocks) == [] && !Used(bytes, l.blocks) ==>
      |Clear(bytes, 8 * |bytes|)| >= 1
  {
    ClearPrefix(bytes, l.blocks, 8 * |bytes|);
    if l.blocks % 8 != 0 && !Used(bytes, l.blocks) {
      ClearIs(bytes, 8 * |bytes|);
      assert l.blocks in Clear(bytes, 8 * |bytes|);
    }
  }

  /** The layout of the image that is made when no size is given, 1474048 bytes without metadata. */
  const FLOPPY := Layout(0, 348, 348)

  /** `bytes` is the bitmap of a group all of whose blocks are used, with the positions after them clear. */
  ghost predicate FullGroup(bytes: seq<bv8>, blocks: nat)
  {
    blocks <= 8 * |bytes| && forall p :: 0 <= p < 8 * |bytes| ==> (Used(bytes, p) <==> p < blocks)
  }

  /** On a full floppy `get_free_blocks` still gives out block 348 of 348, whose sectors start where the blocks end. */
  lemma FloppyOverrun(bytes: seq<bv8>)
    requires |bytes| == 44 && FullGroup(bytes, 348)
    ensures Accounted(1474048, FLOPPY, 2560) && |Clear(bytes, 348)| == 0
    ensures |Clear(bytes, 352)| >= 1 && Clear(bytes, 352)[0] == 348 && 348 * 8 + FLOPPY.Blocks() == FLOPPY.End()
  {
    FloppyLayout();
    NoneClear(bytes, 348);
    ClearIs(bytes, 352);
    hide Used, Clear;
    var c := Clear(bytes, 352);
    assert 348 in c;
    assert c[0] in c;
    var i :| 0 <= i < |c| && c[i] == 348;
  }

  lemma FloppyLayout()
    ensures Accounted(1474048, FLOPPY, 2560) && !Fits(1474048, Layout(0, 352, 352))
    ensures FLOPPY.End() == FLOPPY.Blocks() + 8 * 348
  {
  }

  /** The floppy is laid out so. */
  method SizeFloppy() returns (l: Layout, remaining: int)
    ensures l == FLOPPY && remaining == 2560
  {
    hide Sectors, BitmapsSize, Signed;
    SignedIs(1474048 - 1536);
    l, remaining := Size(1474048, 0);
    FloppyLayout();
    SmallSizes(348);
    SectorsFew(349);
    MostNodes(1474048, 0, 348, l.nodes);
  }

  /** `get_free_blocks`, on the bitmap as `load_info` reads it. */
  method GetFreeBlocks(bitmap: array<bv8>, l: Layout, count: nat) returns (ok: bool, ret: seq<int>)
    requires bitmap.Length == l.blocks / 8 + (if l.blocks % 8 == 0 then 0 else 1)
    modifies bitmap
    ensures ok <==> |Clear(old(bitmap[..]), 8 * bitmap.Length)| >= count
    ensures !ok ==> bitmap[..] == old(bitmap[..])
    ensures ok ==> Marked(old(bitmap[..]), bitmap[..], Clear(old(bitmap[..]), 8 * bitmap.Length)[..count])
    ensures ok ==> |ret| == count && forall i, j :: 0 <= i < j < count ==> ret[i] + 8 <= ret[j]
    ensures ok ==>
      ((forall s :: s in ret ==> l.Blocks() <= s && s + 8 <= l.End()) <==> |Clear(old(bitmap[..]), l.blocks)| >= count)
  {
    ghost var bytes := bitmap[..];
    ok, ret := GetFree(bitmap, count, l.Blocks(), 8);
    hide Used, Clear, Marked;
    if ok {
      ClearIs(bytes, 8 * |bytes|);
      BlocksExist(bytes, l, count);
      ghost var free := Clear(bytes, 8 * |bytes|)[..count];
      assert forall i, j :: 0 <= i < j < count ==> free[i] < free[j];
    }
  }
}
