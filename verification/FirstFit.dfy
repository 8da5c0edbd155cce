/**
 The first-fit allocator of asgard/lib/m_malloc.c. Memory is seen through the headers in it,
 a map from addresses to `struct mem_desc`; the blocks that tile the buffer are a ghost
 sequence, which every operation is proved to change as it should.
 */
module FirstFit {
  import opened Arithmetic

  /** `sizeof(struct mem_desc)`. */
  const HDR: nat := 8

  /** A header; a `next` of 0 is NULL. */
  datatype Desc = Desc(size: int, next: int)

  type Memory = map<int, Desc>

  /** A header at `addr` and the `size` bytes after it. */
  datatype Block = Block(addr: int, size: int, free: bool)

  function End(b: Block): int { b.addr + HDR + b.size }

  // ------------------------------------------------------------ the buffer

  /** The blocks of `s` lie end to end from `a` to `z`. */
  predicate Tiled(s: seq<Block>, a: int, z: int)
  {
    if s == [] then a == z else s[0].addr == a && s[0].size >= 0 && Tiled(s[1..], End(s[0]), z)
  }

  /** No free block lies beside another. */
  predicate Coalesced(s: seq<Block>)
  {
    |s| < 2 || (!(s[0].free && s[1].free) && Coalesced(s[1..]))
  }

  function Live(s: seq<Block>): set<Block> { set b | b in s && !b.free }

  /** The address of the first free block of `s`, or `z` if there is none. */
  function NextFree(s: seq<Block>, z: int): int
  {
    if s == [] then z else if s[0].free then s[0].addr else NextFree(s[1..], z)
  }

  /** The address of the last free block of `s`, or `z` if there is none. */
  function LastFree(s: seq<Block>, z: int): int
  {
    if s == [] then z else LastFree(s[1..], if s[0].free then s[0].addr else z)
  }

  predicate HasFree(s: seq<Block>) { s != [] && (s[0].free || HasFree(s[1..])) }

  /** The headers of `s` are in memory, and its free blocks are linked in order, the last one to `z`. */
  predicate Linked(m: Memory, s: seq<Block>, z: int)
  {
    s == [] ||
    (&& s[0].addr in m && m[s[0].addr].size == s[0].size
     && (s[0].free ==> m[s[0].addr].next == NextFree(s[1..], z))
     && Linked(m, s[1..], z))
  }

  // ------------------------------------------------------------ joining pieces

  lemma {:induction false} TiledJoin(s: seq<Block>, t: seq<Block>, a: int, y: int, z: int)
    requires Tiled(s, a, y) && Tiled(t, y, z)
    ensures Tiled(s + t, a, z)
  {
    if s == [] { assert s + t == t; } else {
      TiledJoin(s[1..], t, End(s[0]), y, z);
      assert (s + t)[1..] == s[1..] + t;
    }
  }

  lemma {:induction false} TiledSplit(s: seq<Block>, t: seq<Block>, a: int, z: int) returns (y: int)
    requires Tiled(s + t, a, z)
    ensures Tiled(s, a, y) && Tiled(t, y, z) && a <= y <= z
    ensures s != [] ==> y == End(s[|s| - 1])
    ensures t != [] ==> y == t[0].addr
  {
    if s == [] {
      assert s + t == t;
      y := a;
      TiledOrder(t, a, z);
    } else {
      assert (s + t)[1..] == s[1..] + t;
      y := TiledSplit(s[1..], t, End(s[0]), z);
      if |s| == 1 { assert s[1..] == []; }
    }
  }

  /** Every block lies between the bounds, and before the blocks after it: no two overlap. */
  lemma {:induction false} TiledOrder(s: seq<Block>, a: int, z: int)
    requires Tiled(s, a, z)
    ensures a <= z
    ensures forall i :: 0 <= i < |s| ==> a <= s[i].addr && s[i].size >= 0 && End(s[i]) <= z
    ensures forall i, j :: 0 <= i < j < |s| ==> End(s[i]) <= s[j].addr
  {
    if s != [] { TiledOrder(s[1..], End(s[0]), z); }
  }

  lemma TiledBounds(s: seq<Block>, a: int, z: int)
    requires Tiled(s, a, z)
    ensures a <= z && forall b :: b in s ==> a <= b.addr && b.size >= 0 && End(b) <= z
  {
    TiledOrder(s, a, z);
  }

  lemma {:induction false} NextFreeJoin(s: seq<Block>, t: seq<Block>, z: int)
    ensures NextFree(s + t, z) == NextFree(s, NextFree(t, z))
  {
    if s == [] { assert s + t == t; } else {
      assert (s + t)[1..] == s[1..] + t;
      NextFreeJoin(s[1..], t, z);
    }
  }

  lemma {:induction false} LinkedJoin(m: Memory, s: seq<Block>, t: seq<Block>, z: int)
    ensures Linked(m, s + t, z) <==> Linked(m, s, NextFree(t, z)) && Linked(m, t, z)
  {
    if s == [] { assert s + t == t; } else {
      assert (s + t)[1..] == s[1..] + t;
      NextFreeJoin(s[1..], t, z);
      LinkedJoin(m, s[1..], t, z);
    }
  }

  /** A change elsewhere does not touch the links of `s`. */
  lemma {:induction false} LinkedFrame(m: Memory, m': Memory, s: seq<Block>, z: int)
    requires Linked(m, s, z)
    requires forall b :: b in s && b.addr in m ==> b.addr in m' && m'[b.addr] == m[b.addr]
    ensures Linked(m', s, z)
  {
    if s != [] {
      assert s[0] in s;
      LinkedFrame(m, m', s[1..], z);
    }
  }

  lemma {:induction false} LastFreeJoin(s: seq<Block>, t: seq<Block>, z: int)
    ensures LastFree(s + t, z) == LastFree(t, LastFree(s, z))
  {
    if s == [] { assert s + t == t; } else {
      assert (s + t)[1..] == s[1..] + t;
      LastFreeJoin(s[1..], t, if s[0].free then s[0].addr else z);
    }
  }

  lemma {:induction false} HasFreeJoin(s: seq<Block>, t: seq<Block>)
    ensures HasFree(s + t) <==> HasFree(s) || HasFree(t)
  {
    if s == [] { assert s + t == t; } else {
      assert (s + t)[1..] == s[1..] + t;
      HasFreeJoin(s[1..], t);
    }
  }

  /** Without a free block there is nothing to link. */
  lemma {:induction false} NothingFree(m: Memory, s: seq<Block>, z: int, z': int)
    requires !HasFree(s)
    ensures NextFree(s, z) == z && LastFree(s, z) == z
    ensures Linked(m, s, z) ==> Linked(m, s, z')
  {
    if s != [] { NothingFree(m, s[1..], z, z'); }
  }

  /** The first and the last free block are blocks of `s`, whatever lies beyond it. */
  lemma {:induction false} SomethingFree(s: seq<Block>, z: int, z': int)
    requires HasFree(s)
    ensures NextFree(s, z) == NextFree(s, z') && LastFree(s, z) == LastFree(s, z')
    ensures exists b :: b in s && b.free && b.addr == NextFree(s, z)
    ensures exists b :: b in s && b.free && b.addr == LastFree(s, z)
  {
    if HasFree(s[1..]) {
      SomethingFree(s[1..], if s[0].free then s[0].addr else z, if s[0].free then s[0].addr else z');
      if !s[0].free {
        SomethingFree(s[1..], z, z');
        assert forall b :: b in s[1..] ==> b in s;
      } else {
        assert s[0] in s;
        assert forall b :: b in s[1..] ==> b in s;
      }
    } else {
      NothingFree(map[], s[1..], s[0].addr, 0);
      assert s[0] in s;
    }
  }

  /** Where the first free block is. */
  lemma {:induction false} SplitFree(s: seq<Block>) returns (v: seq<Block>, b: Block, w: seq<Block>)
    requires HasFree(s)
    ensures s == v + [b] + w && !HasFree(v) && b.free
  {
    if s[0].free {
      v, b, w := [], s[0], s[1..];
    } else {
      v, b, w := SplitFree(s[1..]);
      v := [s[0]] + v;
    }
  }

  // -------------------------------------------------------- linking a successor

  /** The head of the list and the memory after the free block before a place, or the head if there
      is none, is made to point to `x`. */
  function SetLink(m: Memory, first: int, s: seq<Block>, x: int): (Memory, int)
  {
    if HasFree(s) then
      var p := LastFree(s, 0);
      (if p in m then m[p := m[p].(next := x)] else m, first)
    else (m, x)
  }

  lemma {:induction false} Relink(m: Memory, s: seq<Block>, a: int, y: int, z: int, x: int)
    requires Tiled(s, a, y) && Linked(m, s, z) && HasFree(s)
    ensures var p := LastFree(s, 0);
      p in m && a <= p < y && Linked(m[p := m[p].(next := x)], s, x)
  {
    var rest := s[1..];
    TiledBounds(rest, End(s[0]), y);
    if HasFree(rest) {
      Relink(m, rest, End(s[0]), y, z, x);
      SomethingFree(rest, 0, if s[0].free then s[0].addr else 0);
      SomethingFree(rest, z, x);
    } else {
      NothingFree(m, rest, s[0].addr, x);
      NothingFree(m, rest, z, x);
      var p := s[0].addr;
      var m' := m[p := m[p].(next := x)];
      assert forall b :: b in rest ==> b.addr > p;
      LinkedFrame(m, m', rest, x);
      NothingFree(m, rest, x, x);
    }
  }

  lemma SetLinkOk(m: Memory, first: int, s: seq<Block>, a: int, y: int, z: int, x: int)
    requires Tiled(s, a, y) && Linked(m, s, z) && first == NextFree(s, z)
    ensures var (m', first') := SetLink(m, first, s, x);
      && Linked(m', s, x) && first' == NextFree(s, x)
      && m'.Keys == m.Keys && forall p :: p in m && !(a <= p < y) ==> m'[p] == m[p]
  {
    if HasFree(s) {
      Relink(m, s, a, y, z, x);
      SomethingFree(s, z, x);
    } else {
      NothingFree(m, s, z, x);
      NothingFree(m, s, x, z);
    }
  }

  // -------------------------------------------------------------- the heap

  /** The buffer from `a` to `z` is tiled by `blocks`, and the free ones are the list from `first`. */
  predicate HeapOk(m: Memory, first: int, blocks: seq<Block>, a: int, z: int)
  {
    0 < a && Tiled(blocks, a, z) && Linked(m, blocks, 0) && first == NextFree(blocks, 0)
  }

  /** A heap put together from the blocks before a place, at it and after it. */
  lemma Assemble(m: Memory, first: int, s: seq<Block>, mid: seq<Block>, u: seq<Block>, a: int, y: int, x: int, z: int)
    requires 0 < a && Tiled(s, a, y) && Tiled(mid, y, x) && Tiled(u, x, z)
    requires Linked(m, s, NextFree(mid, NextFree(u, 0))) && Linked(m, mid, NextFree(u, 0)) && Linked(m, u, 0)
    requires first == NextFree(s, NextFree(mid, NextFree(u, 0)))
    ensures HeapOk(m, first, s + mid + u, a, z)
  {
    TiledJoin(s, mid, a, y, x);
    TiledJoin(s + mid, u, a, x, z);
    LinkedJoin(m, s + mid, u, 0);
    LinkedJoin(m, s, mid, NextFree(u, 0));
    NextFreeJoin(s + mid, u, 0);
    NextFreeJoin(s, mid, NextFree(u, 0));
  }

  /** The converse: what a heap says about its pieces. */
  lemma TakeApart(m: Memory, first: int, s: seq<Block>, b: Block, u: seq<Block>, a: int, z: int)
    requires HeapOk(m, first, s + [b] + u, a, z)
    ensures Tiled(s, a, b.addr) && Tiled([b], b.addr, End(b)) && Tiled(u, End(b), z) && b.size >= 0
    ensures b.addr in m && m[b.addr].size == b.size && (b.free ==> m[b.addr].next == NextFree(u, 0))
    ensures Linked(m, s, NextFree([b], NextFree(u, 0))) && Linked(m, u, 0)
    ensures first == NextFree(s, NextFree([b], NextFree(u, 0)))
    ensures 0 < a <= b.addr && End(b) <= z
  {
    var y := TiledSplit(s + [b], u, a, z);
    var x := TiledSplit(s, [b], a, y);
    assert [b][1..] == [];
    LinkedJoin(m, s + [b], u, 0);
    LinkedJoin(m, s, [b], NextFree(u, 0));
    NextFreeJoin(s + [b], u, 0);
    NextFreeJoin(s, [b], NextFree(u, 0));
    TiledBounds(u, End(b), z);
  }

  // ---------------------------------------------------------------- ecalloc

  /** Lines 112-142: a block taken whole, or cut in two when a header fits in what is left. */
  function Carve(b: Block, size: int): seq<Block>
  {
    if b.size - size < HDR then [b.(free := false)]
    else [Block(b.addr, size, false), Block(b.addr + HDR + size, b.size - size - HDR, true)]
  }

  /** The first free block that fits is carved. */
  function Allocate(s: seq<Block>, size: int): seq<Block>
  {
    if s == [] then [] else if s[0].free && s[0].size >= size then Carve(s[0], size) + s[1..]
    else [s[0]] + Allocate(s[1..], size)
  }

  predicate TooSmall(s: seq<Block>, size: int) { forall b :: b in s && b.free ==> b.size < size }

  lemma {:induction false} AllocateAt(s: seq<Block>, b: Block, u: seq<Block>, size: int)
    requires TooSmall(s, size) && b.free && b.size >= size
    ensures Allocate(s + [b] + u, size) == s + Carve(b, size) + u
  {
    var all := s + [b] + u;
    if s == [] {
      assert all[0] == b && all[1..] == u;
    } else {
      assert all[0] == s[0] && all[1..] == s[1..] + [b] + u;
      AllocateAt(s[1..], b, u, size);
    }
  }

  lemma {:induction false} AllocateNone(s: seq<Block>, size: int)
    requires TooSmall(s, size)
    ensures Allocate(s, size) == s
  {
    if s != [] { AllocateNone(s[1..], size); }
  }

  /** Lines 115-123: the block is taken out of the list. */
  lemma CarveWhole(m: Memory, first: int, s: seq<Block>, b: Block, u: seq<Block>, a: int, z: int)
    requires HeapOk(m, first, s + [b] + u, a, z) && b.free
    ensures b.addr in m
    ensures var (m', first') := SetLink(m, first, s, m[b.addr].next);
      HeapOk(m', first', s + [b.(free := false)] + u, a, z)
  {
    TakeApart(m, first, s, b, u, a, z);
    TiledBounds(u, End(b), z);
    var n, mid := m[b.addr].next, [b.(free := false)];
    assert NextFree([b], n) == b.addr && mid[1..] == [];
    SetLinkOk(m, first, s, a, b.addr, b.addr, n);
    hide SetLink;
    var (m', first') := SetLink(m, first, s, n);
    LinkedFrame(m, m', u, 0);
    Assemble(m', first', s, mid, u, a, b.addr, End(b), z);
  }

  /** Lines 129-141: a header is written in the block, which takes its place in the list. */
  lemma CarveSplit(m: Memory, first: int, s: seq<Block>, b: Block, u: seq<Block>, a: int, z: int, size: int)
    requires HeapOk(m, first, s + [b] + u, a, z) && b.free && 0 <= size <= b.size - HDR
    ensures b.addr in m
    ensures var x := b.addr + HDR + size;
      var m0 := m[x := Desc(b.size - size - HDR, m[b.addr].next)][b.addr := m[b.addr].(size := size)];
      var (m', first') := SetLink(m0, first, s, x);
      HeapOk(m', first', s + [Block(b.addr, size, false), Block(x, b.size - size - HDR, true)] + u, a, z)
  {
    TakeApart(m, first, s, b, u, a, z);
    TiledBounds(s, a, b.addr);
    TiledBounds(u, End(b), z);
    var n, x := m[b.addr].next, b.addr + HDR + size;
    var c, d := Block(b.addr, size, false), Block(x, b.size - size - HDR, true);
    assert NextFree([b], n) == b.addr;
    var m0 := m[x := Desc(d.size, n)][b.addr := m[b.addr].(size := size)];
    LinkedFrame(m, m0, s, b.addr);
    SetLinkOk(m0, first, s, a, b.addr, b.addr, x);
    hide SetLink;
    var (m', first') := SetLink(m0, first, s, x);
    LinkedFrame(m, m', u, 0);
    assert x in m' && m'[x] == Desc(d.size, n) && b.addr in m' && m'[b.addr].size == size;
    assert [c, d][1..] == [d] && [d][1..] == [];
    assert Tiled([d], x, End(b));
    assert NextFree([d], n) == x;
    assert Linked(m', [d], n);
    Assemble(m', first', s, [c, d], u, a, b.addr, End(b), z);
  }

  // ------------------------------------------------------------------- free

  /** Where the last free block is. */
  lemma {:induction false} SplitLast(s: seq<Block>, z: int) returns (v: seq<Block>, c: Block, w: seq<Block>)
    requires HasFree(s)
    ensures s == v + [c] + w && c.free && !HasFree(w) && LastFree(s, z) == c.addr
  {
    var k := |s| - 1;
    assert s == s[..k] + [s[k]];
    LastFreeJoin(s[..k], [s[k]], z);
    HasFreeJoin(s[..k], [s[k]]);
    assert [s[k]][1..] == [];
    if s[k].free {
      v, c, w := s[..k], s[k], [];
    } else {
      v, c, w := SplitLast(s[..k], z);
      assert s == v + [c] + (w + [s[k]]);
      HasFreeJoin(w, [s[k]]);
      w := w + [s[k]];
    }
  }

  /** The blocks after `b` is freed: joined to the free blocks it touches. */
  function Release(s: seq<Block>, b: Block, u: seq<Block>): seq<Block>
  {
    var left := s != [] && s[|s| - 1].free;
    var right := u != [] && u[0].free;
    var from := if left then s[|s| - 1].addr else b.addr;
    var to := if right then End(u[0]) else End(b);
    (if left then s[..|s| - 1] else s) + [Block(from, to - from - HDR, true)] + (if right then u[1..] else u)
  }

  /** Lines 187-237, once the walk has found the free blocks `j` before and `i` after the block at `info`. */
  function FreeMemory(m: Memory, first: int, j: int, i: int, info: int): (Memory, int)
    requires info in m && (first != 0 ==> j in m) && (i != 0 ==> i in m)
  {
    if first == 0 then (m[info := m[info].(next := 0)], info)
    else if m[j].size + j + HDR == info then
      if i != 0 && i != j && m[info].size + info + HDR == i then
        (m[j := Desc(m[j].size + m[info].size + m[i].size + 2 * HDR, m[i].next)], first)
      else (m[j := m[j].(size := m[j].size + m[info].size + HDR)], first)
    else if i != 0 && m[info].size + info + HDR == i then
      var m1 := m[info := Desc(m[info].size + m[i].size + HDR, m[i].next)];
      if first == i then (m1, info) else (m1[j := m[j].(next := info)], first)
    else
      (m[j := m[j].(next := info)][info := Desc(m[info].size, i)], first)
  }

  /** What a caller can see before the call: the freed block lies above a free one, touches one from
      below, or there is none. */
  predicate CanFree(s: seq<Block>, u: seq<Block>) { HasFree(s) || !HasFree(u) || TouchesRight(u) }

  /** One free block from `y` to `x` between the blocks `v` and `u`. */
  lemma MergeInto(m: Memory, first: int, v: seq<Block>, u: seq<Block>, a: int, y: int, x: int, z: int)
    requires 0 < a && Tiled(v, a, y) && Tiled(u, x, z) && y + HDR <= x
    requires Linked(m, v, y) && Linked(m, u, 0) && first == NextFree(v, y)
    requires y in m && m[y] == Desc(x - y - HDR, NextFree(u, 0))
    ensures HeapOk(m, first, v + [Block(y, x - y - HDR, true)] + u, a, z)
  {
    var d := Block(y, x - y - HDR, true);
    assert [d][1..] == [];
    Assemble(m, first, v, [d], u, a, y, x, z);
  }

  /** The free block `c` before `b` takes in everything up to `x`, where the list goes on with `u`. */
  lemma GrowLeft(m: Memory, first: int, v: seq<Block>, c: Block, t: seq<Block>, u: seq<Block>, a: int, x: int, z: int)
    requires HeapOk(m, first, v + [c] + (t + u), a, z) && c.free
    requires t != [] && x == End(t[|t| - 1])
    ensures c.addr in m && first != 0
    ensures HeapOk(m[c.addr := Desc(x - c.addr - HDR, NextFree(u, 0))], first,
                   v + [Block(c.addr, x - c.addr - HDR, true)] + u, a, z)
  {
    TakeApart(m, first, v, c, t + u, a, z);
    var y := TiledSplit(t, u, End(c), z);
    TiledBounds(u, x, z);
    TiledBounds(v, a, c.addr);
    LinkedJoin(m, t, u, 0);
    var m' := m[c.addr := Desc(x - c.addr - HDR, NextFree(u, 0))];
    LinkedFrame(m, m', v, c.addr);
    LinkedFrame(m, m', u, 0);
    MergeInto(m', first, v, u, a, c.addr, x, z);
    if HasFree(v) { SomethingFree(v, c.addr, 0); } else { NothingFree(m, v, c.addr, 0); }
  }

  /** The block `b` becomes a free block of its own that reaches up to `x`, where the list goes on
      with `u`. */
  lemma Insert(m: Memory, first: int, s: seq<Block>, b: Block, t: seq<Block>, u: seq<Block>, a: int, x: int, z: int)
    requires HeapOk(m, first, s + [b] + (t + u), a, z) && !b.free
    requires x == if t == [] then End(b) else End(t[|t| - 1])
    ensures b.addr in m
    ensures var (m', first') := SetLink(m[b.addr := Desc(x - b.addr - HDR, NextFree(u, 0))], first, s, b.addr);
      HeapOk(m', first', s + [Block(b.addr, x - b.addr - HDR, true)] + u, a, z)
  {
    TakeApart(m, first, s, b, t + u, a, z);
    var y := TiledSplit(t, u, End(b), z);
    TiledBounds(u, x, z);
    TiledBounds(s, a, b.addr);
    LinkedJoin(m, t, u, 0);
    var m1 := m[b.addr := Desc(x - b.addr - HDR, NextFree(u, 0))];
    assert [b][1..] == [] && NextFree([b], NextFree(t + u, 0)) == NextFree(t + u, 0);
    assert x - b.addr - HDR >= 0 && y == x;
    hide HeapOk, Tiled, Linked, NextFree;
    LinkedFrame(m, m1, s, NextFree(t + u, 0));
    SetLinkOk(m1, first, s, a, b.addr, NextFree(t + u, 0), b.addr);
    hide SetLink;
    var (m', first') := SetLink(m1, first, s, b.addr);
    LinkedFrame(m, m', u, 0);
    MergeInto(m', first', s, u, a, b.addr, x, z);
  }

  predicate TouchesRight(u: seq<Block>) { u != [] && u[0].free }
  predicate TouchesLeft(s: seq<Block>) { s != [] && s[|s| - 1].free }

  /** What the walk of lines 189-195 sees after the block `b`: the next free block above it. */
  predicate SeenAfter(m: Memory, b: Block, u: seq<Block>, i: int)
  {
    && (i == 0 ==> !TouchesRight(u)) && (i != 0 ==> i in m && m[i].size >= 0)
    && (i != 0 ==> End(b) <= i && (i == End(b) <==> TouchesRight(u)))
    && (TouchesRight(u) ==> i != 0 && i == u[0].addr && m[i] == Desc(u[0].size, NextFree(u[1..], 0)))
  }

  /** And before it: the last free block below it. */
  predicate SeenBefore(m: Memory, b: Block, s: seq<Block>, j: int, i: int)
  {
    && j in m && j < b.addr && (m[j].size + j + HDR == b.addr <==> TouchesLeft(s))
    && (TouchesLeft(s) ==> j == s[|s| - 1].addr && m[j] == Desc(s[|s| - 1].size, i))
  }

  lemma AfterBlock(m: Memory, first: int, s: seq<Block>, b: Block, u: seq<Block>, a: int, z: int)
    requires HeapOk(m, first, s + [b] + u, a, z)
    ensures SeenAfter(m, b, u, NextFree(u, 0)) && (HasFree(u) <==> NextFree(u, 0) != 0)
  {
    TakeApart(m, first, s, b, u, a, z);
    TiledBounds(u, End(b), z);
    if HasFree(u) {
      var v, c, w := SplitFree(u);
      NothingFree(m, v, c.addr, 0);
      NextFreeJoin(v + [c], w, 0);
      NextFreeJoin(v, [c], NextFree(w, 0));
      LinkedJoin(m, v + [c], w, 0);
      LinkedJoin(m, v, [c], NextFree(w, 0));
      assert NextFree(u, 0) == c.addr;
      assert c in u;
      if !u[0].free { NotTouching(u, End(b), z); }
    } else {
      NothingFree(m, u, 0, 0);
    }
  }

  lemma BeforeBlock(m: Memory, first: int, s: seq<Block>, b: Block, u: seq<Block>, a: int, z: int)
    requires HeapOk(m, first, s + [b] + u, a, z) && HasFree(s) && !b.free
    ensures first != 0 && LastFree(s, first) == LastFree(s, 0)
    ensures SeenBefore(m, b, s, LastFree(s, first), NextFree(u, 0))
  {
    var v, c, w := SplitLast(s, first);
    SomethingFree(s, first, 0);
    assert s + [b] + u == v + [c] + (w + [b] + u);
    TakeApart(m, first, v, c, w + [b] + u, a, z);
    TakeApart(m, first, s, b, u, a, z);
    if HasFree(v) { SomethingFree(v, c.addr, 0); } else { NothingFree(m, v, c.addr, 0); }
    TiledBounds(v, a, c.addr);
    var y := TiledSplit(v + [c], w, a, b.addr);
    TiledBounds(w, y, b.addr);
    NextFreeJoin(w + [b], u, 0);
    NextFreeJoin(w, [b], NextFree(u, 0));
    NothingFree(m, w, NextFree([b], NextFree(u, 0)), 0);
    assert [b][1..] == [];
    if w != [] { LastNotFree(w); }
  }

  lemma {:induction false} LastNotFree(w: seq<Block>)
    requires w != [] && !HasFree(w)
    ensures !w[|w| - 1].free
  {
    if |w| > 1 { LastNotFree(w[1..]); }
  }

  /** The case of a free block just before. */
  lemma FreeLeft(m: Memory, first: int, s: seq<Block>, b: Block, u: seq<Block>, a: int, z: int, j: int, i: int)
    requires HeapOk(m, first, s + [b] + u, a, z) && !b.free && TouchesLeft(s)
    requires b.addr in m && m[b.addr].size == b.size >= 0 && first != 0 && i == NextFree(u, 0)
    requires SeenAfter(m, b, u, i) && SeenBefore(m, b, s, j, i)
    ensures var (m', first') := FreeMemory(m, first, j, i, b.addr);
      HeapOk(m', first', Release(s, b, u), a, z)
  {
    hide HeapOk, NextFree;
    var v, c := s[..|s| - 1], s[|s| - 1];
    if TouchesRight(u) {
      var x := End(u[0]);
      assert s + [b] + u == v + [c] + ([b, u[0]] + u[1..]);
      GrowLeft(m, first, v, c, [b, u[0]], u[1..], a, x, z);
      assert FreeMemory(m, first, j, i, b.addr) == (m[j := Desc(x - j - HDR, NextFree(u[1..], 0))], first);
      assert Release(s, b, u) == v + [Block(j, x - j - HDR, true)] + u[1..];
    } else {
      assert s + [b] + u == v + [c] + ([b] + u);
      GrowLeft(m, first, v, c, [b], u, a, End(b), z);
      assert FreeMemory(m, first, j, i, b.addr) == (m[j := Desc(End(b) - j - HDR, i)], first);
      assert Release(s, b, u) == v + [Block(j, End(b) - j - HDR, true)] + u;
    }
  }

  /** The case of no free block just before. */
  lemma FreeAlone(m: Memory, first: int, s: seq<Block>, b: Block, u: seq<Block>, a: int, z: int, j: int, i: int)
    requires HeapOk(m, first, s + [b] + u, a, z) && !b.free && CanFree(s, u) && !TouchesLeft(s)
    requires b.addr in m && m[b.addr].size == b.size >= 0 && i == NextFree(u, 0) && (HasFree(u) <==> i != 0)
    requires SeenAfter(m, b, u, i)
    requires if HasFree(s) then first != 0 && j == LastFree(s, 0) && SeenBefore(m, b, s, j, i) else j == i == first
    requires first != i || first == 0 || !HasFree(s)
    ensures var (m', first') := FreeMemory(m, first, j, i, b.addr);
      HeapOk(m', first', Release(s, b, u), a, z)
  {
    hide HeapOk, NextFree, HasFree, LastFree;
    var x := if TouchesRight(u) then End(u[0]) else End(b);
    var t := if TouchesRight(u) then [u[0]] else [];
    var u' := if TouchesRight(u) then u[1..] else u;
    assert u == t + u';
    Insert(m, first, s, b, t, u', a, x, z);
    var m1 := m[b.addr := Desc(x - b.addr - HDR, NextFree(u', 0))];
    if HasFree(s) {
      assert m1[j := m1[j].(next := b.addr)] == m[j := m[j].(next := b.addr)][b.addr := m1[b.addr]];
    }
    assert FreeMemory(m, first, j, i, b.addr) == SetLink(m1, first, s, b.addr);
    assert Release(s, b, u) == s + [Block(b.addr, x - b.addr - HDR, true)] + u';
  }

  /** Freeing keeps the heap, with the freed block joined to its free neighbours, exactly when the
      block lies above a free one, touches one from below, or there is none. Otherwise the head of
      the list and the freed block point at each other. */
  lemma FreeExact(m: Memory, first: int, s: seq<Block>, b: Block, u: seq<Block>, a: int, z: int)
    requires HeapOk(m, first, s + [b] + u, a, z) && !b.free
    ensures var j, i := LastFree(s, first), NextFree(u, 0);
      && b.addr in m && (first != 0 ==> j in m) && (i != 0 ==> i in m)
      && var (m', first') := FreeMemory(m, first, j, i, b.addr);
      && (CanFree(s, u) ==> HeapOk(m', first', Release(s, b, u), a, z))
      && (!CanFree(s, u) ==>
            && first' > b.addr > 0 && first' in m' && b.addr in m'
            && m'[first'].next == b.addr && m'[b.addr].next == first')
  {
    var j, i := LastFree(s, first), NextFree(u, 0);
    AfterBlock(m, first, s, b, u, a, z);
    TakeApart(m, first, s, b, u, a, z);
    if HasFree(s) {
      BeforeBlock(m, first, s, b, u, a, z);
      FirstBelow(s, a, b.addr, NextFree([b], i));
      if TouchesLeft(s) { FreeLeft(m, first, s, b, u, a, z, j, i); }
      else { FreeAlone(m, first, s, b, u, a, z, j, i); }
    } else {
      assert [b][1..] == [];
      NothingFree(m, s, i, 0);
      NothingFree(m, s, first, 0);
      if s != [] { LastNotFree(s); }
      if CanFree(s, u) { FreeAlone(m, first, s, b, u, a, z, j, i); }
    }
  }

  lemma FirstBelow(s: seq<Block>, a: int, y: int, x: int)
    requires Tiled(s, a, y) && HasFree(s)
    ensures NextFree(s, x) < y
  {
    TiledBounds(s, a, y);
    SomethingFree(s, x, 0);
  }

  /** The first free block of `u` starts where `u` starts only if it is the first block. */
  lemma NotTouching(u: seq<Block>, x: int, z: int)
    requires Tiled(u, x, z) && HasFree(u) && !u[0].free
    ensures NextFree(u, 0) > x
  {
    TiledBounds(u, x, z);
    SomethingFree(u[1..], 0, 0);
  }

  // ------------------------------------------------------- what the blocks mean

  /** The addresses of the free blocks, in order. */
  function FreeAddrs(s: seq<Block>): seq<int>
  {
    if s == [] then [] else (if s[0].free then [s[0].addr] else []) + FreeAddrs(s[1..])
  }

  /** Following `next` from `p` visits the addresses of `l`, in that order, and ends. */
  predicate Chain(m: Memory, p: int, l: seq<int>)
    decreases l
  {
    if l == [] then p == 0 else p == l[0] && p in m && Chain(m, m[p].next, l[1..])
  }

  predicate Ascending(l: seq<int>) { |l| < 2 || (l[0] < l[1] && Ascending(l[1..])) }

  /** The free list is the free blocks, by increasing address; in particular it ends. */
  lemma {:induction false} FreeListOrdered(m: Memory, s: seq<Block>, a: int, z: int)
    requires Tiled(s, a, z) && Linked(m, s, 0)
    ensures Chain(m, NextFree(s, 0), FreeAddrs(s)) && Ascending(FreeAddrs(s))
    ensures FreeAddrs(s) != [] ==> a <= FreeAddrs(s)[0]
  {
    if s != [] {
      FreeListOrdered(m, s[1..], End(s[0]), z);
      if s[0].free {
        assert FreeAddrs(s)[0] == s[0].addr && FreeAddrs(s)[1..] == FreeAddrs(s[1..]);
      } else {
        assert FreeAddrs(s) == FreeAddrs(s[1..]);
      }
    }
  }

  /** A link of a heap leads upwards. */
  lemma NextRises(m: Memory, first: int, blocks: seq<Block>, a: int, z: int)
    requires HeapOk(m, first, blocks, a, z) && first != 0
    ensures first in m && (m[first].next == 0 || m[first].next > first)
  {
    FreeListOrdered(m, blocks, a, z);
    var l := FreeAddrs(blocks);
    assert Chain(m, m[first].next, l[1..]);
  }

  /** After a free the buffer is a heap again, however it is cut into blocks, exactly under `CanFree`. */
  lemma HeapIffCanFree(m: Memory, first: int, s: seq<Block>, b: Block, u: seq<Block>, a: int, z: int)
    requires HeapOk(m, first, s + [b] + u, a, z) && !b.free
    ensures var j, i := LastFree(s, first), NextFree(u, 0);
      && b.addr in m && (first != 0 ==> j in m) && (i != 0 ==> i in m)
      && var (m', first') := FreeMemory(m, first, j, i, b.addr);
      (exists blocks, a', z' :: HeapOk(m', first', blocks, a', z')) <==> CanFree(s, u)
  {
    FreeExact(m, first, s, b, u, a, z);
    hide HeapOk;
    var (m', first') := FreeMemory(m, first, LastFree(s, first), NextFree(u, 0), b.addr);
    if !CanFree(s, u) {
      forall blocks, a', z' ensures !HeapOk(m', first', blocks, a', z') {
        if HeapOk(m', first', blocks, a', z') {
          NextRises(m', first', blocks, a', z');
          assert false;
        }
      }
    }
  }

  /** Two allocations from a fresh heap and a free of the first one are enough to lose the list. */
  lemma TwoAllocationsOneFree()
    ensures var two := Allocate(Allocate([Block(16, 56, true)], 8), 8);
      && two == [Block(16, 8, false), Block(32, 8, false), Block(48, 24, true)]
      && !CanFree(two[..0], two[1..])
  {
    var b0, b1, b2, b3 := Block(16, 56, true), Block(16, 8, false), Block(32, 40, true), Block(32, 8, false);
    var b4 := Block(48, 24, true);
    assert Allocate([b0], 8) == Carve(b0, 8) + [b0][1..] == [b1, b2];
    assert [b1, b2][1..] == [b2] && [b2][1..] == [];
    assert Allocate([b2], 8) == Carve(b2, 8) + [] == [b3, b4];
    assert Allocate([b1, b2], 8) == [b1] + [b3, b4];
    assert [b1, b3, b4][1..] == [b3, b4] && [b3, b4][1..] == [b4];
    assert HasFree([b4]) && HasFree([b3, b4]);
  }

  lemma {:induction false} CoalescedJoin(s: seq<Block>, t: seq<Block>)
    ensures Coalesced(s + t) <==>
      Coalesced(s) && Coalesced(t) && (s != [] && t != [] ==> !(s[|s| - 1].free && t[0].free))
  {
    if s == [] { assert s + t == t; } else {
      assert (s + t)[1..] == s[1..] + t;
      CoalescedJoin(s[1..], t);
    }
  }

  /** Allocating keeps the buffer tiled and coalesced, and adds one live block of the size asked for. */
  lemma AllocateAdds(s: seq<Block>, b: Block, u: seq<Block>, size: int, a: int, z: int)
    requires Tiled(s + [b] + u, a, z) && Coalesced(s + [b] + u) && b.free && 0 <= size <= b.size
    ensures Tiled(s + Carve(b, size) + u, a, z) && Coalesced(s + Carve(b, size) + u)
    ensures var c := Carve(b, size)[0];
      && c.addr == b.addr && size <= c.size < size + HDR && !c.free && c !in Live(s + [b] + u)
      && Live(s + Carve(b, size) + u) == Live(s + [b] + u) + {c}
  {
    var mid := Carve(b, size);
    var x := TiledSplit(s + [b], u, a, z);
    var y := TiledSplit(s, [b], a, x);
    TiledBounds(s, a, y);
    TiledBounds(u, x, z);
    assert Tiled(mid, y, x) by {
      assert [b][1..] == [];
      if |mid| == 2 { assert mid[1..] == [mid[1]] && [mid[1]][1..] == []; }
    }
    TiledJoin(s, mid, a, y, x);
    TiledJoin(s + mid, u, a, x, z);
    CoalescedJoin(s + [b], u);
    CoalescedJoin(s, [b]);
    CoalescedJoin(s + mid, u);
    CoalescedJoin(s, mid);
    assert mid[1..] == if |mid| == 2 then [mid[1]] else [];
    var c := mid[0];
    forall e ensures e in Live(s + mid + u) <==> e in Live(s + [b] + u) + {c} {
      assert e in s + mid + u <==> e in s || e in mid || e in u;
      assert e in s + [b] + u <==> e in s || e == b || e in u;
    }
  }

  /** Freeing keeps the buffer coalesced. */
  lemma ReleaseCoalesces(s: seq<Block>, b: Block, u: seq<Block>)
    requires Coalesced(s + [b] + u)
    ensures Coalesced(Release(s, b, u))
  {
    hide Coalesced;
    var s' := if TouchesLeft(s) then s[..|s| - 1] else s;
    var u' := if TouchesRight(u) then u[1..] else u;
    var d := Release(s, b, u)[|s'|];
    CoalescedJoin(s + [b], u);
    CoalescedJoin(s, [b]);
    if TouchesLeft(s) {
      assert s == s' + [s[|s| - 1]];
      CoalescedJoin(s', [s[|s| - 1]]);
    }
    if TouchesRight(u) {
      assert u == [u[0]] + u';
      CoalescedJoin([u[0]], u');
    }
    CoalescedJoin(s' + [d], u');
    CoalescedJoin(s', [d]);
    CoalescedOne(d);
    assert Release(s, b, u) == s' + [d] + u';
  }

  lemma CoalescedOne(d: Block)
    ensures Coalesced([d])
  {
  }

  lemma LiveJoin(s: seq<Block>, b: Block, u: seq<Block>)
    ensures Live(s + [b] + u) == Live(s) + (if b.free then {} else {b}) + Live(u)
  {
    forall e ensures e in s + [b] + u <==> e in s || e == b || e in u {
    }
  }

  /** Freeing takes away the live block and no other. */
  lemma ReleaseRemoves(s: seq<Block>, b: Block, u: seq<Block>, a: int, z: int)
    requires Tiled(s + [b] + u, a, z) && !b.free
    ensures Live(Release(s, b, u)) == Live(s + [b] + u) - {b}
  {
    var s' := if TouchesLeft(s) then s[..|s| - 1] else s;
    var u' := if TouchesRight(u) then u[1..] else u;
    var d := Release(s, b, u)[|s'|];
    if TouchesLeft(s) { assert s == s' + [s[|s| - 1]] + []; LiveJoin(s', s[|s| - 1], []); }
    if TouchesRight(u) { assert u == [] + [u[0]] + u'; LiveJoin([], u[0], u'); }
    assert b !in Live(s) && b !in Live(u) by {
      var x := TiledSplit(s + [b], u, a, z);
      var y := TiledSplit(s, [b], a, x);
      TiledBounds(s, a, y);
      TiledBounds(u, x, z);
    }
    LiveJoin(s', d, u');
    LiveJoin(s, b, u);
  }

  // ------------------------------------------------------------------ the walk

  /** One step along the list, from the blocks `v` behind to the first free block of `w` ahead. */
  lemma WalkStep(m: Memory, first: int, v: seq<Block>, w: seq<Block>, a: int, z: int)
    returns (x: seq<Block>, c: Block, y: seq<Block>)
    requires HeapOk(m, first, v + w, a, z) && NextFree(w, 0) != 0
    ensures w == x + [c] + y && !HasFree(x) && c.free && NextFree(w, 0) == c.addr
    ensures c.addr in m && m[c.addr] == Desc(c.size, NextFree(y, 0)) && c.size >= 0
    ensures LastFree(v + x + [c], first) == c.addr && LastFree(v + x, first) == LastFree(v, first)
    ensures c.addr > 0
    ensures if HasFree(v + x) then first < c.addr && LastFree(v, first) == LastFree(v + x, 0) else first == c.addr
  {
    if !HasFree(w) { NothingFree(m, w, 0, 0); }
    x, c, y := SplitFree(w);
    assert v + w == (v + x) + [c] + y;
    TakeApart(m, first, v + x, c, y, a, z);
    NothingFree(m, x, c.addr, 0);
    NextFreeJoin(x + [c], y, 0);
    NextFreeJoin(x, [c], NextFree(y, 0));
    LastFreeJoin(v, x, first);
    NothingFree(m, x, LastFree(v, first), 0);
    LastFreeJoin(v + x, [c], first);
    assert [c][1..] == [];
    if HasFree(v + x) {
      FirstBelow(v + x, a, c.addr, c.addr);
      SomethingFree(v + x, first, 0);
    } else {
      NothingFree(m, v + x, c.addr, 0);
    }
  }

  lemma {:induction false} NoneFits(s: seq<Block>, size: int)
    requires !HasFree(s)
    ensures TooSmall(s, size)
  {
    if s != [] { NoneFits(s[1..], size); }
  }

  lemma WalkStart(m: Memory, first: int, blocks: seq<Block>, a: int, z: int, size: int)
    requires HeapOk(m, first, blocks, a, z)
    ensures first == NextFree(blocks, 0) && LastFree([], first) == first && TooSmall([], size)
  {
  }

  lemma TooSmallMore(v: seq<Block>, x: seq<Block>, c: Block, size: int)
    requires TooSmall(v, size) && TooSmall(x, size)
    ensures TooSmall(v + x, size) && (c.size < size ==> TooSmall(v + x + [c], size))
  {
  }

  /** The next free block `c` of `v + w`, after `v`, and what is known of the blocks `s` before it. */
  ghost predicate Fits(m: Memory, first: int, v: seq<Block>, w: seq<Block>, size: int,
                       s: seq<Block>, c: Block, u: seq<Block>)
  {
    && s + [c] + u == v + w && |u| < |w| && c.free && c.addr > 0 && NextFree(w, 0) == c.addr
    && c.addr in m && m[c.addr] == Desc(c.size, NextFree(u, 0))
    && TooSmall(s, size) && (c.size < size ==> TooSmall(s + [c], size))
    && LastFree(s + [c], first) == c.addr
    && (if HasFree(s) then first < c.addr && LastFree(v, first) == LastFree(s, 0) else first == c.addr)
  }

  lemma WalkFit(m: Memory, first: int, v: seq<Block>, w: seq<Block>, a: int, z: int, size: int)
    returns (s: seq<Block>, c: Block, u: seq<Block>)
    requires HeapOk(m, first, v + w, a, z) && NextFree(w, 0) != 0 && TooSmall(v, size)
    ensures Fits(m, first, v, w, size, s, c, u)
  {
    hide HeapOk, NextFree, LastFree, HasFree, TooSmall;
    var x;
    x, c, u := WalkStep(m, first, v, w, a, z);
    NoneFits(x, size);
    TooSmallMore(v, x, c, size);
    s := v + x;
    assert s + [c] + u == v + w;
  }

  lemma NextFreeNone(m: Memory, first: int, v: seq<Block>, w: seq<Block>, a: int, z: int)
    requires HeapOk(m, first, v + w, a, z) && NextFree(w, 0) == 0
    ensures !HasFree(w)
  {
    var y := TiledSplit(v, w, a, z);
    TiledBounds(w, y, z);
    if HasFree(w) { SomethingFree(w, 0, 0); }
  }

  // ------------------------------------------------------------------ the heap

  /** The live blocks are those there were, and the new block `c` after the header at `ptr - HDR`. */
  predicate Granted(before: seq<Block>, after: seq<Block>, ptr: int, size: int, c: Block)
  {
    && c.addr + HDR == ptr && size <= c.size < size + HDR
    && c !in Live(before) && Live(after) == Live(before) + {c}
  }

  /** The new block `c` lies where the first free block large enough did. */
  ghost predicate GivenAt(before: seq<Block>, after: seq<Block>, ptr: int, size: int, c: Block)
  {
    && Granted(before, after, ptr, size, c) && c in after
    && (exists b :: b in before && b.free && b.addr == c.addr && size <= b.size)
    && (forall b :: b in before && b.free && b.addr < c.addr ==> b.size < size)
  }

  /** `nelem * elsize` in 32 bits. */
  function Product(nelem: nat, elsize: nat): nat { nelem * elsize % 0x1_0000_0000 }

  lemma ProductIs(nelem: nat, elsize: nat)
    ensures Product(nelem, elsize) < 0x1_0000_0000
    ensures nelem * elsize < 0x1_0000_0000 <==> Product(nelem, elsize) == nelem * elsize
  {
    var p := nelem * elsize;
    if p < 0x1_0000_0000 { assert p % 0x1_0000_0000 == p; }
  }

  /** A block carved from the first free one that fits. */
  lemma FirstGiven(before: seq<Block>, after: seq<Block>, s: seq<Block>, b: Block, u: seq<Block>, size: int,
                   a: int, z: int)
    requires before == s + [b] + u && after == s + Carve(b, size) + u && Tiled(before, a, z) && Tiled(after, a, z)
    requires TooSmall(s, size) && b.free && 0 <= size <= b.size && 0 < a
    ensures var c := Carve(b, size)[0];
      && c in after && c.addr == b.addr && !c.free && c.size < z && b in before
      && forall d :: d in before && d.free && d.addr < c.addr ==> d.size < size
  {
    TiledOrder(before, a, z);
    TiledBounds(after, a, z);
    var c := Carve(b, size)[0];
    assert after[|s|] == c && before[|s|] == b;
    forall d | d in before && d.free && d.addr < c.addr ensures d.size < size {
      var i :| 0 <= i < |before| && before[i] == d;
      if i < |s| { assert d == s[i]; }
    }
  }

  lemma HeapTiled(m: Memory, first: int, blocks: seq<Block>, a: int, z: int)
    requires HeapOk(m, first, blocks, a, z)
    ensures Tiled(blocks, a, z) && 0 < a
  {
  }

  /** The addresses from `a` to `z`, exclusive, have the same sign as `int`. */
  predicate OneHalf(a: int, z: int) { z <= 0x8000_0000 || (0x8000_0000 <= a && z < 0x1_0000_0000) }

  /** The globals of the allocator. */
  class Heap {
    var upbound: int
    var downbound: int
    var first: int
    var mem: Memory
    ghost var blocks: seq<Block>

    ghost predicate Valid()
      reads this
    {
      HeapOk(mem, first, blocks, downbound, upbound) && Coalesced(blocks) && OneHalf(downbound, upbound)
    }

    /** `init_mem`. The buffer does not have the address 2^31 inside it, which would come first as an `int`. */
    constructor (buffer: int, size: int)
      requires 0 < buffer && HDR <= size && OneHalf(buffer, buffer + size)
      ensures Valid() && downbound == buffer && upbound == buffer + size
      ensures blocks == [Block(buffer, size - HDR, true)]
    {
      mem := map[buffer := Desc(size - HDR, 0)];
      first := buffer;
      upbound := buffer + size;
      downbound := buffer;
      blocks := [Block(buffer, size - HDR, true)];
      new;
      assert blocks[1..] == [];
    }

    /** `ecalloc`, without the zeroing of the block. The size is computed in 32 bits; when it fits, the block given is
        new, lies where a free block did, has the size asked for to within a header, and no free block below it has. */
    method Ecalloc(nelem: nat, elsize: nat) returns (ptr: int)
      requires Valid()
      modifies this`first, this`mem, this`blocks
      ensures Valid() && upbound == old(upbound) && downbound == old(downbound)
      ensures var size := Product(nelem, elsize);
        && blocks == Allocate(old(blocks), size)
        && (ptr == 0 <==> TooSmall(old(blocks), size))
        && (ptr == 0 ==> blocks == old(blocks))
        && (ptr != 0 ==> exists c :: Granted(old(blocks), blocks, ptr, size, c))
      ensures nelem * elsize < 0x1_0000_0000 ==>
        && (ptr == 0 <==> forall b :: b in old(blocks) && b.free ==> b.size < nelem * elsize)
        && (ptr != 0 ==> exists c :: GivenAt(old(blocks), blocks, ptr, nelem * elsize, c))
      // the block covers the request just when the size fits in 32 bits
      ensures ptr != 0 ==> exists c ::
        && c in blocks && c.addr + HDR == ptr && !c.free
        && (nelem * elsize <= c.size <==> nelem * elsize < 0x1_0000_0000)
    {
      var size := Product(nelem, elsize);
      ProductIs(nelem, elsize);
      hide HeapOk, NextFree, LastFree, HasFree, Allocate, Coalesced, Live, Product;
      var i, j;
      ghost var s, c, u;
      i, j, s, c, u := FindFit(size);
      if i == 0 {
        AllocateNone(blocks, size);
        return 0;
      }
      HeapTiled(mem, first, blocks, downbound, upbound);
      AllocateAt(s, c, u, size);
      AllocateAdds(s, c, u, size, downbound, upbound);
      Take(i, j, size, s, c, u);
      ptr := i + HDR;
      ghost var d := Carve(c, size)[0];
      HeapTiled(mem, first, blocks, downbound, upbound);
      FirstGiven(old(blocks), blocks, s, c, u, size, downbound, upbound);
      assert Granted(old(blocks), blocks, ptr, size, d);
      assert c in old(blocks) && !TooSmall(old(blocks), size);
      assert nelem * elsize < 0x1_0000_0000 ==> GivenAt(old(blocks), blocks, ptr, nelem * elsize, d);
      assert d in blocks && d.addr + HDR == ptr && !d.free && d.size < 0x1_0000_0000;
    }

    /** Lines 94-102: the first free block that fits, and the free block before it. */
    method FindFit(size: int) returns (i: int, j: int, ghost s: seq<Block>, ghost c: Block, ghost u: seq<Block>)
      requires HeapOk(mem, first, blocks, downbound, upbound)
      ensures i == 0 ==> TooSmall(blocks, size)
      ensures i != 0 ==>
        && blocks == s + [c] + u && TooSmall(s, size) && c.free && c.addr == i > 0 && size <= c.size
        && i in mem && mem[i].size == c.size
        && (if HasFree(s) then first < i && j == LastFree(s, 0) else first == i)
    {
      hide HeapOk, NextFree, LastFree, HasFree, TooSmall;
      i, j := first, first;
      s, c, u := [], Block(0, 0, true), [];
      ghost var v, w := [], blocks;
      WalkStart(mem, first, blocks, downbound, upbound, size);
      assert v + w == blocks;
      if i != 0 { s, c, u := WalkFit(mem, first, v, w, downbound, upbound, size); }
      while i != 0 && mem[i].size < size
        invariant v + w == blocks && i == NextFree(w, 0)
        invariant TooSmall(v, size) && j == LastFree(v, first)
        invariant i != 0 ==> Fits(mem, first, v, w, size, s, c, u)
        decreases |w|
      {
        j := i;
        i := mem[i].next;
        v, w := s + [c], u;
        if i != 0 { s, c, u := WalkFit(mem, first, v, w, downbound, upbound, size); }
      }
      if i == 0 {
        NextFreeNone(mem, first, v, w, downbound, upbound);
        NoneFits(w, size);
        TooSmallMore(v, w, c, size);
      }
    }

    /** Lines 112-142: the block at `i` is taken, `j` being the free block before it. */
    method Take(i: int, j: int, size: int, ghost s: seq<Block>, ghost c: Block, ghost u: seq<Block>)
      requires HeapOk(mem, first, blocks, downbound, upbound) && blocks == s + [c] + u
      requires c.free && c.addr == i && i in mem && mem[i].size == c.size && 0 <= size <= c.size
      requires if HasFree(s) then first < i && j == LastFree(s, 0) else first == i
      modifies this`first, this`mem, this`blocks
      ensures HeapOk(mem, first, blocks, downbound, upbound)
      ensures blocks == s + Carve(c, size) + u
    {
      if HasFree(s) { LinkedHas(mem, s, c, u, first, downbound, upbound); }
      ghost var m := mem;
      if mem[i].size - size < HDR {
        CarveWhole(mem, first, s, c, u, downbound, upbound);
        if i == first {
          first := mem[i].next;
        } else {
          mem := mem[j := mem[j].(next := mem[i].next)];
        }
      } else {
        CarveSplit(mem, first, s, c, u, downbound, upbound, size);
        var x := i + HDR + size;
        mem := mem[x := Desc(mem[i].size - size - HDR, mem[i].next)];
        if i == first {
          first := x;
        } else {
          mem := mem[j := mem[j].(next := x)];
        }
        mem := mem[i := mem[i].(size := size)];
        assert HasFree(s) ==>
          mem == m[x := Desc(c.size - size - HDR, m[i].next)][i := m[i].(size := size)][j := m[j].(next := x)];
      }
      blocks := s + Carve(c, size) + u;
    }

    /** `free`, of the block `blocks[k]` or of an address outside the buffer, which it ignores. It keeps
        the heap exactly when `CanFree` says so; otherwise it leaves a list that goes round. */
    method Free(ptr: int, ghost k: nat)
      requires Valid()
      requires downbound <= ptr <= upbound ==> k < |blocks| && !blocks[k].free && blocks[k].addr + HDR == ptr
      modifies this`first, this`mem, this`blocks
      ensures !(downbound <= ptr <= upbound) ==> unchanged(this)
      ensures downbound <= ptr <= upbound ==>
        var s, b, u := old(blocks)[..k], old(blocks)[k], old(blocks)[k + 1..];
        if CanFree(s, u) then
          && Valid() && blocks == Release(s, b, u)
          && Live(blocks) == Live(old(blocks)) - {b}
        else
          && first in mem && b.addr in mem && first > b.addr > 0
          && mem[first].next == b.addr && mem[b.addr].next == first
    {
      if ptr < downbound || ptr > upbound { return; }
      var info := ptr - HDR;
      ghost var s, b, u := blocks[..k], blocks[k], blocks[k + 1..];
      assert blocks == s + [b] + u;
      FreeExact(mem, first, s, b, u, downbound, upbound);
      ReleaseCoalesces(s, b, u);
      ReleaseRemoves(s, b, u, downbound, upbound);
      TakeApart(mem, first, s, b, u, downbound, upbound);
      hide HeapOk, Release, CanFree, FreeMemory, Live;
      var i, j := 0, 0;
      if first != 0 { i, j := FindPlace(info, s, b, u); }
      else { EmptyList(mem, first, s, b, u, downbound, upbound); }
      Link(i, j, info);
      blocks := Release(s, b, u);
    }

    /** Lines 187-237, with the places found. */
    method Link(i: int, j: int, info: int)
      requires info in mem && (i != 0 ==> i in mem && i != info)
      requires first != 0 ==> j in mem && j != info && (j == i ==> first == i)
      modifies this`first, this`mem
      ensures info in old(mem) && (old(first) != 0 ==> j in old(mem)) && (i != 0 ==> i in old(mem))
      ensures (mem, first) == FreeMemory(old(mem), old(first), j, i, info)
    {
      if first != 0 {
        if mem[j].size + j + HDR == info {
          if i != 0 && i != j && mem[info].size + info + HDR == i {
            mem := mem[j := mem[j].(size := mem[j].size + mem[info].size + mem[i].size + HDR * 2)];
            mem := mem[j := mem[j].(next := mem[i].next)];
            assert mem == old(mem)[j := mem[j]];
          } else {
            mem := mem[j := mem[j].(size := mem[j].size + mem[info].size + HDR)];
          }
        } else if i != 0 && mem[info].size + info + HDR == i {
          if first == i {
            first := info;
          } else {
            mem := mem[j := mem[j].(next := info)];
          }
          mem := mem[info := mem[info].(next := mem[i].next)];
          mem := mem[info := mem[info].(size := mem[info].size + mem[i].size + HDR)];
          assert first == old(first) ==> mem == old(mem)[info := mem[info]][j := mem[j]];
          assert first != old(first) ==> mem == old(mem)[info := mem[info]];
        } else {
          mem := mem[j := mem[j].(next := info)];
          mem := mem[info := mem[info].(next := i)];
        }
      } else {
        mem := mem[info := mem[info].(next := 0)];
        first := info;
      }
    }

    /** Lines 189-195: the walk to the free blocks around the one at `info`. */
    method FindPlace(info: int, ghost s: seq<Block>, ghost b: Block, ghost u: seq<Block>) returns (i: int, j: int)
      requires HeapOk(mem, first, blocks, downbound, upbound) && blocks == s + [b] + u
      requires !b.free && b.addr == info && first != 0 && OneHalf(downbound, upbound)
      ensures j == LastFree(s, first) && i == NextFree(u, 0)
      ensures j in mem && j != info && (j == i ==> first == i) && (i != 0 ==> i in mem && i != info)
    {
      FoundPlaces(mem, first, s, b, u, downbound, upbound);
      i, j := first, first;
      TakeApart(mem, first, s, b, u, downbound, upbound);
      assert [b][1..] == [];
      ghost var v, w := [], s;
      assert first == NextFree(w, NextFree(u, 0)) && j == LastFree(v, first) && v + w == s;
      hide HeapOk, NextFree, LastFree, HasFree;
      hide Signed;
      BeyondSigned(mem, first, v, w, b, u, downbound, upbound);
      while i != 0 && Signed(i) < Signed(info)
        invariant v + w == s && i == NextFree(w, NextFree(u, 0)) && j == LastFree(v, first)
        invariant HasFree(w) <==> i != 0 && Signed(i) < Signed(info)
        decreases |w|
      {
        ghost var x, c, y := SplitFree(w);
        assert v + w == v + (x + [c] + y);
        PassBlock(mem, first, v, x, c, y, b, u, downbound, upbound);
        j := i;
        i := mem[i].next;
        assert s == v + x + [c] + y;
        v, w := v + x + [c], y;
        BeyondSigned(mem, first, v, w, b, u, downbound, upbound);
      }
      assert v + w == s;
      NothingFree(mem, w, NextFree(u, 0), 0);
      LastFreeJoin(v, w, first);
      NothingFree(mem, w, LastFree(v, first), 0);
    }
  }

  /** 65536 elements of 65536 bytes: the size is 0 in 32 bits, and a heap of 1000 bytes gives out a block for them. */
  method EcallocTooSmall() returns (h: Heap, ptr: int)
    ensures fresh(h) && ptr != 0
    ensures exists c :: c in h.blocks && c.addr + HDR == ptr && c.size < HDR < 0x10000 * 0x10000
  {
    h := new Heap(16, 1000);
    assert h.blocks[0].free && h.blocks[0] in h.blocks;
    assert Product(0x10000, 0x10000) == 0;
    ptr := h.Ecalloc(0x10000, 0x10000);
    ghost var c :| Granted([Block(16, 992, true)], h.blocks, ptr, 0, c);
    assert c in Live(h.blocks);
  }

  /** The places the walk finds are in memory, and not the block itself. */
  lemma FoundPlaces(m: Memory, first: int, s: seq<Block>, b: Block, u: seq<Block>, a: int, z: int)
    requires HeapOk(m, first, s + [b] + u, a, z) && !b.free && first != 0
    ensures var j, i := LastFree(s, first), NextFree(u, 0);
      j in m && j != b.addr && (j == i ==> first == i) && (i != 0 ==> i in m && i != b.addr)
  {
    AfterBlock(m, first, s, b, u, a, z);
    TakeApart(m, first, s, b, u, a, z);
    if HasFree(s) {
      BeforeBlock(m, first, s, b, u, a, z);
      SomethingFree(s, first, 0);
      TiledBounds(s, a, b.addr);
    } else {
      assert [b][1..] == [];
      NothingFree(m, s, NextFree(u, 0), 0);
      NothingFree(m, s, first, 0);
    }
  }

  /** An empty list is one without free blocks, and the walk does not start. */
  lemma EmptyList(m: Memory, first: int, s: seq<Block>, b: Block, u: seq<Block>, a: int, z: int)
    requires HeapOk(m, first, s + [b] + u, a, z) && first == 0
    ensures NextFree(u, 0) == 0 && LastFree(s, first) == 0
  {
    AfterBlock(m, first, s, b, u, a, z);
    TakeApart(m, first, s, b, u, a, z);
    if HasFree(s) {
      SomethingFree(s, NextFree([b], NextFree(u, 0)), 0);
      TiledBounds(s, a, b.addr);
      assert false;
    } else {
      NothingFree(m, s, NextFree([b], NextFree(u, 0)), 0);
      NothingFree(m, s, 0, 0);
      assert [b][1..] == [];
    }
  }

  /** The walk is below the block `b` exactly while there are free blocks ahead of it. */
  lemma BeyondBlock(m: Memory, first: int, v: seq<Block>, w: seq<Block>, b: Block, u: seq<Block>, a: int, z: int)
    requires HeapOk(m, first, v + w + [b] + u, a, z)
    ensures var i := NextFree(w, NextFree(u, 0)); HasFree(w) <==> i != 0 && i < b.addr
  {
    AfterBlock(m, first, v + w, b, u, a, z);
    TakeApart(m, first, v + w, b, u, a, z);
    var y := TiledSplit(v, w, a, b.addr);
    if HasFree(w) {
      FirstBelow(w, y, b.addr, NextFree(u, 0));
      SomethingFree(w, NextFree(u, 0), 0);
      TiledBounds(w, y, b.addr);
      TiledBounds(v, a, y);
    } else {
      NothingFree(m, w, NextFree(u, 0), 0);
    }
  }

  /** The same with addresses compared as `int`, as line 191 does. */
  lemma BeyondSigned(m: Memory, first: int, v: seq<Block>, w: seq<Block>, b: Block, u: seq<Block>, a: int, z: int)
    requires HeapOk(m, first, v + w + [b] + u, a, z) && OneHalf(a, z)
    ensures var i := NextFree(w, NextFree(u, 0)); HasFree(w) <==> i != 0 && Signed(i) < Signed(b.addr)
  {
    hide Signed;
    var i := NextFree(w, NextFree(u, 0));
    BeyondBlock(m, first, v, w, b, u, a, z);
    PlaceInside(m, first, v, w, b, u, a, z);
    hide HeapOk, NextFree, HasFree;
    if i != 0 { SignedOrder(i, b.addr); }
  }

  lemma PlaceInside(m: Memory, first: int, v: seq<Block>, w: seq<Block>, b: Block, u: seq<Block>, a: int, z: int)
    requires HeapOk(m, first, v + w + [b] + u, a, z)
    ensures var i := NextFree(w, NextFree(u, 0)); 0 < a <= b.addr < z && (i != 0 ==> a <= i < z)
  {
    TakeApart(m, first, v + w, b, u, a, z);
    var y := TiledSplit(v, w, a, b.addr);
    TiledBounds(w, y, b.addr);
    TiledBounds(u, End(b), z);
    TiledBounds(v, a, y);
    if HasFree(w) {
      SomethingFree(w, NextFree(u, 0), 0);
    } else {
      NothingFree(m, w, NextFree(u, 0), 0);
      if HasFree(u) { SomethingFree(u, 0, 0); } else { NothingFree(m, u, 0, 0); }
    }
  }

  /** Passing the free block `c` on the way to `b`. */
  lemma PassBlock(m: Memory, first: int, v: seq<Block>, x: seq<Block>, c: Block, y: seq<Block>,
                  b: Block, u: seq<Block>, a: int, z: int)
    requires HeapOk(m, first, v + (x + [c] + y) + [b] + u, a, z) && !HasFree(x) && c.free && !b.free
    ensures NextFree(x + [c] + y, NextFree(u, 0)) == c.addr
    ensures c.addr in m && m[c.addr].next == NextFree(y, NextFree(u, 0))
    ensures LastFree(v + x + [c], first) == c.addr
  {
    assert v + (x + [c] + y) + [b] + u == (v + x) + [c] + (y + [b] + u);
    TakeApart(m, first, v + x, c, y + [b] + u, a, z);
    NextFreeJoin(y + [b], u, 0);
    NextFreeJoin(y, [b], NextFree(u, 0));
    NextFreeJoin(x + [c], y, NextFree(u, 0));
    NextFreeJoin(x, [c], NextFree(y, NextFree(u, 0)));
    NothingFree(m, x, c.addr, 0);
    LastFreeJoin(v + x, [c], first);
    assert [c][1..] == [] && [b][1..] == [];
  }

  /** The last free block before a place is in memory, below it. */
  lemma LinkedHas(m: Memory, s: seq<Block>, b: Block, u: seq<Block>, first: int, a: int, z: int)
    requires HeapOk(m, first, s + [b] + u, a, z) && HasFree(s)
    ensures LastFree(s, 0) in m && LastFree(s, 0) < b.addr
  {
    TakeApart(m, first, s, b, u, a, z);
    Relink(m, s, a, b.addr, NextFree([b], NextFree(u, 0)), 0);
  }
}
