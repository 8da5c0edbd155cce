/**
 The PRD list builder for PCI bus-master DMA, asgard/services/atac/ATAIOPCI.C (sections 1 to 5
 of T13 1510D). Physical addresses are natural numbers; the masks of the original are written
 as the divisions they stand for, since no sum here reaches 32 bits.
 */
module PrdList {
  import opened Arithmetic

  const SEG: nat := 0x10000            // a region may not cross a multiple of this
  const MAX_TRANSFER_SIZE: nat := 262144
  const MAX_SEG: nat := MAX_TRANSFER_SIZE / 0x10000 + 2
  const MAX_PRD: nat := MAX_SEG * 4
  const PRD_BUF_SIZE: nat := 48 + 2 * MAX_PRD * 8
  const LARGE_PRD: nat := 512
  const EOT: nat := 0x80000000

  datatype Kind = SIMPLE | COMPLEX | LARGE

  /** `x & 0xffff0000`. */
  function SegmentBase(x: nat): nat { x - x % 0x10000 }

  /** The address a real-mode pointer stands for, made even (lines 193-196). */
  function PhysAddr(seg: nat, off: nat): nat { (seg * 16 + off) / 2 * 2 }

  /** `(timer & 0xfe) + 2` and `65536 - small - (timer & 0x0e)`: lines 187-188. */
  function SmallCnt(kind: Kind, timer: nat): nat { if kind == COMPLEX then timer / 2 % 128 * 2 + 2 else SEG }
  function BigCnt(kind: Kind, timer: nat): nat
  {
    if kind == COMPLEX then SEG - SmallCnt(kind, timer) - timer / 2 % 8 * 2 else SEG
  }

  function MaxPrd(kind: Kind): nat { if kind == LARGE then LARGE_PRD else MAX_PRD }

  /** A piece of memory one entry describes. */
  datatype Region = Region(addr: nat, len: nat)

  /** The parameters of one list: counts asked for, and whether all entries share one address. */
  datatype Plan = Plan(big: nat, small: nat, large: bool)

  function PlanOf(kind: Kind, timer: nat): Plan
  {
    Plan(BigCnt(kind, timer), SmallCnt(kind, timer), kind == LARGE)
  }

  predicate Proper(p: Plan) { 0 < p.big <= SEG && 0 < p.small <= SEG }

  /** The count asked for in an entry whose number is `n` modulo 4: one in four is big (lines 229-232). */
  function Want(p: Plan, n: nat): nat { if n == 2 then p.big else p.small }

  function Turn(n: nat): nat { if n >= 3 then 0 else n + 1 }

  /** Bytes from `addr` to the end of its segment. */
  function Room(addr: nat): nat { SEG - addr % 0x10000 }

  /** The bytes entry `n` covers: what is asked for, what is left, or what fits in the segment. */
  function Len(p: Plan, addr: nat, bc: nat, n: nat): nat { Min(Min(Want(p, n), bc), Room(addr)) }

  /** The regions of the list, from an entry whose number is `n` modulo 4 on. */
  function Build(p: Plan, addr: nat, bc: nat, n: nat): seq<Region>
    requires Proper(p)
    decreases bc
  {
    if bc == 0 then []
    else
      var len := Len(p, addr, bc, n);
      [Region(addr, len)] + Build(p, if p.large then addr else addr + len, bc - len, Turn(n))
  }

  /** The address itself if it is even, and otherwise the one below it. */
  function EvenAddress(x: nat): nat { if x % 2 == 0 then x else x - 1 }

  lemma PhysAddrIs(seg: nat, off: nat)
    ensures PhysAddr(seg, off) == EvenAddress(seg * 16 + off)
  {
    var x := seg * 16 + off;
    assert x == 2 * (x / 2) + x % 2;
  }

  /** Only COMPLEX lists ask for less than 64K. Their small count is two more than the low byte of the timer, less its
      lowest bit; the big one is the rest of 64K less the low four bits, without the lowest; and they are moved by the
      low four bits without the lowest two. */
  lemma CountsFromTimer(kind: Kind, timer: nat)
    ensures kind != COMPLEX ==>
      SmallCnt(kind, timer) == BigCnt(kind, timer) == 65536 && Shift(kind, timer) == 0
    ensures kind == COMPLEX ==>
      && SmallCnt(kind, timer) == EvenAddress(timer % 256) + 2
      && BigCnt(kind, timer) + SmallCnt(kind, timer) + EvenAddress(timer % 16) == 65536
      && Shift(kind, timer) % 4 == 0 && Shift(kind, timer) <= timer % 16 < Shift(kind, timer) + 4
  {
    var h, q := timer / 2, timer / 4;
    LowEven(timer, 128, h / 128, h % 128);
    LowEven(timer, 8, h / 8, h % 8);
    LowQuarter(timer, q / 4, q % 4);
  }

  /** The low bits of a number, without the lowest one. */
  lemma LowEven(x: nat, m: nat, q: nat, r: nat)
    requires m == 128 || m == 8
    requires x / 2 == m * q + r && r < m
    ensures EvenAddress(x % (2 * m)) == 2 * r
  {
    var b := x % 2;
    if m == 128 { LowByte(x, q, 2 * r + b); } else { LowFour(x, q, 2 * r + b); }
    EvenOf(r, b);
  }

  lemma EvenOf(r: nat, b: nat)
    requires b < 2
    ensures EvenAddress(2 * r + b) == 2 * r
  {
  }

  lemma LowByte(x: nat, q: nat, r: nat)
    requires x == 256 * q + r && r < 256
    ensures x % 256 == r
  {
  }

  lemma LowFour(x: nat, q: nat, r: nat)
    requires x == 16 * q + r && r < 16
    ensures x % 16 == r
  {
  }

  lemma LowQuarter(x: nat, q: nat, r: nat)
    requires x / 4 == 4 * q + r && r < 4
    ensures 4 * r <= x % 16 < 4 * r + 4
  {
    LowFour(x, q, 4 * r + x % 4);
  }

  lemma PlanProper(kind: Kind, timer: nat)
    ensures Proper(PlanOf(kind, timer))
    ensures forall n: nat :: Want(PlanOf(kind, timer), n) % 2 == 0
  {
  }

  // ---------------------------------------------------------- the list in memory

  /** The second word of an entry: the count modulo 65536, and the end bit. */
  function CountWord(len: nat, last: bool): nat { len % 0x10000 + if last then EOT else 0 }

  /** The words the loop stores. */
  function Words(l: seq<Region>): seq<nat>
  {
    if l == [] then [] else [l[0].addr, CountWord(l[0].len, |l| == 1)] + Words(l[1..])
  }

  /** A count of 0 means 65536. */
  function ReadCount(w: nat): nat { if w % 0x10000 == 0 then SEG else w % 0x10000 }

  /** How the controller reads a list: up to the first end bit. */
  function Decode(w: seq<nat>): seq<Region>
  {
    if |w| < 2 then []
    else
      var r := Region(w[0], ReadCount(w[1]));
      if w[1] >= EOT then [r] else [r] + Decode(w[2..])
  }

  ghost predicate Fitting(l: seq<Region>) { forall i :: 0 <= i < |l| ==> 0 < l[i].len <= SEG }

  lemma CountReads(len: nat, last: bool)
    requires 0 < len <= SEG
    ensures ReadCount(CountWord(len, last)) == len && (CountWord(len, last) >= EOT <==> last)
  {
    assert (len % 0x10000 + EOT) % 0x10000 == len % 0x10000;
  }

  /** The controller sees exactly the regions of the list, whatever the table holds after it. */
  lemma {:induction false} DecodeWords(l: seq<Region>, junk: seq<nat>)
    requires l != [] && Fitting(l)
    ensures Decode(Words(l) + junk) == l
  {
    hide CountWord, ReadCount;
    var w := Words(l) + junk;
    assert w[0] == l[0].addr && w[1] == CountWord(l[0].len, |l| == 1);
    assert l == [l[0]] + l[1..];
    CountReads(l[0].len, |l| == 1);
    if |l| > 1 {
      DecodeWords(l[1..], junk);
      assert w[2..] == Words(l[1..]) + junk;
    }
  }

  // ---------------------------------------------------------------- tiling

  /** The regions of `l` lie end to end from `a` to `b`. */
  predicate Tiles(l: seq<Region>, a: nat, b: nat)
  {
    if l == [] then a == b else l[0].addr == a && Tiles(l[1..], a + l[0].len, b)
  }

  predicate Inside(r: Region) { 0 < r.len <= SEG && r.addr / 0x10000 == (r.addr + r.len - 1) / 0x10000 }

  ghost predicate WithinSegments(l: seq<Region>) { forall i :: 0 <= i < |l| ==> Inside(l[i]) }

  ghost predicate WordAligned(l: seq<Region>)
  {
    forall i :: 0 <= i < |l| ==> l[i].addr % 2 == 0 && l[i].len % 2 == 0
  }

  /** Where an address lands after `len` bytes that stay in its segment. */
  lemma Advance(addr: nat, len: nat)
    requires 0 < len <= Room(addr)
    ensures Inside(Region(addr, len))
    ensures len == Room(addr) ==> (addr + len) / 0x10000 == addr / 0x10000 + 1 && Room(addr + len) == SEG
    ensures len < Room(addr) ==> (addr + len) / 0x10000 == addr / 0x10000 && Room(addr + len) == Room(addr) - len
  {
  }

  lemma EvenRoom(addr: nat)
    requires addr % 2 == 0
    ensures Room(addr) % 2 == 0
  {
    assert addr == SEG * (addr / 0x10000) + addr % 0x10000;
  }

  /** The list covers the transfer exactly, and no region crosses a 64K boundary. */
  lemma {:induction false} BuildTiles(p: Plan, addr: nat, bc: nat, n: nat)
    requires Proper(p) && !p.large
    ensures Tiles(Build(p, addr, bc, n), addr, addr + bc)
    ensures WithinSegments(Build(p, addr, bc, n))
    decreases bc
  {
    if bc > 0 {
      var len := Len(p, addr, bc, n);
      Advance(addr, len);
      BuildTiles(p, addr + len, bc - len, Turn(n));
      assert Build(p, addr, bc, n)[1..] == Build(p, addr + len, bc - len, Turn(n));
    }
  }

  lemma {:induction false} BuildAligned(p: Plan, addr: nat, bc: nat, n: nat)
    requires Proper(p) && !p.large && addr % 2 == 0 && bc % 2 == 0
    requires forall k: nat :: Want(p, k) % 2 == 0
    ensures WordAligned(Build(p, addr, bc, n))
    decreases bc
  {
    if bc > 0 {
      var len := Len(p, addr, bc, n);
      EvenRoom(addr);
      assert len % 2 == 0;
      BuildAligned(p, addr + len, bc - len, Turn(n));
    }
  }

  /** Entry `i` of a list starts where those before it end, and its count is the least of the one in four that is asked
      for in entry `q`, what they leave, and the way to the end of the segment. */
  predicate CountsAt(p: Plan, l: seq<Region>, addr: nat, bc: nat, q: nat, i: nat)
    requires i < |l|
  {
    var before := Total(l[..i]);
    && before <= bc && l[i].addr == (if p.large then addr else addr + before)
    && l[i].len == Min(Min(if q % 4 == 2 then p.big else p.small, bc - before), SEG - l[i].addr % 0x10000)
  }

  /** So is every entry. */
  lemma {:induction false} EntryCounts(p: Plan, addr: nat, bc: nat, n: nat, i: nat)
    requires Proper(p) && n < 4 && i < |Build(p, addr, bc, n)|
    ensures CountsAt(p, Build(p, addr, bc, n), addr, bc, n + i, i)
    decreases i
  {
    hide *;
    var l, len := Build(p, addr, bc, n), Len(p, addr, bc, n);
    HeadOf(p, addr, bc, n);
    if i == 0 {
      CountsFirst(p, l, addr, bc, n);
    } else {
      var addr' := if p.large then addr else addr + len;
      var rest := Build(p, addr', bc - len, Turn(n));
      TurnIs(n, i);
      EntryCounts(p, addr', bc - len, Turn(n), i - 1);
      CountsNext(p, l, rest, addr, len, bc, Turn(n) + (i - 1), n + i, i);
    }
  }

  lemma CountsFirst(p: Plan, l: seq<Region>, addr: nat, bc: nat, n: nat)
    requires l != [] && l[0] == Region(addr, Len(p, addr, bc, n)) && n < 4
    ensures CountsAt(p, l, addr, bc, n, 0)
  {
    assert l[..0] == [];
  }

  lemma CountsNext(p: Plan, l: seq<Region>, rest: seq<Region>, addr: nat, len: nat, bc: nat, q: nat, q': nat, i: nat)
    requires l == [Region(addr, len)] + rest && len <= bc && 0 < i < |l| && q % 4 == q' % 4
    requires CountsAt(p, rest, if p.large then addr else addr + len, bc - len, q, i - 1)
    ensures CountsAt(p, l, addr, bc, q', i)
  {
    hide Min;
    assert l[i] == rest[i - 1] && l[..i][0] == l[0] && l[..i][1..] == rest[..i - 1];
  }

  lemma HeadOf(p: Plan, addr: nat, bc: nat, n: nat)
    requires Proper(p) && Build(p, addr, bc, n) != []
    ensures var len := Len(p, addr, bc, n);
      && 0 < len <= bc
      && Build(p, addr, bc, n)
        == [Region(addr, len)] + Build(p, if p.large then addr else addr + len, bc - len, Turn(n))
  {
  }

  lemma TurnIs(n: nat, i: nat)
    requires n < 4 && 0 < i
    ensures Turn(n) < 4 && (n + i) % 4 == (Turn(n) + (i - 1)) % 4
  {
  }

  // -------------------------------------------------------------- counting

  /** What the `k` entries from `n` on ask for in all. */
  function Wanted(p: Plan, n: nat, k: nat): nat
    decreases k
  {
    if k == 0 then 0 else Want(p, n) + Wanted(p, Turn(n), k - 1)
  }

  /** Four entries in a row ask for a whole segment. */
  predicate FourFill(p: Plan) { p.big + 3 * p.small >= SEG }

  lemma WantedFour(p: Plan, n: nat)
    requires FourFill(p)
    ensures Wanted(p, n, 4) >= SEG
  {
    var n1, n2, n3 := Turn(n), Turn(Turn(n)), Turn(Turn(Turn(n)));
    assert Wanted(p, n3, 1) == Want(p, n3) && Wanted(p, n2, 2) == Want(p, n2) + Wanted(p, n3, 1);
    assert Wanted(p, n1, 3) == Want(p, n1) + Wanted(p, n2, 2);
  }

  lemma PlanFourFill(kind: Kind, timer: nat)
    ensures FourFill(PlanOf(kind, timer))
  {
    LowBits(timer / 2);
  }

  lemma LowBits(h: nat)
    ensures h % 8 <= h % 128
  {
    var q, r := h / 128, h % 128;
    var a, b := r / 8, r % 8;
    ModEight(h, 16 * q + a, b);
  }

  /** Entries of `l` that start in segment `seg`. */
  function InSegment(l: seq<Region>, seg: nat): nat
  {
    if l == [] then 0 else (if l[0].addr / 0x10000 == seg then 1 else 0) + InSegment(l[1..], seg)
  }

  /** One entry more: `len` bytes at `addr`, which stay in its segment. */
  lemma InSegmentStep(p: Plan, addr: nat, bc: nat, n: nat, seg: nat)
    requires Proper(p) && !p.large && bc > 0
    ensures var len := Len(p, addr, bc, n);
      InSegment(Build(p, addr, bc, n), seg)
      == (if addr / 0x10000 == seg then 1 else 0) + InSegment(Build(p, addr + len, bc - len, Turn(n)), seg)
  {
    var len := Len(p, addr, bc, n);
    assert Build(p, addr, bc, n)[1..] == Build(p, addr + len, bc - len, Turn(n));
  }

  /** A list that starts above a segment has no entry in it. */
  lemma {:induction false} NoneBehind(p: Plan, addr: nat, bc: nat, n: nat, seg: nat)
    requires Proper(p) && !p.large && seg < addr / 0x10000
    ensures InSegment(Build(p, addr, bc, n), seg) == 0
    decreases bc
  {
    if bc > 0 {
      var len := Len(p, addr, bc, n);
      Advance(addr, len);
      InSegmentStep(p, addr, bc, n, seg);
      NoneBehind(p, addr + len, bc - len, Turn(n), seg);
    }
  }

  /** One entry more when the next `k` ask for the room left: it is the last, ends its segment, or leaves `k - 1`. */
  lemma EntryStep(p: Plan, addr: nat, bc: nat, n: nat, k: nat)
    requires Proper(p) && !p.large && bc > 0 && Wanted(p, n, k) >= Room(addr)
    ensures var len := Len(p, addr, bc, n);
      && 0 < len <= bc && k > 0
      && |Build(p, addr, bc, n)| == 1 + |Build(p, addr + len, bc - len, Turn(n))|
      && (len == bc ==> Build(p, addr + len, bc - len, Turn(n)) == [] && Segment(addr + bc - 1) == Segment(addr))
      && (len < bc ==>
          || (Segment(addr + len) == Segment(addr) + 1 && Room(addr + len) == SEG)
          || (Segment(addr + len) == Segment(addr) && Wanted(p, Turn(n), k - 1) >= Room(addr + len)))
  {
    var len := Len(p, addr, bc, n);
    Advance(addr, len);
    hide Room, Want;
  }

  /** The number of the 64K segment an address is in. */
  function Segment(addr: nat): nat { addr / 0x10000 }

  /** If the next `k` entries ask for the room left in the segment, at most `k` start in it. */
  lemma {:induction false} RoomBound(p: Plan, addr: nat, bc: nat, n: nat, k: nat, seg: nat)
    requires Proper(p) && !p.large && Wanted(p, n, k) >= Room(addr) && seg == addr / 0x10000
    ensures InSegment(Build(p, addr, bc, n), seg) <= k
    decreases bc
  {
    hide Room, Want, Build, Wanted, Len;
    if bc == 0 {
      BuildNone(p, addr, n);
    } else {
      var len := Len(p, addr, bc, n);
      EntryStep(p, addr, bc, n, k);
      InSegmentStep(p, addr, bc, n, seg);
      if len == bc {
        assert InSegment([], seg) == 0;
      } else if Segment(addr + len) == Segment(addr) {
        RoomBound(p, addr + len, bc - len, Turn(n), k - 1, seg);
      } else {
        NoneBehind(p, addr + len, bc - len, Turn(n), seg);
      }
    }
  }

  /** At most four entries start in any segment. */
  lemma {:induction false} FourPerSegment(p: Plan, addr: nat, bc: nat, n: nat, seg: nat)
    requires Proper(p) && !p.large && FourFill(p)
    ensures InSegment(Build(p, addr, bc, n), seg) <= 4
    decreases bc
  {
    if bc > 0 {
      if addr / 0x10000 == seg {
        WantedFour(p, n);
        RoomBound(p, addr, bc, n, 4, seg);
      } else {
        var len := Len(p, addr, bc, n);
        InSegmentStep(p, addr, bc, n, seg);
        FourPerSegment(p, addr + len, bc - len, Turn(n), seg);
      }
    }
  }

  /** `k` entries for the rest of this segment and four for each later one suffice. */
  lemma {:induction false} LengthBound(p: Plan, addr: nat, bc: nat, n: nat, k: nat, last: nat)
    requires Proper(p) && !p.large && FourFill(p) && Wanted(p, n, k) >= Room(addr)
    requires bc > 0 && last == Segment(addr + bc - 1)
    ensures |Build(p, addr, bc, n)| <= k + 4 * (last - Segment(addr))
    decreases bc
  {
    hide Room, Want, Build, Wanted, Len, Segment, FourFill;
    var len := Len(p, addr, bc, n);
    EntryStep(p, addr, bc, n, k);
    if len < bc {
      if Segment(addr + len) == Segment(addr) {
        LengthBound(p, addr + len, bc - len, Turn(n), k - 1, last);
      } else {
        WantedFour(p, Turn(n));
        LengthBound(p, addr + len, bc - len, Turn(n), 4, last);
      }
    }
  }

  /** The table cannot overflow: 20 entries are enough for any transfer of at most 256K, and
      there is room for MAX_PRD. */
  lemma TwentySuffice(kind: Kind, timer: nat, addr: nat, bc: nat)
    requires kind != LARGE && bc <= MAX_TRANSFER_SIZE
    ensures Proper(PlanOf(kind, timer))
    ensures |Build(PlanOf(kind, timer), addr, bc, 0)| <= 20 < MAX_PRD
  {
    var p := PlanOf(kind, timer);
    PlanProper(kind, timer);
    PlanFourFill(kind, timer);
    if bc > 0 {
      WantedFour(p, 0);
      LengthBound(p, addr, bc, 0, 4, Segment(addr + bc - 1));
    }
  }

  function Total(l: seq<Region>): nat { if l == [] then 0 else l[0].len + Total(l[1..]) }

  /** `l` is what a transfer of `bc` bytes from `addr` on takes: it covers them exactly, crosses no 64K boundary, has at
      most four entries in a segment and 20 in all, and is word aligned if the transfer is. */
  ghost predicate Serves(l: seq<Region>, addr: nat, bc: nat)
  {
    && 0 < |l| <= 20 && Tiles(l, addr, addr + bc) && WithinSegments(l)
    && (addr % 2 == 0 && bc % 2 == 0 ==> WordAligned(l))
    && forall seg: nat :: InSegment(l, seg) <= 4
  }

  /** The controller gets such a list for any transfer of at most 256K, with any timer. */
  lemma ListServes(kind: Kind, timer: nat, addr: nat, bc: nat, junk: seq<nat>)
    requires kind != LARGE && 0 < bc <= MAX_TRANSFER_SIZE
    ensures Proper(PlanOf(kind, timer))
    ensures var l := Build(PlanOf(kind, timer), addr, bc, 0); Serves(l, addr, bc) && Decode(Words(l) + junk) == l
  {
    hide Build, Decode, Words, Tiles, InSegment, PlanOf, Want, Inside;
    var p := PlanOf(kind, timer);
    PlanIs(kind, timer);
    PlanProper(kind, timer);
    PlanFourFill(kind, timer);
    TwentySuffice(kind, timer, addr, bc);
    BuildTiles(p, addr, bc, 0);
    var l := Build(p, addr, bc, 0);
    TilesSome(l, addr, addr + bc);
    if addr % 2 == 0 && bc % 2 == 0 { BuildAligned(p, addr, bc, 0); }
    forall seg: nat ensures InSegment(l, seg) <= 4 { FourPerSegment(p, addr, bc, 0, seg); }
    InsideFits(l);
    DecodeWords(l, junk);
  }

  lemma PlanIs(kind: Kind, timer: nat)
    ensures PlanOf(kind, timer).large <==> kind == LARGE
  {
  }

  lemma TilesSome(l: seq<Region>, a: nat, b: nat)
    requires Tiles(l, a, b) && a != b
    ensures l != []
  {
  }

  lemma InsideFits(l: seq<Region>)
    requires WithinSegments(l)
    ensures Fitting(l)
  {
  }

  /** A LARGE list reuses one aligned 64K area: the bytes add up, and there is one entry for
      every 64K or part of it. */
  lemma {:induction false} LargeList(base: nat, bc: nat, n: nat, timer: nat)
    requires base % 0x10000 == 0
    ensures Proper(PlanOf(LARGE, timer))
    ensures var l := Build(PlanOf(LARGE, timer), base, bc, n);
      && |l| == (bc + SEG - 1) / 0x10000 && Total(l) == bc
      && (forall i :: 0 <= i < |l| ==> l[i].addr == base && Inside(l[i]))
    decreases bc
  {
    if bc > 0 {
      var p := PlanOf(LARGE, timer);
      var len := Len(p, base, bc, n);
      Advance(base, len);
      LargeList(base, bc - len, Turn(n), timer);
      assert Build(p, base, bc, n)[1..] == Build(p, base, bc - len, Turn(n));
    }
  }

  // ------------------------------------------------------- where the list lies

  /** `(x + 15) & 0xfffffff0`. */
  function Paragraph(x: nat): nat { (x + 15) / 16 * 16 }

  /** The address of `MK_FP(x >> 4, 0)`: a segment number has 16 bits. */
  function SegPtr(x: nat): nat { x / 16 % 0x10000 * 16 }

  lemma SegPtrExact(x: nat)
    requires x % 16 == 0 && x < 0x100000
    ensures SegPtr(x) == x
  {
  }

  lemma SegPtrOfBase(x: nat)
    ensures SegPtr(SegmentBase(x)) % 0x10000 == 0
  {
    var q := x / 0x10000;
    var a, b := q / 16, q % 16;
    assert SegmentBase(x) == 0x10000 * q && q == 16 * a + b;
    SegPtrParts(0x10000 * q, a, b);
  }

  /** A segment number keeps four bits of the number of the 64K segment. */
  lemma SegPtrParts(x: nat, a: nat, b: nat)
    requires x == 0x10_0000 * a + 0x10000 * b && b < 16
    ensures SegPtr(x) == 0x10000 * b && SegPtr(x) % 0x10000 == 0
  {
    var y := x / 16;
    assert y == 0x10000 * a + 0x1000 * b;
    assert y % 0x10000 == 0x1000 * b;
  }

  lemma BaseFacts(x: nat)
    ensures SegmentBase(x) <= x < SegmentBase(x) + SEG && SegmentBase(x) % 16 == 0
  {
  }

  lemma BaseOfBase(x: nat, d: nat)
    requires d < SEG
    ensures SegmentBase(SegmentBase(x) + d) == SegmentBase(x)
  {
  }

  lemma BaseMonotone(a: nat, b: nat)
    requires a <= b
    ensures SegmentBase(a) <= SegmentBase(b)
    ensures SegmentBase(a) == SegmentBase(b) || a < SegmentBase(b)
  {
  }

  /** Short of the next boundary the base stays. */
  lemma BaseShift(x: nat, d: nat)
    requires x + d < SegmentBase(x + SEG)
    ensures SegmentBase(x + d) == SegmentBase(x)
  {
  }

  lemma NextBase(x: nat, d: nat)
    requires d < SEG
    ensures SegmentBase(SegmentBase(x) + SEG + d) == SegmentBase(x) + SEG
  {
  }

  lemma ParagraphFacts(x: nat)
    ensures x <= Paragraph(x) <= x + 15 && Paragraph(x) % 16 == 0
  {
  }

  /** Lines 344-358: a paragraph boundary in `prdBuf`, or the 64K boundary if one comes too soon. */
  function PrdBufStart(prdBuf: nat): nat
  {
    var lw := Paragraph(prdBuf);
    SegPtr(if SegmentBase(lw) != SegmentBase(lw + MAX_PRD * 8 - 1) then SegmentBase(lw + MAX_PRD * 8) else lw)
  }

  /** `timer & 0x0c`, the COMPLEX displacement of the list. */
  function Shift(kind: Kind, timer: nat): nat { if kind == COMPLEX then timer / 4 % 4 * 4 else 0 }

  lemma ShiftSmall(kind: Kind, timer: nat)
    ensures Shift(kind, timer) <= 12 && Shift(kind, timer) % 4 == 0
  {
  }

  lemma DwordShift(a: nat, b: nat)
    requires a % 16 == 0 && b % 4 == 0
    ensures (a + b) % 4 == 0
  {
    FourTimes(a + b, 4 * (a / 16) + b / 4);
  }

  /** The start chosen leaves room for MAX_PRD entries in the buffer, short of the next 64K boundary. */
  lemma StartPlaced(prdBuf: nat)
    requires prdBuf + PRD_BUF_SIZE <= 0x100000
    ensures var start := PrdBufStart(prdBuf);
      && prdBuf <= start && start + MAX_PRD * 8 <= prdBuf + PRD_BUF_SIZE && start % 16 == 0
      && SegmentBase(start) == SegmentBase(start + MAX_PRD * 8 - 1)
  {
    hide SegmentBase, Paragraph, SegPtr;
    var lw := Paragraph(prdBuf);
    var end := lw + MAX_PRD * 8;
    ParagraphFacts(prdBuf);
    BaseFacts(end);
    BaseFacts(end - 1);
    BaseFacts(lw);
    BaseMonotone(end - 1, end);
    BaseMonotone(lw, end - 1);
    if SegmentBase(lw) == SegmentBase(end - 1) {
      SegPtrExact(lw);
    } else {
      SegPtrExact(SegmentBase(end));
      BaseOfBase(end, 0);
      BaseOfBase(end, MAX_PRD * 8 - 1);
    }
  }

  /** Wherever `prdBuf` lies in the first megabyte, a list of at most 20 entries lies in it, on a dword
      boundary, and on one side of any 64K boundary. */
  lemma ListPlaced(prdBuf: nat, kind: Kind, timer: nat, n: nat)
    requires prdBuf + PRD_BUF_SIZE <= 0x100000 && 0 < n <= 20
    ensures var start := PrdBufStart(prdBuf) + Shift(kind, timer);
      && prdBuf <= start && start + n * 8 <= prdBuf + PRD_BUF_SIZE && start % 4 == 0
      && SegmentBase(start) == SegmentBase(start + n * 8 - 1)
  {
    hide SegmentBase, PrdBufStart, Shift;
    StartPlaced(prdBuf);
    ShiftSmall(kind, timer);
    var lw := PrdBufStart(prdBuf);
    var start := lw + Shift(kind, timer);
    DwordShift(lw, Shift(kind, timer));
    BaseMonotone(lw, start);
    BaseMonotone(start, start + n * 8 - 1);
    BaseMonotone(start + n * 8 - 1, lw + MAX_PRD * 8 - 1);
  }

  /** The start of the caller's buffer, rounded up to a paragraph (lines 406-411). */
  function BufStart(seg: nat, off: nat): nat { Paragraph(PhysAddr(seg, off)) }

  lemma BufStartNear(seg: nat, off: nat)
    ensures BufStart(seg, off) % 16 == 0
    ensures seg * 16 + off - 1 <= BufStart(seg, off) <= seg * 16 + off + 15
  {
    hide Paragraph;
    ParagraphFacts(PhysAddr(seg, off));
  }

  /** Lines 413-440: the list and the data area of LARGE transfers; 0 is none. */
  function LargeAreas(bufStart: nat, bufSize: int): (int, int)
  {
    var bufEnd := bufStart + bufSize;
    var pmaStart := SegmentBase(bufStart + SEG);
    var pmaEnd := pmaStart + SEG;
    if pmaStart < bufEnd && pmaEnd <= bufEnd then
      var list := if pmaStart - bufStart >= 4096 then SegPtr(bufStart)
                  else if bufEnd - pmaEnd >= 4096 then SegPtr(pmaEnd) else 0;
      if list != 0 then (list, SegPtr(pmaStart)) else (0, 0)
    else (0, 0)
  }

  /** In the first megabyte, the 512-entry list and the data area are disjoint parts of the rounded buffer,
      the data area is 64K-aligned, and the list crosses no 64K boundary. */
  lemma LargeAreasPlaced(bufStart: nat, bufSize: int)
    requires bufStart % 16 == 0 && bufStart + bufSize <= 0x100000
    ensures var (list, io) := LargeAreas(bufStart, bufSize);
      list != 0 ==>
        && bufStart <= list && list + LARGE_PRD * 8 <= bufStart + bufSize
        && bufStart <= io && io + SEG <= bufStart + bufSize
        && (list + LARGE_PRD * 8 <= io || io + SEG <= list)
        && SegmentBase(io) == io && SegmentBase(list) == SegmentBase(list + LARGE_PRD * 8 - 1)
  {
    hide SegmentBase, SegPtr;
    var bufEnd, pmaStart := bufStart + bufSize, SegmentBase(bufStart + SEG);
    BaseFacts(bufStart + SEG);
    BaseOfBase(bufStart + SEG, 0);
    if pmaStart + SEG <= bufEnd {
      SegPtrExact(pmaStart);
      if pmaStart - bufStart >= 4096 {
        SegPtrExact(bufStart);
        BaseShift(bufStart, 4095);
      } else if bufEnd - (pmaStart + SEG) >= 4096 {
        SegPtrExact(pmaStart + SEG);
        NextBase(bufStart + SEG, 0);
        NextBase(bufStart + SEG, 4095);
      }
    }
  }

  /** Areas are found whenever a 64K-aligned data area above the start of the range, and apart from it 4096 bytes for
      the list, can be. */
  lemma AreasWhenever(bufStart: nat, bufSize: int, io: nat, list: nat)
    requires bufStart % 16 == 0 && 0 < bufStart && bufStart + bufSize <= 0x100000
    requires io % 0x10000 == 0 && bufStart < io && io + SEG <= bufStart + bufSize
    requires bufStart <= list && list + LARGE_PRD * 8 <= bufStart + bufSize
    requires list + LARGE_PRD * 8 <= io || io + SEG <= list
    ensures LargeAreas(bufStart, bufSize).0 != 0
  {
    hide SegmentBase, SegPtr;
    var pmaStart := SegmentBase(bufStart + SEG);
    BaseFacts(bufStart + SEG);
    FirstBase(bufStart, io);
    SegPtrExact(bufStart);
    if pmaStart + SEG < 0x100000 { SegPtrExact(pmaStart + SEG); }
  }

  /** The area `set_max_xfer` tries is the first aligned one above the start, and any other is 64K or more beyond. */
  lemma FirstBase(x: nat, io: nat)
    requires io % 0x10000 == 0 && x < io
    ensures SegmentBase(x + SEG) == io || SegmentBase(x + SEG) + SEG <= io
  {
    var q, p := io / 0x10000, x / 0x10000;
    assert io == 0x10000 * q && x == 0x10000 * p + x % 0x10000;
    BaseIs(x + SEG, p + 1, x % 0x10000);
  }

  /** What the rounded buffer has to spare after the list and the data area: the slack in the tests of lines 420-429. */
  function Spare(bufStart: nat, bufSize: int): int
  {
    var pmaStart := SegmentBase(bufStart + SEG);
    bufStart + bufSize - (pmaStart + SEG) - (if pmaStart - bufStart >= 4096 then 0 else 4096)
  }

  /** List and data area lie between `a` and `z`. */
  predicate Between(areas: (int, int), a: int, z: int)
  {
    && a <= areas.0 && areas.0 + LARGE_PRD * 8 <= z
    && a <= areas.1 && areas.1 + SEG <= z
  }

  /** The buffer is rounded to a paragraph without its size being adjusted. The areas lie in the buffer the caller gave
      if and only if there is as much to spare as the start was moved up, and a list at the very start was not moved
      down by the byte that an odd address loses. */
  lemma AreasInBuffer(seg: nat, off: nat, bufSize: int)
    requires BufStart(seg, off) + bufSize <= 0x100000 && LargeAreas(BufStart(seg, off), bufSize).0 != 0
    ensures var given, start := seg * 16 + off, BufStart(seg, off);
      Between(LargeAreas(start, bufSize), given, given + bufSize) <==>
        && Spare(start, bufSize) >= start - given
        && (given % 16 == 1 ==> SegmentBase(start + SEG) - start < 4096)
  {
    var given, start := seg * 16 + off, BufStart(seg, off);
    BufStartNear(seg, off);
    OddLoss(seg, off);
    AreasAre(start, bufSize);
    BaseFacts(start + SEG);
    hide SegmentBase, BufStart, LargeAreas;
  }

  /** The start is below the address given just for an address one above a paragraph. */
  lemma OddLoss(seg: nat, off: nat)
    ensures BufStart(seg, off) < seg * 16 + off <==> (seg * 16 + off) % 16 == 1
  {
    var x := seg * 16 + off;
    var q, r := x / 16, x % 16;
    assert x == 16 * q + r;
    hide BufStart;
    StartOf(seg, off, q, r);
  }

  lemma EvenPart(q: nat, r: nat)
    ensures (16 * q + r) / 2 * 2 == 16 * q + r / 2 * 2
  {
    Halves(16 * q + r, 8 * q + r / 2, r % 2);
  }

  lemma Halves(x: nat, k: nat, b: nat)
    requires x == 2 * k + b && b < 2
    ensures x / 2 == k
  {
  }

  lemma ParagraphOf(q: nat, r: nat)
    requires r < 16
    ensures Paragraph(16 * q + r) == if r == 0 then 16 * q else 16 * q + 16
  {
  }

  /** Where the areas are, when there are any. */
  lemma AreasAre(start: nat, bufSize: int)
    requires start % 16 == 0 && start + bufSize <= 0x100000 && LargeAreas(start, bufSize).0 != 0
    ensures var pmaStart := SegmentBase(start + SEG);
      && LargeAreas(start, bufSize) == (if pmaStart - start >= 4096 then start else pmaStart + SEG, pmaStart)
      && Spare(start, bufSize) >= 0
  {
    hide SegmentBase, SegPtr;
    var pmaStart := SegmentBase(start + SEG);
    BaseFacts(start + SEG);
    SegPtrExact(pmaStart);
    SegPtrExact(start);
    if pmaStart - start < 4096 { SegPtrExact(pmaStart + SEG); }
  }

  /** A buffer on a paragraph always has its areas inside. */
  lemma AlignedAreas(seg: nat, off: nat, bufSize: int)
    requires (seg * 16 + off) % 16 == 0 && seg * 16 + off + bufSize <= 0x100000
    requires LargeAreas(BufStart(seg, off), bufSize).0 != 0
    ensures Between(LargeAreas(BufStart(seg, off), bufSize), seg * 16 + off, seg * 16 + off + bufSize)
  {
    hide BufStart, LargeAreas, SegmentBase;
    StartOf(seg, off, (seg * 16 + off) / 16, 0);
    AreasAre(BufStart(seg, off), bufSize);
    AreasInBuffer(seg, off, bufSize);
  }

  lemma StartOf(seg: nat, off: nat, q: nat, r: nat)
    requires seg * 16 + off == 16 * q + r && r < 16
    ensures BufStart(seg, off) == if r < 2 then 16 * q else 16 * q + 16
  {
    hide Paragraph;
    EvenPart(q, r);
    ParagraphOf(q, r / 2 * 2);
  }

  lemma BaseIs(x: nat, q: nat, r: nat)
    requires x == 0x10000 * q + r && r < 0x10000
    ensures SegmentBase(x) == 0x10000 * q
  {
  }

  /** A list that ends 14 bytes after the buffer, and one that starts a byte before it. */
  lemma AreasOutside()
    ensures BufStart(0x1F00, 2) == 0x1F010 && LargeAreas(0x1F010, 0x11FF0) == (0x30000, 0x20000)
    ensures 0x30000 + LARGE_PRD * 8 == 0x1F00 * 16 + 2 + 0x11FF0 + 14
    ensures BufStart(0x1000, 1) == 0x10000 && LargeAreas(0x10000, 0x20000) == (0x10000, 0x20000)
    ensures 0x10000 == 0x1000 * 16 + 1 - 1
  {
    hide BufStart, SegmentBase, SegPtr;
    StartOf(0x1F00, 2, 0x1F00, 2);
    StartOf(0x1000, 1, 0x1000, 1);
    BaseIs(0x1F010 + SEG, 2, 0xF010);
    BaseIs(0x10000 + SEG, 2, 0);
    SegPtrExact(0x10000);
    SegPtrExact(0x20000);
    SegPtrExact(0x30000);
  }

  // ------------------------------------------------------------------ the driver

  /** The globals of the driver. A pointer is the physical address it stands for; 0 is NULL. */
  class BusMaster {
    const prdBuf: nat
    var prdType: Kind
    var bmideBase: nat
    var prdBufPtr: nat
    var prdPtr: nat
    var numPrd: nat
    var largePrdBufPtr: int
    var largeIoBufPtr: int
    var largeMaxB: nat
    var largeMaxS: nat

    /** With the controller in use the table is where it was placed, and LARGE areas have an aligned data area. */
    ghost predicate Valid()
      reads this
    {
      && (bmideBase != 0 ==> prdBufPtr == PrdBufStart(prdBuf))
      && (largePrdBufPtr != 0 ==>
            && largePrdBufPtr > 0 && largeIoBufPtr >= 0 && largeIoBufPtr % 0x10000 == 0
            && largeMaxB == LARGE_PRD * SEG)
    }

    /** The controller is not in use at first. */
    constructor (prdBuf: nat, prdType: Kind)
      ensures this.prdBuf == prdBuf && this.prdType == prdType && bmideBase == 0 && Valid()
    {
      this.prdBuf := prdBuf;
      this.prdType := prdType;
      bmideBase := 0;
      largePrdBufPtr := 0;
    }

    /** `dma_pci_config`. */
    method Config(regAddr: nat) returns (err: int)
      requires Valid()
      modifies this
      ensures Valid() && prdType == old(prdType)
      ensures err == (if regAddr % 8 == 0 then 0 else 1)
      ensures err == 0 ==> bmideBase == regAddr
      ensures err == 0 && regAddr != 0 ==>
        && prdBufPtr == prdPtr == PrdBufStart(prdBuf) && numPrd == 0
        && largePrdBufPtr == largeIoBufPtr == 0 && largeMaxB == largeMaxS == 0
    {
      if regAddr % 8 != 0 { return 1; }
      bmideBase := regAddr;
      if regAddr == 0 { return 0; }
      hide Paragraph, SegPtr, SegmentBase;
      var lw := Paragraph(prdBuf);
      if SegmentBase(lw) != SegmentBase(lw + MAX_PRD * 8 - 1) {
        lw := SegmentBase(lw + MAX_PRD * 8);
      }
      prdBufPtr := SegPtr(lw);
      prdPtr := prdBufPtr;
      numPrd := 0;
      largePrdBufPtr, largeIoBufPtr := 0, 0;
      largeMaxB, largeMaxS := 0, 0;
      return 0;
    }

    /** `dma_pci_set_max_xfer`. */
    method SetMaxXfer(seg: nat, off: nat, bufSize: int)
      requires Valid()
      modifies this`largePrdBufPtr, this`largeIoBufPtr, this`largeMaxB, this`largeMaxS
      ensures Valid()
      ensures (largePrdBufPtr, largeIoBufPtr) == LargeAreas(BufStart(seg, off), bufSize)
      ensures largeMaxB == (if largePrdBufPtr != 0 then LARGE_PRD * SEG else 0)
      ensures largeMaxS == (if largePrdBufPtr != 0 then 65536 else 0)
    {
      hide PhysAddr, Paragraph, SegPtr, SegmentBase;
      largePrdBufPtr, largeIoBufPtr := 0, 0;
      largeMaxB, largeMaxS := 0, 0;
      var bufStart := Paragraph(PhysAddr(seg, off));
      var bufEnd := bufStart + bufSize;
      var pmaStart := SegmentBase(bufStart + SEG);
      var pmaEnd := pmaStart + SEG;
      if pmaStart < bufEnd && pmaEnd <= bufEnd {
        if pmaStart - bufStart >= 4096 {
          largePrdBufPtr := SegPtr(bufStart);
        } else if bufEnd - pmaEnd >= 4096 {
          largePrdBufPtr := SegPtr(pmaEnd);
        }
        if largePrdBufPtr != 0 {
          largeIoBufPtr := SegPtr(pmaStart);
          SegPtrOfBase(bufStart + SEG);
          largeMaxB := 65536 * 512;
          largeMaxS := 65536;
        }
      }
    }

    /** Where the data of a transfer starts. */
    ghost function DataStart(seg: nat, off: nat): nat
      reads this
      requires prdType == LARGE ==> largeIoBufPtr >= 0
    {
      if prdType == LARGE then largeIoBufPtr / 2 * 2 else PhysAddr(seg, off)
    }

    /** `set_up_xfer`: `prd` is the memory of the list. It fails exactly when the list would not fit. */
    method SetUpXfer(count: int, seg: nat, off: nat, timer: nat, prd: array<nat>) returns (err: int)
      requires Valid() && prd.Length >= 2 * MaxPrd(prdType)
      requires prdType == LARGE ==> largePrdBufPtr != 0
      modifies this`prdPtr, this`numPrd, prd
      ensures Valid()
      ensures prdPtr == (if prdType == LARGE then largePrdBufPtr else prdBufPtr + Shift(prdType, timer))
      ensures Proper(PlanOf(prdType, timer))
      ensures var l := Build(PlanOf(prdType, timer), DataStart(seg, off), if count < 0 then 0 else count, 0);
        && err == (if |l| <= MaxPrd(prdType) then 0 else 1)
        && (err == 0 ==> numPrd == |l| && prd[..2 * numPrd] == Words(l))
      // a transfer of up to 256K is always set up, and the controller reads a list for exactly its bytes, from the
      // address given on, or one byte below an odd one
      ensures prdType != LARGE && 0 < count <= MAX_TRANSFER_SIZE ==>
        && err == 0 && |Decode(prd[..])| == numPrd
        && Serves(Decode(prd[..]), EvenAddress(seg * 16 + off), count)
      // that list lies in `prdBuf`, on a dword boundary and within one segment
      ensures prdType != LARGE && 0 < count <= MAX_TRANSFER_SIZE && bmideBase != 0
              && prdBuf + PRD_BUF_SIZE <= 0x100000 ==>
        && prdBuf <= prdPtr && prdPtr + numPrd * 8 <= prdBuf + PRD_BUF_SIZE && prdPtr % 4 == 0
        && SegmentBase(prdPtr) == SegmentBase(prdPtr + numPrd * 8 - 1)
      // a LARGE transfer within the limit is set up too, all of it on the data area
      ensures prdType == LARGE && 0 < count <= largeMaxB ==>
        && err == 0 && |Decode(prd[..])| == numPrd && Total(Decode(prd[..])) == count
        && forall i :: 0 <= i < numPrd ==> Decode(prd[..])[i].addr == largeIoBufPtr && Inside(Decode(prd[..])[i])
    {
      hide Build, Words, Decode, Serves, SegmentBase, PrdBufStart, Shift, PhysAddr, PlanOf, Inside, Total;
      err := BuildList(count, seg, off, timer, prd);
      if prdType != LARGE && 0 < count <= MAX_TRANSFER_SIZE {
        PhysAddrIs(seg, off);
        ListRead(prdType, timer, PhysAddr(seg, off), count, numPrd, err, prd[..]);
        if bmideBase != 0 && prdBuf + PRD_BUF_SIZE <= 0x100000 { ListPlaced(prdBuf, prdType, timer, numPrd); }
      } else if prdType == LARGE && 0 < count <= largeMaxB {
        LargeRead(timer, largeIoBufPtr, count, numPrd, err, prd[..]);
      }
    }

    /** The building of the list. */
    method BuildList(count: int, seg: nat, off: nat, timer: nat, prd: array<nat>) returns (err: int)
      requires prd.Length >= 2 * MaxPrd(prdType)
      requires prdType == LARGE ==> largePrdBufPtr > 0 && largeIoBufPtr >= 0
      modifies this`prdPtr, this`numPrd, prd
      ensures prdPtr == (if prdType == LARGE then largePrdBufPtr else prdBufPtr + Shift(prdType, timer))
      ensures Proper(PlanOf(prdType, timer))
      ensures var l := Build(PlanOf(prdType, timer), DataStart(seg, off), if count < 0 then 0 else count, 0);
        && err == (if |l| <= MaxPrd(prdType) then 0 else 1)
        && (err == 0 ==> numPrd == |l| && prd[..2 * numPrd] == Words(l))
    {
      PlanProper(prdType, timer);
      var maxPrd, bigCnt, smallCnt := MAX_PRD, SEG, SEG;
      var phyAddr: nat;
      if prdType == LARGE {
        maxPrd := LARGE_PRD;
        prdPtr := largePrdBufPtr;
        phyAddr := largeIoBufPtr;
        phyAddr := phyAddr / 2 * 2;
      } else {
        prdPtr := prdBufPtr;
        if prdType == COMPLEX {
          prdPtr := prdBufPtr + timer / 4 % 4 * 4;
          smallCnt := timer / 2 % 128 * 2 + 2;
          bigCnt := bigCnt - smallCnt - timer / 2 % 8 * 2;
        }
        phyAddr := seg * 16 + off;
        phyAddr := phyAddr / 2 * 2;
      }
      var n;
      err, n := FillList(Plan(bigCnt, smallCnt, prdType == LARGE), maxPrd, phyAddr, count, prd);
      if err == 0 { numPrd := n; }
    }
  }

  /** What the controller reads of a table that the loop has filled. */
  lemma ListRead(kind: Kind, timer: nat, addr: nat, bc: nat, n: nat, err: int, w: seq<nat>)
    requires kind != LARGE && 0 < bc <= MAX_TRANSFER_SIZE && Proper(PlanOf(kind, timer)) && |w| >= 2 * MAX_PRD
    requires var l := Build(PlanOf(kind, timer), addr, bc, 0);
      err == (if |l| <= MAX_PRD then 0 else 1) && (err == 0 ==> n == |l| && 2 * n <= |w| && w[..2 * n] == Words(l))
    ensures err == 0 && 0 < n <= 20 && |Decode(w)| == n && Serves(Decode(w), addr, bc)
  {
    hide Build, Words, Decode, PlanOf;
    ListServes(kind, timer, addr, bc, []);
    ListServes(kind, timer, addr, bc, w[2 * n..]);
    assert w == w[..2 * n] + w[2 * n..];
  }

  /** The same of a LARGE table: it has room for the list. */
  lemma LargeRead(timer: nat, base: nat, bc: nat, n: nat, err: int, w: seq<nat>)
    requires base % 0x10000 == 0 && 0 < bc <= LARGE_PRD * SEG
    requires Proper(PlanOf(LARGE, timer)) && |w| >= 2 * LARGE_PRD
    requires var l := Build(PlanOf(LARGE, timer), base / 2 * 2, bc, 0);
      err == (if |l| <= LARGE_PRD then 0 else 1) && (err == 0 ==> n == |l| && 2 * n <= |w| && w[..2 * n] == Words(l))
    ensures err == 0 && |Decode(w)| == n && Total(Decode(w)) == bc
    ensures forall i :: 0 <= i < n ==> Decode(w)[i].addr == base && Inside(Decode(w)[i])
  {
    hide Build, Words, Decode, PlanOf, Inside, Total;
    BaseEven(base);
    LargeList(base, bc, 0, timer);
    LargeCount(bc);
    var l := Build(PlanOf(LARGE, timer), base, bc, 0);
    InsideFits(l);
    DecodeWords(l, w[2 * n..]);
    assert w == w[..2 * n] + w[2 * n..];
  }

  lemma BaseEven(base: nat)
    requires base % 0x10000 == 0
    ensures base / 2 * 2 == base
  {
    var q := base / 0x10000;
    Halves(base, 0x8000 * q, 0);
  }

  lemma LargeCount(bc: nat)
    requires 0 < bc <= LARGE_PRD * SEG
    ensures 0 < (bc + SEG - 1) / 0x10000 <= LARGE_PRD
  {
  }

  /** The end of an entry of `want` bytes, moved back to the 64K boundary if it reaches one. */
  lemma BoundaryCut(addr: nat, want: nat)
    requires 0 < want <= SEG
    ensures 0 < Room(addr)
    ensures SegmentBase(addr + want) != SegmentBase(addr) ==>
      SegmentBase(addr + want) - addr == Room(addr) <= want
    ensures SegmentBase(addr + want) == SegmentBase(addr) ==> want < Room(addr)
  {
    BaseFacts(addr);
    BaseFacts(addr + want);
  }

  /** Lines 229-241: the count of the entry at `start`, and the address after it. */
  method NextCount(plan: Plan, start: nat, bc: nat, n: nat) returns (temp: nat, phyAddr: nat)
    requires Proper(plan) && bc > 0
    ensures temp == Len(plan, start, bc, n % 4) && phyAddr == start + temp && 0 < temp <= bc
  {
    hide SegmentBase, Room;
    temp := if n % 4 == 2 then plan.big else plan.small;
    if temp > bc { temp := bc; }
    BoundaryCut(start, temp);
    phyAddr := start + temp;
    if SegmentBase(phyAddr) != SegmentBase(start) {
      phyAddr := SegmentBase(phyAddr);
      temp := phyAddr - start;
    }
  }

  lemma LenPositive(plan: Plan, addr: nat, bc: nat, n: nat)
    requires Proper(plan) && bc > 0
    ensures 0 < Len(plan, addr, bc, n) <= bc
  {
  }

  /** One entry more, as a list and as words. */
  lemma BuildStep(plan: Plan, addr: nat, bc: nat, n: nat, len: nat)
    requires Proper(plan) && bc > 0 && len == Len(plan, addr, bc, n % 4) && 0 < len <= bc
    ensures var rest := Build(plan, if plan.large then addr else addr + len, bc - len, (n + 1) % 4);
      var l := Build(plan, addr, bc, n % 4);
      && l == [Region(addr, len)] + rest
      && Words(l) == [addr, CountWord(len, bc == len)] + Words(rest)
  {
    assert Turn(n % 4) == (n + 1) % 4;
    var rest := Build(plan, if plan.large then addr else addr + len, bc - len, (n + 1) % 4);
    assert rest == [] <==> bc == len;
    assert Build(plan, addr, bc, n % 4)[1..] == rest;
  }

  lemma BuildNone(plan: Plan, addr: nat, n: nat)
    requires Proper(plan)
    ensures Build(plan, addr, 0, n) == [] && Words([]) == []
  {
  }

  /** The loop of lines 218-252. */
  method FillList(plan: Plan, maxPrd: nat, savePhyAddr: nat, count: int, prd: array<nat>)
    returns (err: int, numPrd: nat)
    requires Proper(plan) && prd.Length >= 2 * maxPrd
    modifies prd
    ensures var l := Build(plan, savePhyAddr, if count < 0 then 0 else count, 0);
      && err == (if |l| <= maxPrd then 0 else 1)
      && (err == 0 ==> numPrd == |l| && prd[..2 * numPrd] == Words(l))
  {
    hide Build, Words, Len;
    var phyAddr: nat, bc: int := savePhyAddr, count;
    numPrd := 0;
    ghost var all := Build(plan, savePhyAddr, if count < 0 then 0 else count, 0);
    ghost var rest := all;
    while bc > 0
      invariant numPrd <= maxPrd && |all| == numPrd + |rest|
      invariant prd[..2 * numPrd] + Words(rest) == Words(all)
      invariant rest == Build(plan, if plan.large then savePhyAddr else phyAddr, if bc < 0 then 0 else bc, numPrd % 4)
      decreases bc
    {
      ghost var done, before := prd[..2 * numPrd], bc;
      if plan.large { phyAddr := savePhyAddr; }
      ghost var start := phyAddr;
      if numPrd >= maxPrd {
        ghost var len := Len(plan, start, bc, numPrd % 4);
        LenPositive(plan, start, bc, numPrd % 4);
        BuildStep(plan, start, bc, numPrd, len);
        return 1, numPrd;
      }
      prd[2 * numPrd] := phyAddr;
      var temp;
      temp, phyAddr := NextCount(plan, phyAddr, bc, numPrd);
      prd[2 * numPrd + 1] := temp % 0x10000;
      bc := bc - temp;
      if bc < 1 { prd[2 * numPrd + 1] := prd[2 * numPrd + 1] + EOT; }
      numPrd := numPrd + 1;
      BuildStep(plan, start, before, numPrd - 1, temp);
      rest := rest[1..];
      assert prd[..2 * numPrd] == done + [start, CountWord(temp, bc == 0)];
    }
    BuildNone(plan, if plan.large then savePhyAddr else phyAddr, numPrd % 4);
    err := 0;
  }
}
