/**
 The page containers of sartoris/mk/containers.c for one type of structure. Pages are seen as a
 map from their addresses to their headers and slot links; a slot is a page and an index in it.
 The chain of free slots of each page and the list of pages with free slots are ghost sequences
 that the links in memory are proved to spell out.
 */
module Slab {
  import opened Arithmetic
  import opened Sequences

  /** A page: `struct c_header`, and the `next` of each slot. A link of -1 is NULL. */
  datatype Page = Page(prealloc: bool, free: int, next: int, prev: int, firstFree: int, link: seq<int>)

  type Pages = map<int, Page>

  datatype Slot = Slot(page: int, index: int)

  // ------------------------------------------------------- the slots of a page

  /** Following `link` from `p` visits the slots of `c`, in that order, and ends. */
  predicate Chain(link: seq<int>, p: int, c: seq<int>)
    decreases c
  {
    if c == [] then p == -1 else p == c[0] && 0 <= p < |link| && Chain(link, link[p], c[1..])
  }

  /** The free chain `c` of a page with room for `entries` slots. */
  ghost predicate PageOk(p: Page, c: seq<int>, entries: nat)
  {
    |p.link| == entries && p.free == |c| && Distinct(c) && Chain(p.link, p.firstFree, c)
  }

  lemma {:induction false} ChainBounds(link: seq<int>, p: int, c: seq<int>)
    requires Chain(link, p, c)
    ensures forall i :: i in c ==> 0 <= i < |link|
    decreases c
  {
    if c != [] {
      ChainBounds(link, link[p], c[1..]);
      assert forall i :: i in c ==> i == c[0] || i in c[1..];
    }
  }

  /** Writing the link of a slot outside the chain does not touch it. */
  lemma {:induction false} ChainFrame(link: seq<int>, p: int, c: seq<int>, i: int, x: int)
    requires Chain(link, p, c) && 0 <= i < |link| && i !in c
    ensures Chain(link[i := x], p, c)
    decreases c
  {
    if c != [] { ChainFrame(link, link[p], c[1..], i, x); }
  }

  // --------------------------------------------------------- the list of pages

  /** The pages of `s` are linked both ways, between the pages `prev` and `next` (0 is NULL). */
  predicate Dll(m: Pages, s: seq<int>, prev: int, next: int)
  {
    s == [] ||
    (&& s[0] in m && m[s[0]].prev == prev && m[s[0]].next == Head(s[1..], next)
     && Dll(m, s[1..], s[0], next))
  }

  lemma {:induction false} DllJoin(m: Pages, s: seq<int>, t: seq<int>, prev: int, next: int)
    ensures Dll(m, s + t, prev, next) <==> Dll(m, s, prev, Head(t, next)) && Dll(m, t, Last(s, prev), next)
  {
    if s == [] { assert s + t == t; } else {
      assert (s + t)[1..] == s[1..] + t;
      DllJoin(m, s[1..], t, s[0], next);
    }
  }

  /** A change of other pages, or of other fields, does not touch the links of `s`. */
  lemma {:induction false} DllFrame(m: Pages, m': Pages, s: seq<int>, prev: int, next: int)
    requires Dll(m, s, prev, next)
    requires forall p :: p in s && p in m ==> p in m' && m'[p].prev == m[p].prev && m'[p].next == m[p].next
    ensures Dll(m', s, prev, next)
  {
    if s != [] { DllFrame(m, m', s[1..], s[0], next); }
  }

  /** The page before a place is made to point to `x`. */
  function SetNext(m: Pages, s: seq<int>, x: int): Pages
  {
    if s != [] && Last(s, 0) in m then m[Last(s, 0) := m[Last(s, 0)].(next := x)] else m
  }

  function SetPrev(m: Pages, u: seq<int>, x: int): Pages
  {
    if u != [] && u[0] in m then m[u[0] := m[u[0]].(prev := x)] else m
  }

  lemma SetNextOk(m: Pages, s: seq<int>, prev: int, next: int, x: int)
    requires Dll(m, s, prev, next) && Distinct(s)
    ensures Dll(SetNext(m, s, x), s, prev, x)
  {
    if s != [] {
      var k := |s| - 1;
      var c := s[k];
      assert s == s[..k] + [c] && [c][1..] == [];
      DllJoin(m, s[..k], [c], prev, next);
      var m' := SetNext(m, s, x);
      DllFrame(m, m', s[..k], prev, c);
      DllJoin(m', s[..k], [c], prev, x);
    }
  }

  lemma SetPrevOk(m: Pages, u: seq<int>, prev: int, next: int, x: int)
    requires Dll(m, u, prev, next) && Distinct(u)
    ensures Dll(SetPrev(m, u, x), u, x, next)
  {
    if u != [] { DllFrame(m, SetPrev(m, u, x), u[1..], u[0], next); }
  }

  // -------------------------------------------------------------- the counts

  function Sum(m: Pages, s: seq<int>): int
  {
    if s == [] then 0 else (if s[0] in m then m[s[0]].free else 0) + Sum(m, s[1..])
  }

  lemma {:induction false} SumJoin(m: Pages, s: seq<int>, t: seq<int>)
    ensures Sum(m, s + t) == Sum(m, s) + Sum(m, t)
  {
    if s == [] { assert s + t == t; } else {
      assert (s + t)[1..] == s[1..] + t;
      SumJoin(m, s[1..], t);
    }
  }

  lemma {:induction false} SumFrame(m: Pages, m': Pages, s: seq<int>)
    requires forall p :: p in s ==> (p in m <==> p in m')
    requires forall p :: p in s && p in m ==> m'[p].free == m[p].free
    ensures Sum(m', s) == Sum(m, s)
  {
    if s != [] {
      var q := s[0];
      assert q in s;
      assert q in m <==> q in m';
      SumFrame(m, m', s[1..]);
    }
  }

  // ---------------------------------------------------------------- the state

  type Chains = map<int, seq<int>>

  ghost predicate PagesOk(m: Pages, chains: Chains, entries: nat)
  {
    0 !in m && chains.Keys == m.Keys && forall p :: p in m ==> PageOk(m[p], chains[p], entries)
  }

  ghost predicate ListOk(m: Pages, first: int, list: seq<int>)
  {
    && Distinct(list) && (forall p :: p in list <==> p in m && m[p].free > 0)
    && Dll(m, list, 0, 0) && first == Head(list, 0)
  }

  /** Every page has its free chain, `list` is the pages with free slots, linked both ways from `first`,
      and `free` is the sum of their counts. */
  ghost predicate Ok(m: Pages, first: int, free: int, list: seq<int>, chains: Chains, entries: nat)
  {
    PagesOk(m, chains, entries) && ListOk(m, first, list) && free == Sum(m, list)
  }

  /** The slots handed out: those outside the free chain of their page. */
  ghost function Live(chains: Chains, entries: nat): iset<Slot>
  {
    iset s: Slot | s.page in chains && 0 <= s.index < entries && s.index !in chains[s.page]
  }

  /** Links of pages are not part of their chains. */
  lemma PagesRelinked(m: Pages, m': Pages, chains: Chains, entries: nat)
    requires PagesOk(m, chains, entries) && m'.Keys == m.Keys
    requires forall p :: p in m ==>
      m'[p].link == m[p].link && m'[p].firstFree == m[p].firstFree && m'[p].free == m[p].free
    ensures PagesOk(m', chains, entries)
  {
  }

  lemma PageReplaced(m: Pages, chains: Chains, entries: nat, c: int, p': Page, chain: seq<int>)
    requires PagesOk(m, chains, entries) && c in m && PageOk(p', chain, entries)
    ensures PagesOk(m[c := p'], chains[c := chain], entries)
  {
  }

  /** The first free slot of a page is taken. */
  function Taken(p: Page): Page
    requires 0 <= p.firstFree < |p.link|
  {
    p.(firstFree := p.link[p.firstFree], free := p.free - 1)
  }

  lemma TakeChain(p: Page, c: seq<int>, entries: nat)
    requires PageOk(p, c, entries) && p.free > 0
    ensures c != [] && p.firstFree == c[0] && 0 <= p.firstFree < entries == |p.link|
    ensures PageOk(Taken(p), c[1..], entries)
  {
  }

  /** The first slot of the first page is taken (lines 170-207). */
  lemma TakeSlot(m: Pages, first: int, free: int, list: seq<int>, chains: Chains, entries: nat)
    requires Ok(m, first, free, list, chains, entries) && first != 0
    ensures list != [] && first in m && chains[first] != [] && m[first].firstFree == chains[first][0]
    ensures 0 <= m[first].firstFree < entries == |m[first].link|
    ensures var p' := Taken(m[first]);
      var chains' := chains[first := chains[first][1..]];
      if p'.free > 0 then Ok(m[first := p'], first, free - 1, list, chains', entries)
      else Ok(SetPrev(m[first := p'], list[1..], 0), m[first].next, free - 1, list[1..], chains', entries)
  {
    hide PageOk, Dll, Chain, Distinct;
    FirstNext(m, first, list);
    var p, rest, c := m[first], list[1..], chains[first];
    TakeChain(p, c, entries);
    var p' := Taken(p);
    PageReplaced(m, chains, entries, first, p', c[1..]);
    hide PagesOk;
    if p'.free > 0 {
      TakeMiddle(m, first, free, list, p');
    } else {
      TakeLast(m, first, free, list, p');
      PagesRelinked(m[first := p'], SetPrev(m[first := p'], rest, 0), chains[first := c[1..]], entries);
    }
  }

  /** The page stays on the list. */
  lemma TakeMiddle(m: Pages, first: int, free: int, list: seq<int>, p': Page)
    requires ListOk(m, first, list) && first in m && list != [] && first !in list[1..] && free == Sum(m, list)
    requires 0 < p'.free == m[first].free - 1 && p'.next == m[first].next && p'.prev == m[first].prev
    ensures ListOk(m[first := p'], first, list) && free - 1 == Sum(m[first := p'], list)
  {
    DllFrame(m, m[first := p'], list, 0, 0);
    hide Dll, Distinct;
    assert first in list;
    SumFrame(m, m[first := p'], list[1..]);
  }

  /** The page leaves the list. */
  lemma TakeLast(m: Pages, first: int, free: int, list: seq<int>, p': Page)
    requires ListOk(m, first, list) && first in m && list != [] && first !in list[1..] && free == Sum(m, list)
    requires 0 == p'.free == m[first].free - 1
    ensures var m' := SetPrev(m[first := p'], list[1..], 0);
      ListOk(m', m[first].next, list[1..]) && free - 1 == Sum(m', list[1..])
  {
    var m1, rest := m[first := p'], list[1..];
    DllFrame(m, m1, rest, first, 0);
    SetPrevOk(m1, rest, first, 0, 0);
    hide Dll;
    assert list == [first] + rest;
    assert forall q :: q in list <==> q == first || q in rest;
    SumFrame(m, m1, rest);
    SumFrame(m1, SetPrev(m1, rest, 0), rest);
  }

  /** A slot goes back to its page (lines 222-256). */
  lemma GiveSlot(p: Page, c: seq<int>, entries: nat, i: int)
    requires PageOk(p, c, entries) && 0 <= i < entries && i !in c
    ensures var p' := p.(link := p.link[i := p.firstFree], firstFree := i, free := p.free + 1);
      PageOk(p', [i] + c, entries)
  {
    ChainFrame(p.link, p.firstFree, c, i, p.firstFree);
    assert ([i] + c)[1..] == c;
  }

  /** A page that had free slots has one more. */
  lemma GrowPage(m: Pages, first: int, free: int, list: seq<int>, chains: Chains, entries: nat,
                 c: int, p': Page, chain: seq<int>)
    requires Ok(m, first, free, list, chains, entries) && c in m && m[c].free > 0
    requires PageOk(p', chain, entries) && p'.free == m[c].free + 1 && p'.next == m[c].next && p'.prev == m[c].prev
    ensures Ok(m[c := p'], first, free + 1, list, chains[c := chain], entries)
  {
    PageReplaced(m, chains, entries, c, p', chain);
    hide PagesOk, PageOk;
    var i :| 0 <= i < |list| && list[i] == c;
    var m' := m[c := p'];
    DllFrame(m, m', list, 0, 0);
    assert list == list[..i] + [c] + list[i + 1..];
    SumChange(m, m', list[..i], c, list[i + 1..]);
  }

  /** A page that was full comes to the front of the list (lines 259-266). */
  lemma PushPage(m: Pages, first: int, free: int, list: seq<int>, chains: Chains, entries: nat,
                 c: int, p': Page, chain: seq<int>)
    requires Ok(m, first, free, list, chains, entries) && (c in m ==> m[c].free <= 0) && c != 0
    requires PageOk(p', chain, entries) && p'.free > 0 && p'.next == first && p'.prev == 0
    ensures var m' := SetPrev(m[c := p'], list, c);
      c in m' && m'[c] == p' && Ok(m', c, free + p'.free, [c] + list, chains[c := chain], entries)
  {
    hide PageOk, Dll, Sum, Distinct, ListOk;
    var m1 := m[c := p'];
    assert PagesOk(m1, chains[c := chain], entries);
    PagesRelinked(m1, SetPrev(m1, list, c), chains[c := chain], entries);
    hide PagesOk;
    PushList(m, first, list, c, p');
  }

  /** The list with a page in front. */
  lemma PushList(m: Pages, first: int, list: seq<int>, c: int, p': Page)
    requires ListOk(m, first, list) && (c in m ==> m[c].free <= 0) && c != 0
    requires p'.free > 0 && p'.next == first && p'.prev == 0
    ensures var m' := SetPrev(m[c := p'], list, c);
      c in m' && m'[c] == p' && ListOk(m', c, [c] + list) && Sum(m', [c] + list) == Sum(m, list) + p'.free
  {
    var m1 := m[c := p'];
    var m' := SetPrev(m1, list, c);
    assert c !in list;
    DllFrame(m, m1, list, 0, 0);
    SetPrevOk(m1, list, 0, 0, c);
    assert ([c] + list)[1..] == list;
    SumFrame(m, m1, list);
    SumFrame(m1, m', list);
  }

  lemma SumChange(m: Pages, m': Pages, s: seq<int>, p: int, u: seq<int>)
    requires p in m && p in m' && p !in s && p !in u
    requires forall q :: q in s || q in u ==> (q in m <==> q in m')
    requires forall q :: (q in s || q in u) && q in m ==> m'[q].free == m[q].free
    ensures Sum(m', s + [p] + u) - Sum(m, s + [p] + u) == m'[p].free - m[p].free
  {
    SumJoin(m, s + [p], u);
    SumJoin(m, s, [p]);
    SumJoin(m', s + [p], u);
    SumJoin(m', s, [p]);
    SumFrame(m, m', s);
    SumFrame(m, m', u);
    assert [p][1..] == [];
  }

  /** The links of a page on the list name its neighbours. */
  lemma PlaceOf(m: Pages, s: seq<int>, c: int, u: seq<int>)
    requires Dll(m, s + [c] + u, 0, 0) && 0 !in s && 0 !in u
    ensures c in m && m[c].prev == Last(s, 0) && m[c].next == Head(u, 0)
    ensures Dll(m, s, 0, c) && Dll(m, u, c, 0)
    ensures s == [] <==> m[c].prev == 0
    ensures u == [] <==> m[c].next == 0
  {
    DllJoin(m, s + [c], u, 0, 0);
    DllJoin(m, s, [c], 0, Head(u, 0));
    assert Last(s + [c], 0) == c && [c][1..] == [];
    assert s != [] ==> Last(s, 0) in s;
    assert u != [] ==> u[0] in u;
  }

  lemma DistinctParts(s: seq<int>, u: seq<int>)
    requires Distinct(s + u)
    ensures Distinct(s) && Distinct(u) && forall p :: p in s ==> p !in u
  {
    assert forall i :: 0 <= i < |s| ==> s[i] == (s + u)[i];
    assert forall i :: 0 <= i < |u| ==> u[i] == (s + u)[|s| + i];
  }

  /** The list closes over the page between `s` and `u`. */
  lemma DllClose(m: Pages, s: seq<int>, c: int, u: seq<int>)
    requires Dll(m, s, 0, c) && Dll(m, u, c, 0) && Distinct(s + u) && c !in s && c !in u
    ensures Dll(SetPrev(SetNext(m, s, Head(u, 0)), u, Last(s, 0)) - {c}, s + u, 0, 0)
  {
    DistinctParts(s, u);
    var m1 := SetNext(m, s, Head(u, 0));
    SetNextOk(m, s, 0, c, Head(u, 0));
    DllFrame(m, m1, u, c, 0);
    var m2 := SetPrev(m1, u, Last(s, 0));
    SetPrevOk(m1, u, c, 0, Last(s, 0));
    DllFrame(m1, m2, s, 0, Head(u, 0));
    DllFrame(m2, m2 - {c}, s, 0, Head(u, 0));
    DllFrame(m2, m2 - {c}, u, Last(s, 0), 0);
    DllJoin(m2 - {c}, s, u, 0, 0);
  }

  lemma Relinked(m: Pages, s: seq<int>, u: seq<int>, x: int, y: int)
    ensures var m' := SetPrev(SetNext(m, s, x), u, y);
      && m'.Keys == m.Keys
      && forall p :: p in m ==>
        m'[p].link == m[p].link && m'[p].firstFree == m[p].firstFree && m'[p].free == m[p].free
        && m'[p].prealloc == m[p].prealloc
  {
  }

  lemma SumDrop(m: Pages, m': Pages, s: seq<int>, c: int, u: seq<int>)
    requires c in m && c !in s && c !in u && m'.Keys == m.Keys - {c}
    requires forall p :: p in m' ==> m'[p].free == m[p].free
    ensures Sum(m', s + u) == Sum(m, s + [c] + u) - m[c].free
  {
    SumJoin(m, s + [c], u);
    SumJoin(m, s, [c]);
    assert [c][1..] == [];
    SumJoin(m', s, u);
    SumFrame(m, m', s);
    SumFrame(m, m', u);
  }

  /** A page is taken off the list and given back (lines 279-289). */
  lemma DropPage(m: Pages, first: int, free: int, list: seq<int>, chains: Chains, entries: nat, c: int,
                 s: seq<int>, u: seq<int>)
    requires Ok(m, first, free, list, chains, entries) && c in m && m[c].free > 0
    requires list == s + [c] + u && c !in s && c !in u && Distinct(s + u) && Dll(m, s, 0, c) && Dll(m, u, c, 0)
    requires forall p :: p in list <==> p in s || p == c || p in u
    ensures var m' := SetPrev(SetNext(m, s, Head(u, 0)), u, Last(s, 0)) - {c};
      Ok(m', Head(s + u, 0), free - m[c].free, s + u, chains - {c}, entries)
  {
    hide SetPrev, SetNext, Dll, Distinct, PageOk, Sum, Head, Last, ListOk;
    var m1 := SetPrev(SetNext(m, s, Head(u, 0)), u, Last(s, 0));
    Relinked(m, s, u, Head(u, 0), Last(s, 0));
    PagesRelinked(m, m1, chains, entries);
    assert PagesOk(m1 - {c}, chains - {c}, entries);
    hide PagesOk;
    DropList(m, first, list, c, s, u);
  }

  /** The list without a page. */
  lemma DropList(m: Pages, first: int, list: seq<int>, c: int, s: seq<int>, u: seq<int>)
    requires ListOk(m, first, list) && c in m && m[c].free > 0
    requires list == s + [c] + u && c !in s && c !in u && Distinct(s + u) && Dll(m, s, 0, c) && Dll(m, u, c, 0)
    requires forall p :: p in list <==> p in s || p == c || p in u
    ensures var m' := SetPrev(SetNext(m, s, Head(u, 0)), u, Last(s, 0)) - {c};
      ListOk(m', Head(s + u, 0), s + u) && Sum(m', s + u) == Sum(m, list) - m[c].free
  {
    hide SetPrev, SetNext, Dll, Distinct, Sum, Head, Last;
    var m' := SetPrev(SetNext(m, s, Head(u, 0)), u, Last(s, 0)) - {c};
    DllClose(m, s, c, u);
    Relinked(m, s, u, Head(u, 0), Last(s, 0));
    SumDrop(m, m', s, c, u);
    assert forall p :: p in s + u <==> p in s || p in u;
  }

  // ------------------------------------------------------------- fresh pages

  function Count(from: int, n: nat): seq<int>
    decreases n
  {
    if n == 0 then [] else [from] + Count(from + 1, n - 1)
  }

  lemma {:induction false} CountIs(from: int, n: nat)
    ensures |Count(from, n)| == n && forall i :: 0 <= i < n ==> Count(from, n)[i] == from + i
    decreases n
  {
    if n > 0 { CountIs(from + 1, n - 1); }
  }

  /** The links `cont_init` writes: each slot to the next one. */
  ghost predicate Threaded(link: seq<int>)
  {
    forall i :: 0 <= i < |link| ==> link[i] == if i + 1 < |link| then i + 1 else -1
  }

  lemma {:induction false} ThreadedChain(link: seq<int>, from: int)
    requires Threaded(link) && 0 <= from <= |link|
    ensures Chain(link, if from < |link| then from else -1, Count(from, |link| - from))
    decreases |link| - from
  {
    if from < |link| {
      ThreadedChain(link, from + 1);
      assert Count(from, |link| - from)[1..] == Count(from + 1, |link| - from - 1);
    }
  }

  /** A page with all its slots free, in order. */
  lemma FreshPage(p: Page, entries: nat)
    requires |p.link| == entries > 0 && Threaded(p.link) && p.firstFree == 0 && p.free == entries
    ensures PageOk(p, Count(0, entries), entries) && forall i :: 0 <= i < entries ==> i in Count(0, entries)
  {
    ThreadedChain(p.link, 0);
    CountIs(0, entries);
    forall i | 0 <= i < entries ensures i in Count(0, entries) { assert Count(0, entries)[i] == i; }
  }

  /** A page goes to the end of a list whose last page points to it. */
  lemma AppendPage(m: Pages, s: seq<int>, c: int, p: Page, next: int)
    requires Dll(m, s, 0, c) && c !in s && c !in m && p.prev == Last(s, 0) && p.next == next
    ensures Dll(m[c := p], s + [c], 0, next)
    ensures Sum(m[c := p], s + [c]) == Sum(m, s) + p.free
  {
    DllFrame(m, m[c := p], s, 0, c);
    DllJoin(m[c := p], s, [c], 0, next);
    SumJoin(m[c := p], s, [c]);
    SumFrame(m, m[c := p], s);
    assert [c][1..] == [];
  }

  lemma ExactDivision(n: nat, entries: nat)
    requires n > 0
    ensures n * entries / n == entries
  {
    var q, r := n * entries / n, n * entries % n;
    assert n * entries == n * q + r;
    assert n * (entries - q) == r;
    if entries - q >= 1 { MulOrder(n, 1, entries - q); } else if entries - q <= -1 { MulOrder(n, entries - q, -1); }
  }

  // ---------------------------------------------------------- the containers

  /** What `containers` holds for one type of structure. */
  class Containers {
    const entries: nat
    var pages: Pages
    var firstFree: int
    var free: int
    var maxFree: int
    ghost var list: seq<int>
    ghost var chains: Chains

    ghost predicate Valid()
      reads this
    {
      entries > 0 && maxFree == entries && Ok(pages, firstFree, free, list, chains, entries)
    }

    /** The slots handed out and not given back. */
    ghost function Outstanding(): iset<Slot>
      reads this
    {
      Live(chains, entries)
    }

    /** `cont_init`. */
    static method ContInit(entries: nat, prealloc: bool) returns (c: Page)
      requires entries > 0
      ensures c.prealloc == prealloc && c.next == c.prev == 0 && c.free == entries
      ensures PageOk(c, Count(0, entries), entries) && forall i :: 0 <= i < entries ==> i in Count(0, entries)
    {
      var link := [];
      for i := 1 to entries
        invariant |link| == i - 1 && forall k :: 0 <= k < i - 1 ==> link[k] == k + 1
      {
        link := link + [i];
      }
      link := link + [-1];
      c := Page(prealloc, entries, 0, 0, 0, link);
      FreshPage(c, entries);
    }

    /** The pages `init_container_type` sets up, from `base` on. */
    static method StaticPages(entries: nat, count: nat, base: int, pageSize: nat)
      returns (pages: Pages, ghost list: seq<int>, ghost chains: Chains)
      requires entries > 0 && count > 0 && base > 0 && pageSize > 0
      ensures Ok(pages, base, count * entries, list, chains, entries) && |pages| == count
      ensures (forall p :: p in pages ==> pages[p].prealloc) && Live(chains, entries) == iset{}
    {
      pages, list, chains := map[], [], map[];
      var c := base;
      hide Setup, Count, PageOk;
      SetupNone(entries, base, pageSize);
      for j := 0 to count
        invariant Setup(pages, list, chains, entries, c, base, j, pageSize, if j == count then 0 else c)
        invariant Sum(pages, list) == j * entries
      {
        var page := ContInit(entries, true);
        page := page.(prev := if j == 0 then 0 else c - pageSize);
        page := page.(next := if j == count - 1 then 0 else c + pageSize);
        PageLinks(page.(prev := 0, next := 0), Count(0, entries), entries, page.prev, page.next);
        SetupMore(pages, list, chains, entries, c, base, j, pageSize, page);
        hide Sum;
        pages := pages[c := page];
        chains := chains[c := Count(0, entries)];
        list := list + [c];
        c := c + pageSize;
        assert (j + 1) * entries == j * entries + entries;
      }
      SetupDone(pages, list, chains, entries, c, base, count, pageSize);
      hide Ok, Live;
    }

    /** `init_container_type`. */
    constructor (entries: nat, elems: nat, count: nat, base: int, pageSize: nat)
      requires entries > 0 && count > 0 && elems == count * entries && base > 0 && pageSize > 0
      ensures Valid() && free == elems && |pages| == count
      ensures this.entries == entries && (forall p :: p in pages ==> pages[p].prealloc)
      ensures Outstanding() == iset{}
    {
      ExactDivision(count, entries);
      this.entries := entries;
      free := elems;
      maxFree := elems / count;
      firstFree := base;
      var p: Pages;
      ghost var l, ch;
      p, l, ch := StaticPages(entries, count, base, pageSize);
      pages, list, chains := p, l, ch;
    }

    /** `csalloc`. `supply` is what `dyn_alloc_page` would give: an address not in use, or 0. The slot
        comes back as a page of 0 on failure. */
    method CsAlloc(supply: int) returns (s: Slot)
      requires Valid() && supply !in pages
      modifies this
      ensures Valid()
      ensures s.page == 0 <==> old(firstFree) == 0 && supply == 0
      ensures s.page == 0 ==> unchanged(this)
      ensures s.page != 0 ==>
        && s !in old(Outstanding()) && Outstanding() == old(Outstanding()) + iset{s}
      ensures pages.Keys == old(pages.Keys) + (if old(firstFree) == 0 && supply != 0 then {supply} else {})
      ensures forall p :: p in old(pages) ==> pages[p].prealloc == old(pages)[p].prealloc
      ensures free == old(free) - (if s.page == 0 then 0 else 1)
                      + (if old(firstFree) == 0 && supply != 0 then entries else 0)
    {
      if firstFree == 0 {
        if supply == 0 { return Slot(0, 0); }
        var page := ContInit(entries, false);
        EmptyList(pages, list);
        PushPage(pages, firstFree, free, list, chains, entries, supply, page, Count(0, entries));
        FreshLive(chains, entries, supply);
        pages := pages[supply := page];
        firstFree := supply;
        free := free + entries;
        list := [supply];
        chains := chains[supply := Count(0, entries)];
        hide Count;
        s := TakeFirst();
      } else {
        s := TakeFirst();
      }
    }

    /** Lines 170-209. */
    method TakeFirst() returns (s: Slot)
      requires Valid() && firstFree != 0
      modifies this
      ensures Valid() && s.page == old(firstFree)
      ensures s !in old(Outstanding()) && Outstanding() == old(Outstanding()) + iset{s}
      ensures pages.Keys == old(pages.Keys) && free == old(free) - 1
      ensures forall p :: p in old(pages) ==> pages[p].prealloc == old(pages)[p].prealloc
    {
      hide Ok, Live;
      TakePlan(pages, firstFree, free, list, chains, entries);
      var c := firstFree;
      var page := pages[c];
      s := Slot(c, page.firstFree);
      chains := chains[c := chains[c][1..]];
      page := page.(firstFree := page.link[page.firstFree]);
      page := page.(free := page.free - 1);
      pages := pages[c := page];
      free := free - 1;
      if page.free == 0 {
        firstFree := page.next;
        if page.next != 0 { pages := pages[page.next := pages[page.next].(prev := 0)]; }
        list := list[1..];
      }
    }

    /** `csfree`. `returned` is the page handed to `dyn_free_page`, or 0. */
    method CsFree(s: Slot) returns (returned: int)
      requires Valid() && s in Outstanding()
      modifies this
      ensures Valid() && Outstanding() == old(Outstanding()) - iset{s}
      ensures returned != 0 <==>
        && !old(pages)[s.page].prealloc && old(free) >= entries
        && forall t :: t in Outstanding() ==> t.page != s.page
      ensures returned != 0 ==> returned == s.page
      ensures pages.Keys == old(pages.Keys) - {returned}
      ensures forall p :: p in pages ==> pages[p].prealloc == old(pages)[p].prealloc
      ensures free == old(free) + 1 - (if returned == 0 then 0 else entries)
      ensures free >= 1 && firstFree != 0
    {
      var c := s.page;
      GiveBack(s);
      ChainBounds(pages[c].link, pages[c].firstFree, chains[c]);
      LiveDrop(chains, entries, c);
      returned := 0;
      if !pages[c].prealloc && pages[c].free == entries {
        if free > maxFree {
          Unlink(c);
          returned := c;
        }
      }
      FreePositive(pages, firstFree, free, list, chains, entries);
    }

    /** Lines 222-266. */
    method GiveBack(s: Slot)
      requires Valid() && s in Outstanding()
      modifies this
      ensures Valid() && Outstanding() == old(Outstanding()) - iset{s}
      ensures pages.Keys == old(pages.Keys) && s.page in pages && pages[s.page].free > 0
      ensures forall p :: p in pages ==> pages[p].prealloc == old(pages)[p].prealloc
      ensures free == old(free) + 1
    {
      hide Ok, Live;
      var c := s.page;
      GivePlan(pages, firstFree, free, list, chains, entries, s);
      ghost var chain := [s.index] + chains[c];
      var page := pages[c];
      page := page.(link := page.link[s.index := page.firstFree], firstFree := s.index);
      page := page.(free := page.free + 1);
      if page.free == 1 {
        page := page.(next := firstFree, prev := 0);
        pages := pages[c := page];
        if firstFree != 0 { pages := pages[firstFree := pages[firstFree].(prev := c)]; }
        firstFree := c;
        list := [c] + list;
      } else {
        pages := pages[c := page];
      }
      chains := chains[c := chain];
      free := free + 1;
    }

    /** Lines 279-289. */
    method Unlink(c: int)
      requires Valid() && c in pages && pages[c].free == entries
      modifies this
      ensures Valid() && pages.Keys == old(pages.Keys) - {c} && free == old(free) - entries
      ensures forall p :: p in pages ==> pages[p].prealloc == old(pages)[p].prealloc
      ensures Outstanding() == old(Outstanding())
    {
      hide Ok, Live, Distinct;
      ghost var s, u := DropPlan(pages, firstFree, free, list, chains, entries, c);
      var page := pages[c];
      if page.prev == 0 {
        firstFree := page.next;
      } else {
        pages := pages[page.prev := pages[page.prev].(next := page.next)];
      }
      if page.next != 0 { pages := pages[page.next := pages[page.next].(prev := page.prev)]; }
      free := free - entries;
      pages := pages - {c};
      list := s + u;
      chains := chains - {c};
    }
  }

  /** The slot given back is no longer handed out; nothing else changes hands. */
  lemma LiveGive(chains: Chains, entries: nat, s: Slot)
    requires s in Live(chains, entries)
    ensures Live(chains[s.page := [s.index] + chains[s.page]], entries) == Live(chains, entries) - iset{s}
  {
    assert forall i :: i in [s.index] + chains[s.page] <==> i == s.index || i in chains[s.page];
  }

  /** A page all of whose slots are free can go without any slot changing hands; a page with fewer cannot. */
  lemma LiveDrop(chains: Chains, entries: nat, c: int)
    requires c in chains && Distinct(chains[c]) && forall i :: i in chains[c] ==> 0 <= i < entries
    ensures |chains[c]| == entries ==> Live(chains - {c}, entries) == Live(chains, entries)
    ensures |chains[c]| == entries <==> forall t :: t in Live(chains, entries) ==> t.page != c
  {
    DistinctLength(chains[c], entries);
    if forall t :: t in Live(chains, entries) ==> t.page != c {
      forall i | 0 <= i < entries ensures i in chains[c] {
        assert Slot(c, i) !in Live(chains, entries);
      }
      DistinctAll(chains[c], entries);
    }
  }

  lemma FirstKnown(m: Pages, first: int, list: seq<int>)
    requires ListOk(m, first, list) && 0 !in m
    ensures list == [] <==> first == 0
    ensures first != 0 ==> first in m && first == list[0]
  {
    assert list != [] ==> Head(list, 0) in list;
  }

  lemma NoNull(m: Pages, list: seq<int>, s: seq<int>, u: seq<int>)
    requires 0 !in m && (forall p :: p in list ==> p in m) && forall p :: p in s || p in u ==> p in list
    ensures 0 !in s && 0 !in u
    ensures s != [] ==> Last(s, 0) in s && Last(s, 0) in m
    ensures u != [] ==> Head(u, 0) in u && Head(u, 0) in m
  {
    assert s != [] ==> Last(s, 0) in s;
    assert u != [] ==> Head(u, 0) in u;
  }

  /** Something free somewhere: the next `csalloc` needs no new page. */
  lemma FreePositive(m: Pages, first: int, free: int, list: seq<int>, chains: Chains, entries: nat)
    requires Ok(m, first, free, list, chains, entries)
    ensures free >= 0 && (free >= 1 <==> first != 0)
  {
    FirstKnown(m, first, list);
    SumPositive(m, list);
  }

  lemma {:induction false} SumPositive(m: Pages, list: seq<int>)
    requires forall p :: p in list ==> p in m && m[p].free > 0
    ensures Sum(m, list) >= |list|
  {
    if list != [] {
      var q := list[0];
      assert q in list && q in m && m[q].free > 0;
      SumPositive(m, list[1..]);
    }
  }

  /** What taking the first slot gives. */
  lemma TakePlan(m: Pages, first: int, free: int, list: seq<int>, chains: Chains, entries: nat)
    requires Ok(m, first, free, list, chains, entries) && first != 0
    ensures first in m && first in chains && list != [] && chains[first] != []
    ensures 0 <= m[first].firstFree < |m[first].link| && m[first].free > 0
    ensures var p' := Taken(m[first]);
      var chains' := chains[first := chains[first][1..]];
      if p'.free > 0 then Ok(m[first := p'], first, free - 1, list, chains', entries)
      else
        && (m[first].next == 0 <==> list[1..] == [])
        && (list[1..] != [] ==> m[first].next == list[1] && list[1] in m && list[1] != first)
        && Ok(SetPrev(m[first := p'], list[1..], 0), m[first].next, free - 1, list[1..], chains', entries)
    ensures var s := Slot(first, m[first].firstFree);
      && s !in Live(chains, entries)
      && Live(chains[first := chains[first][1..]], entries) == Live(chains, entries) + iset{s}
  {
    FirstNext(m, first, list);
    TakeSlot(m, first, free, list, chains, entries);
    LiveTake(chains, entries, first);
  }

  /** A page with the slot `i` put first in its chain. */
  function Returned(p: Page, i: int): Page
    requires 0 <= i < |p.link|
  {
    p.(link := p.link[i := p.firstFree], firstFree := i, free := p.free + 1)
  }

  /** What giving a slot back gives. */
  lemma GivePlan(m: Pages, first: int, free: int, list: seq<int>, chains: Chains, entries: nat, s: Slot)
    requires Ok(m, first, free, list, chains, entries) && s in Live(chains, entries)
    ensures s.page in m && s.page in chains && 0 <= s.index < |m[s.page].link|
    ensures (list == [] <==> first == 0) && (first != 0 ==> first in m && first == list[0])
    ensures var c, p', chains' := s.page, Returned(m[s.page], s.index), chains[s.page := [s.index] + chains[s.page]];
      && Live(chains', entries) == Live(chains, entries) - iset{s} && p'.free > 0
      && if p'.free == 1 then
           && (first != 0 ==> first != c)
           && Ok(SetPrev(m[c := p'.(next := first, prev := 0)], list, c), c, free + 1, [c] + list, chains', entries)
         else Ok(m[c := p'], first, free + 1, list, chains', entries)
  {
    var c, p', chain := s.page, Returned(m[s.page], s.index), [s.index] + chains[s.page];
    LiveGive(chains, entries, s);
    GiveSlot(m[c], chains[c], entries, s.index);
    FirstKnown(m, first, list);
    if p'.free == 1 {
      PageLinks(p', chain, entries, 0, first);
      PushPage(m, first, free, list, chains, entries, c, p'.(next := first, prev := 0), chain);
    } else {
      GrowPage(m, first, free, list, chains, entries, c, p', chain);
    }
  }

  /** Where a page stands in the list, and what closing the list over it gives. */
  lemma DropPlan(m: Pages, first: int, free: int, list: seq<int>, chains: Chains, entries: nat, c: int)
    returns (s: seq<int>, u: seq<int>)
    requires Ok(m, first, free, list, chains, entries) && c in m && m[c].free == entries > 0
    ensures m[c].prev == Last(s, 0) && m[c].next == Head(u, 0)
    ensures s == [] <==> m[c].prev == 0
    ensures u == [] <==> m[c].next == 0
    ensures s != [] ==> Last(s, 0) in m && Head(s + u, 0) == first
    ensures u != [] ==> Head(u, 0) in m
    ensures var m' := SetPrev(SetNext(m, s, Head(u, 0)), u, Last(s, 0)) - {c};
      Ok(m', Head(s + u, 0), free - entries, s + u, chains - {c}, entries)
    ensures Live(chains - {c}, entries) == Live(chains, entries)
  {
    s, u := CutAt(list, c);
    NoNull(m, list, s, u);
    PlaceOf(m, s, c, u);
    DropPage(m, first, free, list, chains, entries, c, s, u);
    ChainBounds(m[c].link, m[c].firstFree, chains[c]);
    LiveDrop(chains, entries, c);
  }

  lemma EmptyList(m: Pages, list: seq<int>)
    requires ListOk(m, 0, list) && 0 !in m
    ensures list == []
  {
    assert forall p :: p in list ==> p in m;
    assert list == [] || Head(list, 0) in list;
  }

  /** The first page points to the second, and there is one with free slots. */
  lemma FirstNext(m: Pages, first: int, list: seq<int>)
    requires ListOk(m, first, list) && first != 0 && 0 !in m
    ensures list != [] && first in m && m[first].free > 0
    ensures m[first].next == Head(list[1..], 0) && (list[1..] == [] <==> m[first].next == 0)
    ensures list[1..] != [] ==> list[1] in m && list[1] != first
    ensures first !in list[1..] && first == list[0]
  {
    assert list[0] in list;
    if |list| > 1 { assert list[1] in list; }
  }

  lemma FreshLive(chains: Chains, entries: nat, c: int)
    requires c !in chains
    ensures Live(chains[c := Count(0, entries)], entries) == Live(chains, entries)
  {
    CountIs(0, entries);
    forall i | 0 <= i < entries ensures i in Count(0, entries) { assert Count(0, entries)[i] == i; }
  }

  lemma LiveTake(chains: Chains, entries: nat, c: int)
    requires c in chains && chains[c] != [] && Distinct(chains[c]) && 0 <= chains[c][0] < entries
    ensures var s := Slot(c, chains[c][0]);
      && s !in Live(chains, entries)
      && Live(chains[c := chains[c][1..]], entries) == Live(chains, entries) + iset{s}
  {
    assert forall i :: i in chains[c] <==> i == chains[c][0] || i in chains[c][1..];
  }

  /** Preallocated pages below `c`, all of whose slots are free. */
  ghost predicate AllFree(m: Pages, list: seq<int>, chains: Chains, entries: nat, c: int)
  {
    && Distinct(list) && chains.Keys == m.Keys && (forall p :: p in m <==> p in list)
    && (forall p :: p in m ==>
          && 0 < p < c && m[p].prealloc && m[p].free == entries && PageOk(m[p], chains[p], entries)
          && forall i :: 0 <= i < entries ==> i in chains[p])
  }

  /** `j` such pages, linked from `base` on, the last of them pointing to `next`. */
  ghost predicate Setup(m: Pages, list: seq<int>, chains: Chains, entries: nat,
                        c: int, base: int, j: nat, size: nat, next: int)
  {
    && c > 0 && |m| == j == |list| && Head(list, c) == base
    && Last(list, 0) == (if j == 0 then 0 else c - size)
    && Dll(m, list, 0, next) && AllFree(m, list, chains, entries, c)
  }

  lemma SetupNone(entries: nat, base: int, size: nat)
    requires base > 0
    ensures Setup(map[], [], map[], entries, base, base, 0, size, base) && Sum(map[], []) == 0
  {
  }

  lemma SetupMore(m: Pages, list: seq<int>, chains: Chains, entries: nat, c: int, base: int, j: nat, size: nat, p: Page)
    requires Setup(m, list, chains, entries, c, base, j, size, c) && size > 0
    requires p.prealloc && p.free == entries && PageOk(p, Count(0, entries), entries)
    requires forall i :: 0 <= i < entries ==> i in Count(0, entries)
    requires p.prev == if j == 0 then 0 else c - size
    ensures Setup(m[c := p], list + [c], chains[c := Count(0, entries)], entries, c + size, base, j + 1, size, p.next)
    ensures Sum(m[c := p], list + [c]) == Sum(m, list) + entries
  {
    assert c !in m && c !in list;
    AppendPage(m, list, c, p, p.next);
    AllFreeMore(m, list, chains, entries, c, p, size);
  }

  lemma SetupDone(m: Pages, list: seq<int>, chains: Chains, entries: nat, c: int, base: int, j: nat, size: nat)
    requires Setup(m, list, chains, entries, c, base, j, size, 0) && entries > 0 && j > 0
    ensures Ok(m, base, Sum(m, list), list, chains, entries) && Live(chains, entries) == iset{} && |m| == j
    ensures forall p :: p in m ==> m[p].prealloc
  {
  }

  lemma AllFreeMore(m: Pages, list: seq<int>, chains: Chains, entries: nat, c: int, p: Page, size: nat)
    requires AllFree(m, list, chains, entries, c) && c > 0 && size > 0
    requires p.prealloc && p.free == entries && PageOk(p, Count(0, entries), entries)
    requires forall i :: 0 <= i < entries ==> i in Count(0, entries)
    ensures AllFree(m[c := p], list + [c], chains[c := Count(0, entries)], entries, c + size)
  {
    assert c !in list;
    assert forall q :: q in list + [c] <==> q in list || q == c;
    hide PageOk, Count;
  }

  lemma PageLinks(p: Page, c: seq<int>, entries: nat, prev: int, next: int)
    requires PageOk(p, c, entries)
    ensures PageOk(p.(prev := prev, next := next), c, entries)
  {
  }
}
