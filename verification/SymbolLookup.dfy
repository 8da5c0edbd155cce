/**
 The symbol lookup of the dynamic linker, asgard/services/ld/ld.c: the hash tables of chapter 5 of the
 System V gABI against a search of the whole symbol tables.
 */
module SymbolLookup {

  /** A name as stored in a string table, without the terminator. */
  type Name = seq<bv8>

  // --------------------------------------------------------------------- hash

  function Shifted(h: bv32, c: bv8): bv32 { (h << 4) + (c as bv32) }

  /** The high four bits taken off, and folded into bits 4 to 7 when there are any. */
  function Reduced(h: bv32): bv32
  {
    if h & 0xf000_0000 != 0 then (h ^ ((h & 0xf000_0000) >> 24)) & !(h & 0xf000_0000) else h & !(h & 0xf000_0000)
  }

  function Folded(h: bv32): bv32 { (h & 0x0fff_ffff) ^ ((h >> 28) << 4) }

  /** The hash of the gABI: a round shifts in a byte, keeps 28 bits and folds the other four back in. */
  function Hash(name: Name): bv32
  {
    if name == [] then 0 else Folded(Shifted(Hash(name[..|name| - 1]), name[|name| - 1]))
  }

  lemma ReducedIs(h: bv32)
    ensures Reduced(h) == Folded(h) && Folded(h) < 0x1000_0000
  {
    NibbleFolds(h);
    FoldedSmall(h);
    if h & 0xf000_0000 == 0 { NoNibble(h); }
  }

  lemma NibbleFolds(h: bv32)
    ensures (h ^ ((h & 0xf000_0000) >> 24)) & !(h & 0xf000_0000) == (h & 0x0fff_ffff) ^ ((h >> 28) << 4)
  {
  }

  lemma FoldedSmall(h: bv32)
    ensures (h & 0x0fff_ffff) ^ ((h >> 28) << 4) < 0x1000_0000
  {
  }

  lemma NoNibble(h: bv32)
    requires h & 0xf000_0000 == 0
    ensures h & !(h & 0xf000_0000) == (h ^ ((h & 0xf000_0000) >> 24)) & !(h & 0xf000_0000)
  {
  }

  /** `elf_hash`. */
  method ElfHash(name: Name) returns (h: bv32)
    ensures h == Hash(name) && h < 0x1000_0000
  {
    h := 0;
    hide Folded, Reduced, Shifted;
    var i := 0;
    while i < |name|
      invariant 0 <= i <= |name| && h == Hash(name[..i]) && h < 0x1000_0000
    {
      ReducedIs(Shifted(h, name[i]));
      assert name[..i + 1][..i] == name[..i];
      h := Shifted(h, name[i]);
      h := Reduced(h);
      i := i + 1;
    }
    assert name[..i] == name;
  }

  /** A byte is added to sixteen times the hash so far. */
  lemma ShiftedIs(h: bv32, c: bv8)
    ensures Shifted(h, c) == h * 16 + (c as bv32)
  {
  }

  /** A name whose last byte pushes bits out at the top: `realloc`. */
  lemma HashRealloc()
    ensures Hash([0x72, 0x65, 0x61, 0x6C, 0x6C, 0x6F, 0x63]) == 0x08B8_3323
  {
    hide Hash;
    var name := [0x72, 0x65, 0x61, 0x6C, 0x6C, 0x6F, 0x63];
    HashStep(name, 0, 0, 0x72);
    HashStep(name, 1, 0x72, 0x785);
    HashStep(name, 2, 0x785, 0x78B1);
    HashStep(name, 3, 0x78B1, 0x7_8B7C);
    HashStep(name, 4, 0x7_8B7C, 0x78_B82C);
    HashStep(name, 5, 0x78_B82C, 0x078B_832F);
    HashStep(name, 6, 0x078B_832F, 0x08B8_3323);
    assert name[..7] == name;
  }

  lemma HashStep(name: Name, k: nat, h: bv32, h': bv32)
    requires k < |name| && h' == Folded(Shifted(h, name[k]))
    requires if k == 0 then h == 0 else Hash(name[..k]) == h
    ensures Hash(name[..k + 1]) == h'
  {
    assert name[..k + 1][..k] == name[..k];
  }

  // ------------------------------------------------------------------ objects

  /** An entry of a symbol table. `kind` and `bind` are the halves of `st_info`; `undef` is SHN_UNDEF. */
  datatype Sym = Sym(name: Name, kind: nat, bind: nat, undef: bool, value: nat)

  const NOTYPE := 0
  const OBJECT := 1
  const FUNC := 2
  const GLOBAL := 1
  const WEAK := 2

  datatype Obj = Obj(syms: seq<Sym>, buckets: seq<nat>, chain: seq<nat>, symbolic: bool)

  /** The tests of lines 866-882: an object, function or untyped symbol, global or weak, and defined unless a
      function address will do. */
  predicate Eligible(s: Sym, plt: bool)
  {
    && s.kind in {0, 1, 2} && s.bind in {1, 2}
    && !(s.undef && (plt || s.value == 0 || s.kind != 2))
  }

  predicate Matches(s: Sym, name: Name, plt: bool) { Eligible(s, plt) && s.name == name }

  function Bucket(name: Name, n: nat): (b: nat)
    requires n > 0
    ensures b < n
  {
    Hash(name) as int % n
  }

  /** Following `chain` from `p` visits the indices of `path`, in that order, and ends in 0. */
  ghost predicate Walk(chain: seq<nat>, p: nat, path: seq<nat>)
    decreases path
  {
    if path == [] then p == 0 else p == path[0] && 0 < p < |chain| && Walk(chain, chain[p], path[1..])
  }

  /** A well-formed hash table: `paths` are its chains, and every symbol is on the chain of its bucket. */
  ghost predicate Hashed(o: Obj, paths: seq<seq<nat>>)
  {
    && |o.buckets| == |paths| > 0 && |o.chain| == |o.syms|
    && (forall b :: 0 <= b < |paths| ==> Walk(o.chain, o.buckets[b], paths[b]))
    && (forall i :: 0 < i < |o.syms| ==> i in paths[Bucket(o.syms[i].name, |paths|)])
  }

  /** No two symbols that a lookup could find have the same name. */
  ghost predicate Unique(o: Obj, plt: bool)
  {
    forall i, j :: 0 < i < j < |o.syms| && Eligible(o.syms[i], plt) && Eligible(o.syms[j], plt) ==>
      o.syms[i].name != o.syms[j].name
  }

  /** The search of the whole table: the first match from index `i` on, or 0. */
  function Linear(o: Obj, name: Name, plt: bool, i: nat): (r: nat)
    requires 0 < i
    ensures r == 0 || (i <= r < |o.syms| && Matches(o.syms[r], name, plt))
    ensures forall k :: i <= k < (if r == 0 then |o.syms| else r) ==> !Matches(o.syms[k], name, plt)
    decreases |o.syms| - i
  {
    if i >= |o.syms| then 0 else if Matches(o.syms[i], name, plt) then i else Linear(o, name, plt, i + 1)
  }

  lemma EligibleIs(s: Sym, plt: bool)
    ensures Eligible(s, plt) <==>
      && (s.bind == GLOBAL || s.bind == WEAK) && (s.kind == NOTYPE || s.kind == OBJECT || s.kind == FUNC)
      && (!s.undef || (!plt && s.kind == FUNC && s.value != 0))
  {
  }

  lemma NoneFound(o: Obj, name: Name, plt: bool, i: nat)
    requires Linear(o, name, plt, 1) == 0 && 0 < i < |o.syms|
    ensures !Matches(o.syms[i], name, plt)
  {
  }

  /** A match is the first match when names are unique. */
  lemma FoundIs(o: Obj, name: Name, plt: bool, index: nat)
    requires 0 < index < |o.syms| && Matches(o.syms[index], name, plt)
    ensures Linear(o, name, plt, 1) != 0
    ensures Unique(o, plt) ==> index == Linear(o, name, plt, 1)
  {
  }

  /** Every match is on the chain of the bucket of its name. */
  lemma NoneIs(o: Obj, name: Name, plt: bool, paths: seq<seq<nat>>)
    requires Hashed(o, paths)
    requires forall i :: i in paths[Bucket(name, |paths|)] && i < |o.syms| ==> !Matches(o.syms[i], name, plt)
    ensures Linear(o, name, plt, 1) == 0
  {
  }

  /** `dl_find_symbol_obj`: a match is found whenever the table has one, and it is the one a search of the whole
      table finds when names are unique. An index of 0 is no symbol. */
  method FindSymbolObj(name: Name, hv: bv32, o: Obj, plt: bool, ghost paths: seq<seq<nat>>) returns (index: nat)
    requires hv == Hash(name) && Hashed(o, paths)
    ensures index == 0 <==> Linear(o, name, plt, 1) == 0
    ensures index != 0 ==> index < |o.syms| && Matches(o.syms[index], name, plt)
    // local symbols are never found, nor undefined ones, but for functions with an address when that will do
    ensures index != 0 ==>
      var s := o.syms[index];
      && s.name == name && (s.bind == GLOBAL || s.bind == WEAK)
      && (s.kind == NOTYPE || s.kind == OBJECT || s.kind == FUNC)
      && (s.undef ==> !plt && s.kind == FUNC && s.value != 0)
    // a defined one always is
    ensures index == 0 ==> forall i :: 0 < i < |o.syms| && o.syms[i].name == name && !o.syms[i].undef ==>
      || (o.syms[i].bind != GLOBAL && o.syms[i].bind != WEAK)
      || (o.syms[i].kind != NOTYPE && o.syms[i].kind != OBJECT && o.syms[i].kind != FUNC)
    ensures Unique(o, plt) ==> index == Linear(o, name, plt, 1)
  {
    hide Hash, Eligible, Linear, Unique;
    ghost var b := Bucket(name, |paths|);
    ghost var rest := paths[b];
    ghost var done: seq<nat> := [];
    index := o.buckets[hv as int % |o.buckets|];
    while index != 0
      invariant Walk(o.chain, index, rest) && paths[b] == done + rest
      invariant forall i :: i in done ==> i < |o.syms| && !Matches(o.syms[i], name, plt)
      decreases rest
    {
      var sm := o.syms[index];
      if Eligible(sm, plt) && sm.name == name {
        FoundIs(o, name, plt, index);
        EligibleIs(sm, plt);
        return;
      }
      done := done + [index];
      rest := rest[1..];
      index := o.chain[index];
    }
    assert rest == [];
    assert done == paths[b];
    NoneIs(o, name, plt, paths);
    forall i | 0 < i < |o.syms| ensures !Matches(o.syms[i], name, plt) { NoneFound(o, name, plt, i); }
    forall i | 0 < i < |o.syms| { EligibleIs(o.syms[i], plt); }
  }

  // ------------------------------------------------------------------- scopes

  datatype Result = Found(obj: int, index: nat) | NotFound

  /** All objects have well-formed hash tables and unique names. */
  ghost predicate AllHashed(objs: seq<Obj>, paths: seq<seq<seq<nat>>>, plt: bool)
  {
    |paths| == |objs| && forall o :: 0 <= o < |objs| ==> Hashed(objs[o], paths[o]) && Unique(objs[o], plt)
  }

  /** The symbol of object `o`, if its binding is `bind`. */
  function At(objs: seq<Obj>, name: Name, plt: bool, o: int, bind: nat): Result
  {
    if 0 <= o < |objs| && Linear(objs[o], name, plt, 1) != 0 && objs[o].syms[Linear(objs[o], name, plt, 1)].bind == bind
    then Found(o, Linear(objs[o], name, plt, 1)) else NotFound
  }

  /** The first object of `scope` that has the symbol with binding `bind`. */
  function First(objs: seq<Obj>, name: Name, plt: bool, scope: seq<int>, bind: nat): Result
  {
    if scope == [] then NotFound
    else if At(objs, name, plt, scope[0], bind).Found? then At(objs, name, plt, scope[0], bind)
    else First(objs, name, plt, scope[1..], bind)
  }

  /** The first global symbol in scope order, or else, if wanted, the first weak one. */
  function Resolve(objs: seq<Obj>, name: Name, plt: bool, scope: seq<int>, weak: bool): Result
  {
    if First(objs, name, plt, scope, 1).Found? then First(objs, name, plt, scope, 1)
    else if weak then First(objs, name, plt, scope, 2) else NotFound
  }

  /** More objects do not change what is found in the first ones. */
  lemma {:induction false} FirstJoin(objs: seq<Obj>, name: Name, plt: bool, s: seq<int>, t: seq<int>, bind: nat)
    ensures First(objs, name, plt, s + t, bind) ==
      if First(objs, name, plt, s, bind).Found? then First(objs, name, plt, s, bind)
      else First(objs, name, plt, t, bind)
  {
    hide At;
    if s == [] { assert s + t == t; } else {
      assert (s + t)[1..] == s[1..] + t;
      FirstJoin(objs, name, plt, s[1..], t, bind);
    }
  }

  /** Following `next` from `p` visits the objects of `path`, in that order, and ends in NULL (-1). */
  ghost predicate Listed(next: seq<int>, p: int, path: seq<int>)
    decreases path
  {
    if path == [] then p == -1 else p == path[0] && 0 <= p < |next| && Listed(next, next[p], path[1..])
  }

  /** `s` without the objects equal to `x`. */
  function Without(s: seq<int>, x: int): seq<int>
  {
    if s == [] then [] else (if s[0] == x then [] else [s[0]]) + Without(s[1..], x)
  }

  /** The order in which `dl_find_symbol` looks at objects, for global and local scopes `gs` and `ls`. */
  function Scope(objs: seq<Obj>, obj: int, exclude: bool, gs: seq<int>, ls: seq<int>): seq<int>
    requires 0 <= obj < |objs|
  {
    (if objs[obj].symbolic && !exclude then [obj] else []) + (if exclude then Without(gs, obj) else gs) + ls
  }

  /** Own object first if it is symbolic, then the global scope, then the local one. */
  lemma ScopeOrder(objs: seq<Obj>, obj: int, gs: seq<int>, ls: seq<int>)
    requires 0 <= obj < |objs|
    ensures objs[obj].symbolic ==> Scope(objs, obj, false, gs, ls) == [obj] + (gs + ls)
    ensures !objs[obj].symbolic ==> Scope(objs, obj, false, gs, ls) == gs + ls
  {
  }

  /** An excluded object is left out of the global scope and the others keep their order. */
  lemma ScopeExcludes(objs: seq<Obj>, obj: int, s: seq<int>, gs: seq<int>, ls: seq<int>)
    requires 0 <= obj < |objs| && obj !in s
    ensures Scope(objs, obj, true, s, ls) == s + ls
    ensures Scope(objs, obj, true, s + [obj] + gs, ls) == s + Scope(objs, obj, true, gs, ls)
  {
    hide Without;
    WithoutAbsent(s, obj);
    WithoutOne(s, gs, obj);
    assert s + (Without(gs, obj) + ls) == s + Without(gs, obj) + ls;
  }

  lemma WithoutOne(s: seq<int>, t: seq<int>, x: int)
    requires x !in s
    ensures Without(s + [x] + t, x) == s + Without(t, x)
  {
    WithoutAbsent(s, x);
    assert s + [x] + t == s + ([x] + t);
    WithoutJoin(s, [x] + t, x);
    assert ([x] + t)[1..] == t;
  }

  lemma {:induction false} WithoutAbsent(s: seq<int>, x: int)
    requires x !in s
    ensures Without(s, x) == s
  {
    if s != [] { WithoutAbsent(s[1..], x); }
  }

  lemma {:induction false} WithoutJoin(s: seq<int>, t: seq<int>, x: int)
    ensures Without(s + t, x) == Without(s, x) + Without(t, x)
  {
    if s == [] { assert s + t == t; } else {
      assert (s + t)[1..] == s[1..] + t;
      WithoutJoin(s[1..], t, x);
    }
  }

  /** The object at place `k` is the first of the scope that has the symbol with that binding. */
  ghost predicate FirstAt(objs: seq<Obj>, name: Name, plt: bool, scope: seq<int>, bind: nat, k: nat)
  {
    && k < |scope| && At(objs, name, plt, scope[k], bind).Found?
    && forall j :: 0 <= j < k ==> At(objs, name, plt, scope[j], bind).NotFound?
  }

  lemma {:induction false} FirstIs(objs: seq<Obj>, name: Name, plt: bool, scope: seq<int>, bind: nat)
    ensures First(objs, name, plt, scope, bind).NotFound? <==>
      forall k :: 0 <= k < |scope| ==> At(objs, name, plt, scope[k], bind).NotFound?
    ensures forall k: nat :: FirstAt(objs, name, plt, scope, bind, k) ==>
      First(objs, name, plt, scope, bind) == At(objs, name, plt, scope[k], bind)
  {
    hide At;
    if scope != [] {
      var rest := scope[1..];
      FirstIs(objs, name, plt, rest, bind);
      assert forall k :: 0 < k < |scope| ==> scope[k] == rest[k - 1];
      forall k: nat | FirstAt(objs, name, plt, scope, bind, k) && k > 0
        ensures First(objs, name, plt, scope, bind) == At(objs, name, plt, scope[k], bind)
      {
        assert forall j :: 0 <= j < k - 1 ==> rest[j] == scope[j + 1];
        assert FirstAt(objs, name, plt, rest, bind, k - 1);
      }
    }
  }

  /** A global symbol anywhere in scope comes before any weak one, the first of its kind before the others, and
      nothing is found only if there is nothing to find. */
  lemma ResolveFirst(objs: seq<Obj>, name: Name, plt: bool, scope: seq<int>, weak: bool)
    ensures forall k: nat :: FirstAt(objs, name, plt, scope, GLOBAL, k) ==>
      Resolve(objs, name, plt, scope, weak) == At(objs, name, plt, scope[k], GLOBAL)
    ensures weak && (forall k :: 0 <= k < |scope| ==> At(objs, name, plt, scope[k], GLOBAL).NotFound?) ==>
      forall k: nat :: FirstAt(objs, name, plt, scope, WEAK, k) ==>
        Resolve(objs, name, plt, scope, weak) == At(objs, name, plt, scope[k], WEAK)
    ensures Resolve(objs, name, plt, scope, weak).NotFound? <==>
      forall k :: 0 <= k < |scope| ==>
        && At(objs, name, plt, scope[k], GLOBAL).NotFound?
        && (weak ==> At(objs, name, plt, scope[k], WEAK).NotFound?)
  {
    hide At, First;
    FirstIs(objs, name, plt, scope, GLOBAL);
    FirstIs(objs, name, plt, scope, WEAK);
  }

  /** What is known once the objects of `seen` have been looked at. */
  ghost predicate Seen(objs: seq<Obj>, name: Name, plt: bool, seen: seq<int>, found: Result, weakest: Result)
  {
    && found == First(objs, name, plt, seen, 1)
    && (found.NotFound? ==> weakest == First(objs, name, plt, seen, 2))
  }

  lemma SeenMore(objs: seq<Obj>, name: Name, plt: bool, seen: seq<int>, o: int, weakest: Result, w: Result)
    requires Seen(objs, name, plt, seen, NotFound, weakest)
    requires At(objs, name, plt, o, 1).NotFound? ==> w == if weakest.Found? then weakest else At(objs, name, plt, o, 2)
    ensures Seen(objs, name, plt, seen + [o], At(objs, name, plt, o, 1), w)
  {
    hide At;
    FirstJoin(objs, name, plt, seen, [o], 1);
    FirstJoin(objs, name, plt, seen, [o], 2);
    assert [o][1..] == [];
  }

  /** Once a global symbol is found the rest of the scope does not matter. */
  lemma SeenRest(objs: seq<Obj>, name: Name, plt: bool, seen: seq<int>, rest: seq<int>, found: Result, weakest: Result)
    requires Seen(objs, name, plt, seen, found, weakest) && found.Found?
    ensures Seen(objs, name, plt, seen + rest, found, weakest)
  {
    FirstJoin(objs, name, plt, seen, rest, 1);
  }

  /** The objects and the links between them. */
  class Linker {
    const objs: seq<Obj>
    var next: seq<int>
    var lsFirst: seq<int>
    var gsFirst: int
    ghost const paths: seq<seq<seq<nat>>>

    /** As many links as objects; hash tables are well formed and names unique. */
    ghost predicate Valid(plt: bool)
      reads this
    {
      |next| == |lsFirst| == |objs| && AllHashed(objs, paths, plt)
    }

    constructor (objs: seq<Obj>, ghost paths: seq<seq<seq<nat>>>, ghost plt: bool)
      requires AllHashed(objs, paths, plt)
      ensures this.objs == objs && this.paths == paths && Valid(plt)
    {
      this.objs := objs;
      this.paths := paths;
      gsFirst := -1;
      next := seq(|objs|, _ => -1);
      lsFirst := seq(|objs|, _ => -1);
    }

    /** One object is looked at (lines 909-923, 932-946 and 958-973). */
    method Look(name: Name, hv: bv32, plt: bool, o: int, weakest: Result) returns (found: Result, weakest': Result)
      requires Valid(plt) && 0 <= o < |objs| && hv == Hash(name)
      ensures found == At(objs, name, plt, o, 1)
      ensures found.NotFound? ==> weakest' == if weakest.Found? then weakest else At(objs, name, plt, o, 2)
    {
      found, weakest' := NotFound, weakest;
      var fsm := FindSymbolObj(name, hv, objs[o], plt, paths[o]);
      hide Hash, Hashed, Unique;
      if fsm != 0 {
        if objs[o].syms[fsm].bind == 1 {
          found := Found(o, fsm);
        } else if objs[o].syms[fsm].bind == 2 && weakest.NotFound? {
          weakest' := Found(o, fsm);
        }
      }
    }

    /** The loops over the global and the local scope, from `first`; object `skip` is passed over. */
    method SearchList(name: Name, hv: bv32, plt: bool, first: int, skip: int, weak0: Result,
                      ghost path: seq<int>, ghost seen0: seq<int>)
      returns (found: Result, weakest: Result)
      requires Valid(plt) && hv == Hash(name) && Listed(next, first, path)
      requires Seen(objs, name, plt, seen0, NotFound, weak0)
      ensures Seen(objs, name, plt, seen0 + Without(path, skip), found, weakest)
    {
      found, weakest := NotFound, weak0;
      var o := first;
      ghost var rest, seen := path, seen0;
      hide Seen, Hash, At;
      while o != -1
        invariant Listed(next, o, rest)
        invariant found == NotFound && Seen(objs, name, plt, seen, found, weakest)
        invariant seen0 + Without(path, skip) == seen + Without(rest, skip)
        decreases rest
      {
        assert Without(rest, skip) == (if o == skip then [] else [o]) + Without(rest[1..], skip);
        if o != skip {
          ghost var weak1 := weakest;
          found, weakest := Look(name, hv, plt, o, weakest);
          SeenMore(objs, name, plt, seen, o, weak1, weakest);
          seen := seen + [o];
          if found.Found? {
            assert seen + Without(rest[1..], skip) == seen0 + Without(path, skip);
            SeenRest(objs, name, plt, seen, Without(rest[1..], skip), found, weakest);
            return;
          }
        }
        o := next[o];
        rest := rest[1..];
      }
      assert seen0 + Without(path, skip) == seen;
    }

    /** `dl_find_symbol`. */
    method FindSymbol(name: Name, obj: int, weak: bool, plt: bool, exclude: bool,
                      ghost gs: seq<int>, ghost ls: seq<int>)
      returns (r: Result)
      requires Valid(plt) && 0 <= obj < |objs|
      requires Listed(next, gsFirst, gs) && Listed(next, lsFirst[obj], ls)
      ensures r == Resolve(objs, name, plt, Scope(objs, obj, exclude, gs, ls), weak)
    {
      hide Seen, Hash, At, Listed, Without, Resolve, AllHashed, Scope;
      ghost var seen := [];
      var sm, weaksym := NotFound, NotFound;
      SeenNone(objs, name, plt);
      var hv := ElfHash(name);
      if objs[obj].symbolic && !exclude {
        sm, weaksym := Look(name, hv, plt, obj, weaksym);
        SeenMore(objs, name, plt, [], obj, NotFound, weaksym);
        seen := [] + [obj];
      }
      ghost var global := Without(gs, if exclude then obj else -1);
      if sm == NotFound {
        sm, weaksym := SearchList(name, hv, plt, gsFirst, if exclude then obj else -1, weaksym, gs, seen);
      } else {
        SeenRest(objs, name, plt, seen, global, sm, weaksym);
      }
      seen := seen + global;
      if sm == NotFound {
        sm, weaksym := SearchList(name, hv, plt, lsFirst[obj], -1, weaksym, ls, seen);
      } else {
        SeenRest(objs, name, plt, seen, Without(ls, -1), sm, weaksym);
      }
      seen := seen + Without(ls, -1);
      WithoutNone(next, gsFirst, gs);
      WithoutNone(next, lsFirst[obj], ls);
      ScopeIs(objs, obj, exclude, gs, ls);
      SeenAll(objs, name, plt, seen, sm, weaksym, weak);
      if sm.Found? {
        r := sm;
      } else if weaksym.Found? && weak {
        r := weaksym;
      } else {
        r := NotFound;
      }
    }

    /** `dl_build_global_scope`: the objects loaded, in that order. The list has the linker, object 1, in it. */
    method BuildGlobalScope(count: nat)
      requires 2 <= count <= |next|
      modifies this`next, this`gsFirst
      ensures |next| == |old(next)| && gsFirst == 0
      ensures Listed(next, gsFirst, UpTo(0, count))
    {
      var i := 2;
      gsFirst := 0;
      next := next[0 := 1];
      while i < count
        invariant 2 <= i <= count <= |next| == |old(next)| && gsFirst == 0
        invariant forall k :: 0 <= k < i - 1 ==> next[k] == k + 1
      {
        next := next[i - 1 := i];
        i := i + 1;
      }
      next := next[i - 1 := -1];
      ListedUpTo(next, 0, i);
    }
  }

  /** The numbers from `a` up to, not including, `b`. */
  function UpTo(a: nat, b: nat): (s: seq<int>)
    ensures |s| == (if a < b then b - a else 0) && forall i :: 0 <= i < |s| ==> s[i] == a + i
    decreases b - a
  {
    if a >= b then [] else [a] + UpTo(a + 1, b)
  }

  lemma {:induction false} ListedUpTo(next: seq<int>, a: nat, b: nat)
    requires a < b <= |next| && (forall k :: a <= k < b - 1 ==> next[k] == k + 1) && next[b - 1] == -1
    ensures Listed(next, a, UpTo(a, b))
    decreases b - a
  {
    assert UpTo(a, b)[1..] == UpTo(a + 1, b);
    if a + 1 < b { ListedUpTo(next, a + 1, b); }
  }

  lemma {:induction false} WithoutNone(next: seq<int>, p: int, path: seq<int>)
    requires Listed(next, p, path)
    ensures Without(path, -1) == path
    decreases path
  {
    if path != [] { WithoutNone(next, next[p], path[1..]); }
  }

  lemma ScopeIs(objs: seq<Obj>, obj: int, exclude: bool, gs: seq<int>, ls: seq<int>)
    requires 0 <= obj < |objs| && Without(gs, -1) == gs && Without(ls, -1) == ls
    ensures Scope(objs, obj, exclude, gs, ls) ==
      (if objs[obj].symbolic && !exclude then [] + [obj] else [])
      + Without(gs, if exclude then obj else -1) + Without(ls, -1)
  {
  }

  lemma SeenNone(objs: seq<Obj>, name: Name, plt: bool)
    ensures Seen(objs, name, plt, [], NotFound, NotFound)
  {
  }

  lemma SeenAll(objs: seq<Obj>, name: Name, plt: bool, scope: seq<int>, found: Result, weakest: Result, weak: bool)
    requires Seen(objs, name, plt, scope, found, weakest)
    ensures Resolve(objs, name, plt, scope, weak) == if found.Found? then found else if weak then weakest else NotFound
  {
  }
}
