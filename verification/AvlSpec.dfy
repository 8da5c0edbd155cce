/**
 The AVL tree of asgard/lib/structures/avltree.c on values: what each pointer
 routine does to the tree it is handed, and why every stored skew stays right.
 The routines themselves, on linked nodes, are in AvlHeap.dfy.
 */
module AvlSpec {
  import Sequences

  /** A `void *` payload; 0 is NULL. */
  type Ptr = nat

  datatype Skew = NONE | LEFT | RIGHT

  datatype Res = AVLERROR | OK | BALANCE

  datatype Tree = Leaf | Node(left: Tree, key: int, d: Ptr, skew: Skew, right: Tree)

  function Max(a: nat, b: nat): nat { if a > b then a else b }

  function Height(t: Tree): nat
  {
    if t.Leaf? then 0 else 1 + Max(Height(t.left), Height(t.right))
  }

  function Size(t: Tree): nat
  {
    if t.Leaf? then 0 else 1 + Size(t.left) + Size(t.right)
  }

  /** The stored skew `s` describes subtrees of heights `hl` and `hr`. */
  predicate SkewOf(s: Skew, hl: int, hr: int)
  {
    match s
    case NONE => hl == hr
    case LEFT => hl == hr + 1
    case RIGHT => hr == hl + 1
  }

  /** Every skew in the tree is the true difference of heights, which is then at most one. */
  predicate Balanced(t: Tree)
  {
    t.Leaf? || (Balanced(t.left) && Balanced(t.right) && SkewOf(t.skew, Height(t.left), Height(t.right)))
  }

  /** The finite map the tree stands for. */
  function Bindings(t: Tree): map<int, Ptr>
  {
    if t.Leaf? then map[] else (Bindings(t.left) + Bindings(t.right))[t.key := t.d]
  }

  ghost predicate Below(m: map<int, Ptr>, k: int) { forall x :: x in m ==> x < k }
  ghost predicate Above(m: map<int, Ptr>, k: int) { forall x :: x in m ==> k < x }

  ghost predicate Ordered(t: Tree)
  {
    t.Leaf? ||
    (Ordered(t.left) && Ordered(t.right) && Below(Bindings(t.left), t.key) && Above(Bindings(t.right), t.key))
  }

  ghost predicate Valid(t: Tree) { Ordered(t) && Balanced(t) }

  // ---------------------------------------------------------------- rotations

  function RotLeft(t: Tree): Tree
    requires t.Node? && t.right.Node?
  {
    t.right.(left := t.(right := t.right.left))
  }

  function RotRight(t: Tree): Tree
    requires t.Node? && t.left.Node?
  {
    t.left.(right := t.(left := t.left.right))
  }

  /** `a` and `b` hold the same bindings in the same number of nodes, and `b` is ordered if `a` is. */
  ghost predicate SameContents(a: Tree, b: Tree)
  {
    && Size(a) == Size(b)
    && (Ordered(a) ==> Ordered(b) && Bindings(a) == Bindings(b))
  }

  lemma RotRightContents(t: Tree)
    requires t.Node? && t.left.Node?
    ensures SameContents(t, RotRight(t))
  {
    if Ordered(t) {
      var l, r := t.left, RotRight(t).right;
      assert Ordered(l) && Above(Bindings(l.right), l.key) && l.key in Bindings(l);
      forall x | x in Bindings(l.right) ensures x < t.key { assert x in Bindings(l); }
      forall x | x in Bindings(r) ensures l.key < x {
        assert x == t.key || x in Bindings(l.right) || x in Bindings(t.right);
      }
      assert Ordered(r) && Bindings(t) == Bindings(RotRight(t));
    }
  }

  lemma RotLeftContents(t: Tree)
    requires t.Node? && t.right.Node?
    ensures SameContents(t, RotLeft(t))
  {
    if Ordered(t) {
      var r, l := t.right, RotLeft(t).left;
      assert Ordered(r) && Below(Bindings(r.left), r.key) && r.key in Bindings(r);
      forall x | x in Bindings(r.left) ensures t.key < x { assert x in Bindings(r); }
      forall x | x in Bindings(l) ensures x < r.key {
        assert x == t.key || x in Bindings(r.left) || x in Bindings(t.left);
      }
      assert Ordered(l) && Bindings(t) == Bindings(RotLeft(t));
    }
  }

  // ------------------------------------------------- single and double rotations

  /** The nodes a rotation at `t` towards the right dereferences. */
  predicate LeftHeavy(t: Tree) { t.Node? && t.left.Node? && (t.left.skew == RIGHT ==> t.left.right.Node?) }

  /** The mirror image of `LeftHeavy`. */
  predicate RightHeavy(t: Tree) { t.Node? && t.right.Node? && (t.right.skew == LEFT ==> t.right.left.Node?) }

  /** Lines 62-79, and the same statements at 254-271. */
  function DoubleRight(t: Tree): Tree
    requires t.Node? && t.left.Node? && t.left.right.Node?
  {
    var l, m := t.left, t.left.right;
    var ns := if m.skew == LEFT then RIGHT else NONE;
    var ls := if m.skew == RIGHT then LEFT else NONE;
    RotRight(t.(skew := ns, left := RotLeft(l.(skew := ls, right := m.(skew := NONE)))))
  }

  /** Lines 106-123, and the same statements at 207-224. */
  function DoubleLeft(t: Tree): Tree
    requires t.Node? && t.right.Node? && t.right.left.Node?
  {
    var r, m := t.right, t.right.left;
    var ns := if m.skew == RIGHT then LEFT else NONE;
    var rs := if m.skew == LEFT then RIGHT else NONE;
    RotLeft(t.(skew := ns, right := RotRight(r.(skew := rs, left := m.(skew := NONE)))))
  }

  lemma ReplaceLeftContents(t: Tree, l: Tree, s: Skew)
    requires t.Node? && SameContents(t.left, l)
    ensures SameContents(t, t.(left := l, skew := s))
  {
  }

  lemma ReplaceRightContents(t: Tree, r: Tree, s: Skew)
    requires t.Node? && SameContents(t.right, r)
    ensures SameContents(t, t.(right := r, skew := s))
  {
  }

  lemma DoubleRightContents(t: Tree)
    requires t.Node? && t.left.Node? && t.left.right.Node?
    ensures SameContents(t, DoubleRight(t))
    ensures Balanced(t.left) && Balanced(t.right) && t.left.skew == RIGHT && Height(t.left) == Height(t.right) + 2
      ==> Balanced(DoubleRight(t)) && Height(DoubleRight(t)) == Height(t.left)
  {
    assert Balanced(t.left) ==> Balanced(t.left.right);
    assert Balanced(t.left) && Balanced(t.right) && t.left.skew == RIGHT && Height(t.left) == Height(t.right) + 2
      ==> Balanced(DoubleRight(t).left) && Balanced(DoubleRight(t).right);
    var l, m := t.left, t.left.right;
    var ns := if m.skew == LEFT then RIGHT else NONE;
    var ls := if m.skew == RIGHT then LEFT else NONE;
    var m' := m.(skew := NONE);
    ReplaceLeftContents(m, m.left, NONE);
    ReplaceRightContents(l, m', ls);
    var l' := l.(skew := ls, right := m');
    RotLeftContents(l');
    ReplaceLeftContents(t, RotLeft(l'), ns);
    RotRightContents(t.(skew := ns, left := RotLeft(l')));
  }

  lemma DoubleLeftContents(t: Tree)
    requires t.Node? && t.right.Node? && t.right.left.Node?
    ensures SameContents(t, DoubleLeft(t))
    ensures Balanced(t.left) && Balanced(t.right) && t.right.skew == LEFT && Height(t.right) == Height(t.left) + 2
      ==> Balanced(DoubleLeft(t)) && Height(DoubleLeft(t)) == Height(t.right)
  {
    assert Balanced(t.right) ==> Balanced(t.right.left);
    assert Balanced(t.left) && Balanced(t.right) && t.right.skew == LEFT && Height(t.right) == Height(t.left) + 2
      ==> Balanced(DoubleLeft(t).left) && Balanced(DoubleLeft(t).right);
    var r, m := t.right, t.right.left;
    var ns := if m.skew == RIGHT then LEFT else NONE;
    var rs := if m.skew == LEFT then RIGHT else NONE;
    var m' := m.(skew := NONE);
    ReplaceLeftContents(m, m.left, NONE);
    ReplaceLeftContents(r, m', rs);
    var r' := r.(skew := rs, left := m');
    RotRightContents(r');
    ReplaceRightContents(t, RotRight(r'), ns);
    RotLeftContents(t.(skew := ns, right := RotRight(r')));
  }

  /** Two nodes in a row with the given skews, rotated right: lines 58-59, 243-244 and 248-250. */
  function SingleRight(t: Tree, ns: Skew, ls: Skew): Tree
    requires t.Node? && t.left.Node?
  {
    RotRight(t.(skew := ns, left := t.left.(skew := ls)))
  }

  function SingleLeft(t: Tree, ns: Skew, rs: Skew): Tree
    requires t.Node? && t.right.Node?
  {
    RotLeft(t.(skew := ns, right := t.right.(skew := rs)))
  }

  lemma SingleRightContents(t: Tree, ns: Skew, ls: Skew)
    requires t.Node? && t.left.Node?
    ensures SameContents(t, SingleRight(t, ns, ls))
    ensures Balanced(t.left) && Balanced(t.right) && SkewOf(ns, Height(t.left.right), Height(t.right))
      && SkewOf(ls, Height(t.left.left), 1 + Max(Height(t.left.right), Height(t.right)))
      ==> Balanced(SingleRight(t, ns, ls))
  {
    assert SingleRight(t, ns, ls) == t.left.(skew := ls, right := t.(skew := ns, left := t.left.right));
    assert Balanced(t.left) && Balanced(t.right) && SkewOf(ns, Height(t.left.right), Height(t.right))
      ==> Balanced(t.(skew := ns, left := t.left.right));
    ReplaceLeftContents(t.left, t.left.left, ls);
    ReplaceLeftContents(t, t.left.(skew := ls), ns);
    RotRightContents(t.(skew := ns, left := t.left.(skew := ls)));
  }

  lemma SingleLeftContents(t: Tree, ns: Skew, rs: Skew)
    requires t.Node? && t.right.Node?
    ensures SameContents(t, SingleLeft(t, ns, rs))
    ensures Balanced(t.left) && Balanced(t.right) && SkewOf(ns, Height(t.left), Height(t.right.left))
      && SkewOf(rs, 1 + Max(Height(t.left), Height(t.right.left)), Height(t.right.right))
      ==> Balanced(SingleLeft(t, ns, rs))
  {
    assert SingleLeft(t, ns, rs) == t.right.(skew := rs, left := t.(skew := ns, right := t.right.left));
    assert Balanced(t.left) && Balanced(t.right) && SkewOf(ns, Height(t.left), Height(t.right.left))
      ==> Balanced(t.(skew := ns, right := t.right.left));
    ReplaceLeftContents(t.right, t.right.left, rs);
    ReplaceRightContents(t, t.right.(skew := rs), ns);
    RotLeftContents(t.(skew := ns, right := t.right.(skew := rs)));
  }

  // ----------------------------------------------------------- after growing

  function LeftGrown(t: Tree): (Tree, Res)
    requires t.Node? && (t.skew == LEFT ==> LeftHeavy(t) && t.left.skew != NONE)
  {
    match t.skew
    case LEFT => (if t.left.skew == LEFT then SingleRight(t, NONE, NONE) else DoubleRight(t), OK)
    case RIGHT => (t.(skew := NONE), OK)
    case NONE => (t.(skew := LEFT), BALANCE)
  }

  function RightGrown(t: Tree): (Tree, Res)
    requires t.Node? && (t.skew == RIGHT ==> RightHeavy(t) && t.right.skew != NONE)
  {
    match t.skew
    case LEFT => (t.(skew := NONE), OK)
    case RIGHT => (if t.right.skew == RIGHT then SingleLeft(t, NONE, NONE) else DoubleLeft(t), OK)
    case NONE => (t.(skew := RIGHT), BALANCE)
  }

  /** What a routine that restores balance at `t` promises, when the height before was `h`
      and `dh` is the change that BALANCE reports. */
  ghost predicate Rebalanced(t: Tree, h: nat, dh: int, r: (Tree, Res))
  {
    && Balanced(r.0)
    && SameContents(t, r.0)
    && r.1 != AVLERROR
    && Height(r.0) == (if r.1 == BALANCE then h + dh else h)
  }

  /** The left subtree of `t` has just become one higher. */
  ghost predicate GrewLeft(t: Tree)
  {
    && t.Node? && t.left.Node?
    && Balanced(t.left) && Balanced(t.right)
    && SkewOf(t.skew, Height(t.left) - 1, Height(t.right))
    && (t.left.skew == NONE ==> Height(t.left) == 1)
  }

  ghost predicate GrewRight(t: Tree)
  {
    && t.Node? && t.right.Node?
    && Balanced(t.left) && Balanced(t.right)
    && SkewOf(t.skew, Height(t.left), Height(t.right) - 1)
    && (t.right.skew == NONE ==> Height(t.right) == 1)
  }

  lemma LeftGrownRebalances(t: Tree)
    requires GrewLeft(t)
    ensures t.skew == LEFT ==> LeftHeavy(t) && t.left.skew != NONE
    ensures Rebalanced(t, 1 + Max(Height(t.left) - 1, Height(t.right)), 1, LeftGrown(t))
    ensures LeftGrown(t).1 == BALANCE ==> LeftGrown(t).0.skew != NONE
  {
    if t.skew == LEFT {
      if t.left.skew == LEFT { SingleRightContents(t, NONE, NONE); } else { DoubleRightContents(t); }
    }
  }

  lemma RightGrownRebalances(t: Tree)
    requires GrewRight(t)
    ensures t.skew == RIGHT ==> RightHeavy(t) && t.right.skew != NONE
    ensures Rebalanced(t, 1 + Max(Height(t.left), Height(t.right) - 1), 1, RightGrown(t))
    ensures RightGrown(t).1 == BALANCE ==> RightGrown(t).0.skew != NONE
  {
    if t.skew == RIGHT {
      if t.right.skew == RIGHT {
        SingleLeftContents(t, NONE, NONE);
      } else { DoubleLeftContents(t); }
    }
  }

  // --------------------------------------------------------- after shrinking

  function LeftShrunk(t: Tree): (Tree, Res)
    requires t.Node? && (t.skew == RIGHT ==> RightHeavy(t))
  {
    match t.skew
    case LEFT => (t.(skew := NONE), BALANCE)
    case RIGHT =>
      if t.right.skew == RIGHT then (SingleLeft(t, NONE, NONE), BALANCE)
      else if t.right.skew == NONE then (SingleLeft(t, RIGHT, LEFT), OK)
      else (DoubleLeft(t), BALANCE)
    case NONE => (t.(skew := RIGHT), OK)
  }

  function RightShrunk(t: Tree): (Tree, Res)
    requires t.Node? && (t.skew == LEFT ==> LeftHeavy(t))
  {
    match t.skew
    case RIGHT => (t.(skew := NONE), BALANCE)
    case LEFT =>
      if t.left.skew == LEFT then (SingleRight(t, NONE, NONE), BALANCE)
      else if t.left.skew == NONE then (SingleRight(t, LEFT, RIGHT), OK)
      else (DoubleRight(t), BALANCE)
    case NONE => (t.(skew := LEFT), OK)
  }

  /** The left subtree of `t` has just become one lower. */
  ghost predicate ShrankLeft(t: Tree)
  {
    t.Node? && Balanced(t.left) && Balanced(t.right) && SkewOf(t.skew, Height(t.left) + 1, Height(t.right))
  }

  ghost predicate ShrankRight(t: Tree)
  {
    t.Node? && Balanced(t.left) && Balanced(t.right) && SkewOf(t.skew, Height(t.left), Height(t.right) + 1)
  }

  lemma LeftShrunkRebalances(t: Tree)
    requires ShrankLeft(t)
    ensures t.skew == RIGHT ==> RightHeavy(t)
    ensures Rebalanced(t, 1 + Max(Height(t.left) + 1, Height(t.right)), -1, LeftShrunk(t))
  {
    if t.skew == RIGHT {
      if t.right.skew == RIGHT { SingleLeftContents(t, NONE, NONE); }
      else if t.right.skew == NONE { SingleLeftContents(t, RIGHT, LEFT); }
      else { DoubleLeftContents(t); }
    }
  }

  lemma RightShrunkRebalances(t: Tree)
    requires ShrankRight(t)
    ensures t.skew == LEFT ==> LeftHeavy(t)
    ensures Rebalanced(t, 1 + Max(Height(t.left), Height(t.right) + 1), -1, RightShrunk(t))
  {
    if t.skew == LEFT {
      if t.left.skew == LEFT { SingleRightContents(t, NONE, NONE); }
      else if t.left.skew == NONE { SingleRightContents(t, LEFT, RIGHT); }
      else { DoubleRightContents(t); }
    }
  }

  // ------------------------------------------------------------------ insert

  /** `BALANCE` reports exactly a height change of `dh`, `OK` none, and `AVLERROR` no change at all. */
  ghost predicate Reports(t: Tree, dh: int, r: (Tree, Res))
  {
    && Balanced(r.0)
    && (r.1 == BALANCE <==> Height(r.0) == Height(t) + dh)
    && (r.1 != BALANCE ==> Height(r.0) == Height(t))
    && (r.1 == AVLERROR ==> r.0 == t)
  }

  /** `iavl_insert`; `memory` says whether `malloc` finds room for the node. */
  function Insert(t: Tree, d: Ptr, key: int, memory: bool): (r: (Tree, Res))
    requires Balanced(t)
    ensures Reports(t, 1, r)
    ensures r.1 == BALANCE ==> r.0.Node? && (r.0.skew == NONE ==> Height(r.0) == 1)
  {
    if t.Leaf? then
      if memory then (Node(Leaf, key, d, NONE, Leaf), BALANCE) else (t, AVLERROR)
    else if key < t.key then
      var r := Insert(t.left, d, key, memory);
      var u := t.(left := r.0);
      if r.1 == BALANCE then LeftGrownRebalances(u); LeftGrown(u) else (u, r.1)
    else if key > t.key then
      var r := Insert(t.right, d, key, memory);
      var u := t.(right := r.0);
      if r.1 == BALANCE then RightGrownRebalances(u); RightGrown(u) else (u, r.1)
    else (t, AVLERROR)
  }

  ghost predicate Added(t: Tree, key: int, d: Ptr, u: Tree)
  {
    Ordered(u) && Bindings(u) == Bindings(t)[key := d] && Size(u) == Size(t) + 1
  }

  /** Binding `k` below commutes with the unions that make up `Bindings`. */
  lemma PlaceBinding(a: map<int, Ptr>, b: map<int, Ptr>, key: int, v: Ptr, k: int, d: Ptr)
    requires k !in b && k != key
    ensures (a[k := d] + b)[key := v] == (a + b)[key := v][k := d]
    ensures (b + a[k := d])[key := v] == (b + a)[key := v][k := d]
  {
  }

  lemma AddedLeft(t: Tree, key: int, d: Ptr, l: Tree)
    requires t.Node? && Ordered(t) && key < t.key && Added(t.left, key, d, l)
    ensures Added(t, key, d, t.(left := l))
  {
    assert Below(Bindings(l), t.key);
    PlaceBinding(Bindings(t.left), Bindings(t.right), t.key, t.d, key, d);
  }

  lemma AddedRight(t: Tree, key: int, d: Ptr, r: Tree)
    requires t.Node? && Ordered(t) && key > t.key && Added(t.right, key, d, r)
    ensures Added(t, key, d, t.(right := r))
  {
    assert Above(Bindings(r), t.key);
    PlaceBinding(Bindings(t.right), Bindings(t.left), t.key, t.d, key, d);
  }

  /** Exactly one binding is added; a duplicate key or a failed `malloc` is an error and changes nothing. */
  lemma {:induction false} InsertAdds(t: Tree, d: Ptr, key: int, memory: bool)
    requires Valid(t)
    ensures Insert(t, d, key, memory).1 == AVLERROR <==> key in Bindings(t) || !memory
    ensures Insert(t, d, key, memory).1 != AVLERROR ==> Added(t, key, d, Insert(t, d, key, memory).0)
  {
    if t.Leaf? {
    } else if key < t.key {
      InsertAdds(t.left, d, key, memory);
      var r := Insert(t.left, d, key, memory);
      if r.1 != AVLERROR { AddedLeft(t, key, d, r.0); }
      if r.1 == BALANCE { LeftGrownRebalances(t.(left := r.0)); }
    } else if key > t.key {
      InsertAdds(t.right, d, key, memory);
      var r := Insert(t.right, d, key, memory);
      if r.1 != AVLERROR { AddedRight(t, key, d, r.0); }
      if r.1 == BALANCE { RightGrownRebalances(t.(right := r.0)); }
    }
  }

  // ------------------------------------------------------------------ remove

  /** `avlfindhighest` on a non-empty tree: the tree without its highest node, that node's key and payload. */
  function FindHighest(t: Tree): (r: (Tree, int, Ptr, Res))
    requires t.Node? && Balanced(t)
    ensures r.3 != AVLERROR && Reports(t, -1, (r.0, r.3))
  {
    if t.right.Node? then
      var r := FindHighest(t.right);
      var u := t.(right := r.0);
      if r.3 == BALANCE then
        RightShrunkRebalances(u);
        (RightShrunk(u).0, r.1, r.2, RightShrunk(u).1)
      else (u, r.1, r.2, r.3)
    else (t.left, t.key, t.d, BALANCE)
  }

  /** `avlfindlowest` on a non-empty tree. */
  function FindLowest(t: Tree): (r: (Tree, int, Ptr, Res))
    requires t.Node? && Balanced(t)
    ensures r.3 != AVLERROR && Reports(t, -1, (r.0, r.3))
  {
    if t.left.Node? then
      var r := FindLowest(t.left);
      var u := t.(left := r.0);
      if r.3 == BALANCE then
        LeftShrunkRebalances(u);
        (LeftShrunk(u).0, r.1, r.2, LeftShrunk(u).1)
      else (u, r.1, r.2, r.3)
    else (t.right, t.key, t.d, BALANCE)
  }

  /** `iavl_remove`. */
  function Remove(t: Tree, key: int): (r: (Tree, Res))
    requires Balanced(t)
    ensures Reports(t, -1, r)
  {
    if t.Leaf? then (t, AVLERROR)
    else if key < t.key then
      var r := Remove(t.left, key);
      var u := t.(left := r.0);
      if r.1 == BALANCE then LeftShrunkRebalances(u); LeftShrunk(u) else (u, r.1)
    else if key > t.key then
      var r := Remove(t.right, key);
      var u := t.(right := r.0);
      if r.1 == BALANCE then RightShrunkRebalances(u); RightShrunk(u) else (u, r.1)
    else if t.left.Node? then
      var r := FindHighest(t.left);
      var u := t.(left := r.0, key := r.1, d := r.2);
      if r.3 == BALANCE then LeftShrunkRebalances(u); LeftShrunk(u) else (u, r.3)
    else if t.right.Node? then
      var r := FindLowest(t.right);
      var u := t.(right := r.0, key := r.1, d := r.2);
      if r.3 == BALANCE then RightShrunkRebalances(u); RightShrunk(u) else (u, r.3)
    else (Leaf, BALANCE)
  }

  ghost predicate Deleted(t: Tree, key: int, u: Tree)
  {
    Ordered(u) && Bindings(u) == Bindings(t) - {key} && Size(u) == Size(t) - 1
  }

  /** Erasing `k` below commutes with the unions that make up `Bindings`. */
  lemma EraseBinding(a: map<int, Ptr>, b: map<int, Ptr>, key: int, v: Ptr, k: int)
    requires k in a && k !in b && k != key
    ensures ((a - {k}) + b)[key := v] == (a + b)[key := v] - {k}
    ensures (b + (a - {k}))[key := v] == (b + a)[key := v] - {k}
  {
  }

  lemma DeletedLeft(t: Tree, key: int, l: Tree)
    requires t.Node? && Ordered(t) && key in Bindings(t.left) && Deleted(t.left, key, l)
    ensures Deleted(t, key, t.(left := l))
  {
    EraseBinding(Bindings(t.left), Bindings(t.right), t.key, t.d, key);
  }

  lemma DeletedRight(t: Tree, key: int, r: Tree)
    requires t.Node? && Ordered(t) && key in Bindings(t.right) && Deleted(t.right, key, r)
    ensures Deleted(t, key, t.(right := r))
  {
    EraseBinding(Bindings(t.right), Bindings(t.left), t.key, t.d, key);
  }

  /** `k` bound to `d` is the greatest binding of `t`. */
  ghost predicate Highest(t: Tree, k: int, d: Ptr)
  {
    k in Bindings(t) && Bindings(t)[k] == d && forall x :: x in Bindings(t) ==> x <= k
  }

  ghost predicate Lowest(t: Tree, k: int, d: Ptr)
  {
    k in Bindings(t) && Bindings(t)[k] == d && forall x :: x in Bindings(t) ==> k <= x
  }

  /** Moving the binding of `k` from `a` to the root erases the binding of `key`. */
  lemma MoveBinding(a: map<int, Ptr>, b: map<int, Ptr>, key: int, v: Ptr, k: int)
    requires key !in a && key !in b && k in a && k !in b
    ensures ((a - {k}) + b)[k := a[k]] == (a + b)[key := v] - {key}
    ensures (b + (a - {k}))[k := a[k]] == (b + a)[key := v] - {key}
  {
  }

  /** The root gives its place to its in-order predecessor. */
  lemma ReplacedByHighest(t: Tree, l: Tree, k: int, d: Ptr)
    requires t.Node? && Ordered(t) && Highest(t.left, k, d) && Deleted(t.left, k, l)
    ensures Deleted(t, t.key, t.(left := l, key := k, d := d))
  {
    MoveBinding(Bindings(t.left), Bindings(t.right), t.key, t.d, k);
    assert Below(Bindings(l), k) by {
      forall x | x in Bindings(l) ensures x < k { assert x in Bindings(t.left); }
    }
    assert Above(Bindings(t.right), k);
  }

  /** The root gives its place to its in-order successor. */
  lemma ReplacedByLowest(t: Tree, r: Tree, k: int, d: Ptr)
    requires t.Node? && Ordered(t) && Lowest(t.right, k, d) && Deleted(t.right, k, r)
    ensures Deleted(t, t.key, t.(right := r, key := k, d := d))
  {
    MoveBinding(Bindings(t.right), Bindings(t.left), t.key, t.d, k);
    assert Above(Bindings(r), k) by {
      forall x | x in Bindings(r) ensures k < x { assert x in Bindings(t.right); }
    }
    assert Below(Bindings(t.left), k);
  }

  lemma {:induction false} FindHighestTakes(t: Tree)
    requires t.Node? && Valid(t)
    ensures Highest(t, FindHighest(t).1, FindHighest(t).2)
    ensures Deleted(t, FindHighest(t).1, FindHighest(t).0)
  {
    if t.right.Node? {
      FindHighestTakes(t.right);
      var r := FindHighest(t.right);
      DeletedRight(t, r.1, r.0);
      if r.3 == BALANCE { RightShrunkRebalances(t.(right := r.0)); }
    } else {
      assert Bindings(t.left) == Bindings(t) - {t.key};
    }
  }

  lemma {:induction false} FindLowestTakes(t: Tree)
    requires t.Node? && Valid(t)
    ensures Lowest(t, FindLowest(t).1, FindLowest(t).2)
    ensures Deleted(t, FindLowest(t).1, FindLowest(t).0)
  {
    if t.left.Node? {
      FindLowestTakes(t.left);
      var r := FindLowest(t.left);
      DeletedLeft(t, r.1, r.0);
      if r.3 == BALANCE { LeftShrunkRebalances(t.(left := r.0)); }
    } else {
      assert Bindings(t.right) == Bindings(t) - {t.key};
    }
  }

  /** The map minus the key, one node fewer, and an error exactly when the key is absent. */
  lemma {:induction false} RemoveDeletes(t: Tree, key: int)
    requires Valid(t)
    ensures Remove(t, key).1 == AVLERROR <==> key !in Bindings(t)
    ensures key in Bindings(t) ==> Deleted(t, key, Remove(t, key).0)
  {
    if t.Leaf? {
    } else if key < t.key {
      RemoveDeletes(t.left, key);
      var r := Remove(t.left, key);
      if r.1 != AVLERROR { DeletedLeft(t, key, r.0); }
      if r.1 == BALANCE { LeftShrunkRebalances(t.(left := r.0)); }
    } else if key > t.key {
      RemoveDeletes(t.right, key);
      var r := Remove(t.right, key);
      if r.1 != AVLERROR { DeletedRight(t, key, r.0); }
      if r.1 == BALANCE { RightShrunkRebalances(t.(right := r.0)); }
    } else {
      RemoveRoot(t);
    }
  }

  lemma RemoveRoot(t: Tree)
    requires t.Node? && Valid(t)
    ensures Remove(t, t.key).1 != AVLERROR && Deleted(t, t.key, Remove(t, t.key).0)
  {
    if t.left.Node? {
      FindHighestTakes(t.left);
      var r := FindHighest(t.left);
      ReplacedByHighest(t, r.0, r.1, r.2);
      if r.3 == BALANCE { LeftShrunkRebalances(t.(left := r.0, key := r.1, d := r.2)); }
    } else if t.right.Node? {
      FindLowestTakes(t.right);
      var r := FindLowest(t.right);
      ReplacedByLowest(t, r.0, r.1, r.2);
      if r.3 == BALANCE { RightShrunkRebalances(t.(right := r.0, key := r.1, d := r.2)); }
    }
  }

  // ------------------------------------------------------------------ lookup

  /** `iavl_getvalue`. */
  function GetValue(t: Tree, key: int): Ptr
  {
    if t.Leaf? then 0
    else if key < t.key then GetValue(t.left, key)
    else if key > t.key then GetValue(t.right, key)
    else t.d
  }

  lemma {:induction false} GetValueLooksUp(t: Tree, key: int)
    requires Ordered(t)
    ensures GetValue(t, key) == if key in Bindings(t) then Bindings(t)[key] else 0
  {
    if t.Node? {
      if key < t.key { GetValueLooksUp(t.left, key); }
      else if key > t.key { GetValueLooksUp(t.right, key); }
    }
  }

  /** The keys in the order `iavl_get_indexes` visits them. */
  function InOrder(t: Tree): seq<int>
  {
    if t.Leaf? then [] else InOrder(t.left) + [t.key] + InOrder(t.right)
  }

  /** `s` holds every key of `m` once, in increasing order. */
  ghost predicate Lists(s: seq<int>, m: map<int, Ptr>)
  {
    && (forall x :: x in s <==> x in m)
    && (forall i, j :: 0 <= i < j < |s| ==> s[i] < s[j])
  }

  lemma ListsJoin(a: seq<int>, b: seq<int>, ma: map<int, Ptr>, mb: map<int, Ptr>, k: int, d: Ptr)
    requires Lists(a, ma) && Lists(b, mb) && Below(ma, k) && Above(mb, k)
    ensures Lists(a + [k] + b, (ma + mb)[k := d])
  {
    var s := a + [k] + b;
    forall x ensures x in s <==> x in (ma + mb)[k := d] {
      assert x in s <==> x in a || x == k || x in b;
    }
    forall i, j | 0 <= i < j < |s| ensures s[i] < s[j] {
      assert i < |a| ==> s[i] in a;
      assert j > |a| ==> s[j] in b;
    }
  }

  /** The order of the visit is the order of the keys. */
  lemma {:induction false} InOrderLists(t: Tree)
    requires Ordered(t)
    ensures Lists(InOrder(t), Bindings(t)) && |InOrder(t)| == Size(t)
  {
    if t.Node? {
      InOrderLists(t.left);
      InOrderLists(t.right);
      ListsJoin(InOrder(t.left), InOrder(t.right), Bindings(t.left), Bindings(t.right), t.key, t.d);
    }
  }

  lemma SizeCounts(t: Tree)
    requires Ordered(t)
    ensures Size(t) == |Bindings(t)|
  {
    hide InOrder, Bindings, Size, Ordered;
    InOrderLists(t);
    var s, keys := InOrder(t), Bindings(t).Keys;
    forall x: int ensures x in keys <==> x in s {}
    Sequences.SeqCount(s, keys);
  }
}
