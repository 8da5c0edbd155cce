/**
 The AVL tree of asgard/lib/structures/avltree.c on linked nodes. Each routine takes
 `struct avlnode **n` in the original; here it takes the node and returns the one that
 replaces it. A ghost `Shape` names the nodes of a subtree, so that every routine can be
 proved equal to the function of AvlSpec.dfy that says what it does.
 */
module AvlHeap {
  import opened AvlSpec

  class AvlNode {
    var left: AvlNode?
    var right: AvlNode?
    var d: Ptr
    var key: int
    var skew: Skew

    constructor (d: Ptr, key: int)
      ensures left == null && right == null && this.d == d && this.key == key && skew == NONE
    {
      left, right := null, null;
      this.d, this.key, skew := d, key, NONE;
    }
  }

  datatype Shape = Nil | At(n: AvlNode, l: Shape, r: Shape)

  ghost function Nodes(s: Shape): set<AvlNode>
  {
    if s.Nil? then {} else {s.n} + Nodes(s.l) + Nodes(s.r)
  }

  ghost predicate Distinct(s: Shape)
  {
    s.Nil? ||
    (s.n !in Nodes(s.l) && s.n !in Nodes(s.r) && Nodes(s.l) !! Nodes(s.r) && Distinct(s.l) && Distinct(s.r))
  }

  ghost predicate Linked(n: AvlNode?, s: Shape)
    reads Nodes(s)
  {
    match s
    case Nil => n == null
    case At(m, l, r) => n == m && Linked(m.left, l) && Linked(m.right, r)
  }

  /** The tree value stored in the nodes of `s`. */
  ghost function Abs(s: Shape): Tree
    reads Nodes(s)
  {
    match s
    case Nil => Leaf
    case At(m, l, r) => Node(Abs(l), m.key, m.d, m.skew, Abs(r))
  }

  /** `n` is the root of a proper tree made of the nodes of `s`. */
  ghost predicate Rep(n: AvlNode?, s: Shape)
    reads Nodes(s)
  {
    Distinct(s) && Linked(n, s)
  }

  /** What a call does not mention it keeps, as long as it exists already. */
  lemma Allocated(s: Shape)
    ensures forall x :: x in Nodes(s) ==> allocated(x)
  {
    if s.At? {
      Allocated(s.l);
      Allocated(s.r);
    }
  }

  /** One level of `Rep` and `Abs`, spelled out. */
  lemma Unfold(n: AvlNode?, s: Shape)
    requires Rep(n, s)
    ensures n == null <==> s.Nil?
    ensures Abs(s).Leaf? <==> s.Nil?
    ensures s.At? ==> n == s.n && Rep(n.left, s.l) && Rep(n.right, s.r)
    ensures s.At? ==> Abs(s) == Node(Abs(s.l), n.key, n.d, n.skew, Abs(s.r))
  {
  }

  /** The converse: a node over two separate trees. */
  lemma Fold(n: AvlNode, l: Shape, r: Shape)
    requires Rep(n.left, l) && Rep(n.right, r)
    requires n !in Nodes(l) && n !in Nodes(r) && Nodes(l) !! Nodes(r)
    ensures Rep(n, At(n, l, r))
    ensures Abs(At(n, l, r)) == Node(Abs(l), n.key, n.d, n.skew, Abs(r))
  {
  }

  lemma UnfoldLeft(n: AvlNode?, s: Shape)
    requires Rep(n, s) && Abs(s).Node?
    ensures s.At? && n == s.n && Rep(n.left, s.l)
    ensures Abs(s).left == Abs(s.l)
    ensures Abs(s.l).Node? ==> s.l.At? && n.left == s.l.n && n.left in Nodes(s.l) && Rep(n.left.right, s.l.r)
    ensures Abs(s.l).Node? ==> Abs(s.l) == Node(Abs(s.l.l), n.left.key, n.left.d, n.left.skew, Abs(s.l.r))
  {
    Unfold(n, s);
    Unfold(n.left, s.l);
  }

  lemma UnfoldRight(n: AvlNode?, s: Shape)
    requires Rep(n, s) && Abs(s).Node?
    ensures s.At? && n == s.n && Rep(n.right, s.r)
    ensures Abs(s).right == Abs(s.r)
    ensures Abs(s.r).Node? ==> s.r.At? && n.right == s.r.n && n.right in Nodes(s.r) && Rep(n.right.left, s.r.l)
    ensures Abs(s.r).Node? ==> Abs(s.r) == Node(Abs(s.r.l), n.right.key, n.right.d, n.right.skew, Abs(s.r.r))
  {
    Unfold(n, s);
    Unfold(n.right, s.r);
  }

  // ---------------------------------------------------------------- rotations

  method AvlRotLeft(n: AvlNode, ghost s: Shape) returns (m: AvlNode, ghost s': Shape)
    requires Rep(n, s) && Abs(s).Node? && Abs(s).right.Node?
    modifies n, n.right
    ensures Rep(m, s') && Nodes(s') == Nodes(s)
    ensures Abs(s') == RotLeft(old(Abs(s)))
  {
    UnfoldRight(n, s);
    m := n.right;
    n.right := m.left;
    m.left := n;
    s' := At(m, At(n, s.l, s.r.l), s.r.r);
    assert Rep(n, s'.l);
  }

  method AvlRotRight(n: AvlNode, ghost s: Shape) returns (m: AvlNode, ghost s': Shape)
    requires Rep(n, s) && Abs(s).Node? && Abs(s).left.Node?
    modifies n, n.left
    ensures Rep(m, s') && Nodes(s') == Nodes(s)
    ensures Abs(s') == RotRight(old(Abs(s)))
  {
    UnfoldLeft(n, s);
    m := n.left;
    n.left := m.right;
    m.right := n;
    s' := At(m, s.l.l, At(n, s.l.r, s.r));
    assert Rep(n, s'.r);
  }

  /** Setting the skews of a node and of its left child touches nothing else. */
  method SetSkewsLeft(n: AvlNode, ns: Skew, ls: Skew, ghost s: Shape)
    requires Rep(n, s) && Abs(s).Node? && Abs(s).left.Node?
    modifies n, n.left
    ensures Rep(n, s) && n.left == old(n.left)
    ensures Abs(s) == old(Abs(s)).(skew := ns, left := old(Abs(s)).left.(skew := ls))
  {
    UnfoldLeft(n, s);
    n.skew := ns;
    n.left.skew := ls;
    UnfoldLeft(n, s);
  }

  method SetSkewsRight(n: AvlNode, ns: Skew, rs: Skew, ghost s: Shape)
    requires Rep(n, s) && Abs(s).Node? && Abs(s).right.Node?
    modifies n, n.right
    ensures Rep(n, s) && n.right == old(n.right)
    ensures Abs(s) == old(Abs(s)).(skew := ns, right := old(Abs(s)).right.(skew := rs))
  {
    UnfoldRight(n, s);
    n.skew := ns;
    n.right.skew := rs;
    UnfoldRight(n, s);
  }

  /** Lines 77-78 at the left child. */
  method TurnLeft(n: AvlNode, ghost s: Shape) returns (m: AvlNode, ghost s': Shape)
    requires Rep(n, s) && Abs(s).Node? && Abs(s).right.Node?
    modifies Nodes(s)
    ensures Rep(m, s') && Nodes(s') == Nodes(s)
    ensures var t := old(Abs(s)); Abs(s') == RotLeft(t.(right := t.right.(skew := NONE)))
  {
    UnfoldRight(n, s);
    SetSkewsRight(n, n.skew, NONE, s);
    m, s' := AvlRotLeft(n, s);
  }

  /** Lines 121-122 at the right child. */
  method TurnRight(n: AvlNode, ghost s: Shape) returns (m: AvlNode, ghost s': Shape)
    requires Rep(n, s) && Abs(s).Node? && Abs(s).left.Node?
    modifies Nodes(s)
    ensures Rep(m, s') && Nodes(s') == Nodes(s)
    ensures var t := old(Abs(s)); Abs(s') == RotRight(t.(left := t.left.(skew := NONE)))
  {
    UnfoldLeft(n, s);
    SetSkewsLeft(n, n.skew, NONE, s);
    m, s' := AvlRotRight(n, s);
  }

  method TurnLeftChild(n: AvlNode, ghost s: Shape) returns (ghost s': Shape)
    requires Rep(n, s) && Abs(s).Node? && Abs(s).left.Node? && Abs(s).left.right.Node?
    modifies Nodes(s)
    ensures Rep(n, s') && Nodes(s') == Nodes(s)
    ensures var t := old(Abs(s));
      Abs(s') == t.(left := RotLeft(t.left.(right := t.left.right.(skew := NONE))))
  {
    Unfold(n, s);
    Allocated(s.r);
    ghost var sl;
    n.left, sl := TurnLeft(n.left, s.l);
    assert Rep(n.right, s.r) && Abs(s.r) == old(Abs(s.r));
    Fold(n, sl, s.r);
    s' := At(n, sl, s.r);
  }

  method TurnRightChild(n: AvlNode, ghost s: Shape) returns (ghost s': Shape)
    requires Rep(n, s) && Abs(s).Node? && Abs(s).right.Node? && Abs(s).right.left.Node?
    modifies Nodes(s)
    ensures Rep(n, s') && Nodes(s') == Nodes(s)
    ensures var t := old(Abs(s));
      Abs(s') == t.(right := RotRight(t.right.(left := t.right.left.(skew := NONE))))
  {
    Unfold(n, s);
    Allocated(s.l);
    ghost var sr;
    n.right, sr := TurnRight(n.right, s.r);
    assert Rep(n.left, s.l) && Abs(s.l) == old(Abs(s.l));
    Fold(n, s.l, sr);
    s' := At(n, s.l, sr);
  }

  /** The double rotation of lines 62-79 and 254-271. */
  method RotateDoubleRight(n: AvlNode, ghost s: Shape) returns (m: AvlNode, ghost s': Shape)
    requires Rep(n, s) && Abs(s).Node? && Abs(s).left.Node? && Abs(s).left.right.Node?
    modifies Nodes(s)
    ensures Rep(m, s') && Nodes(s') == Nodes(s)
    ensures Abs(s') == DoubleRight(old(Abs(s)))
  {
    UnfoldLeft(n, s);
    Unfold(n.left, s.l);
    Unfold(n.left.right, s.l.r);
    match n.left.right.skew {
      case LEFT => SetSkewsLeft(n, RIGHT, NONE, s);
      case RIGHT => SetSkewsLeft(n, NONE, LEFT, s);
      case NONE => SetSkewsLeft(n, NONE, NONE, s);
    }
    s' := TurnLeftChild(n, s);
    UnfoldLeft(n, s');
    m, s' := AvlRotRight(n, s');
  }

  /** The double rotation of lines 106-123 and 207-224. */
  method RotateDoubleLeft(n: AvlNode, ghost s: Shape) returns (m: AvlNode, ghost s': Shape)
    requires Rep(n, s) && Abs(s).Node? && Abs(s).right.Node? && Abs(s).right.left.Node?
    modifies Nodes(s)
    ensures Rep(m, s') && Nodes(s') == Nodes(s)
    ensures Abs(s') == DoubleLeft(old(Abs(s)))
  {
    UnfoldRight(n, s);
    Unfold(n.right, s.r);
    Unfold(n.right.left, s.r.l);
    match n.right.left.skew {
      case LEFT => SetSkewsRight(n, NONE, RIGHT, s);
      case RIGHT => SetSkewsRight(n, LEFT, NONE, s);
      case NONE => SetSkewsRight(n, NONE, NONE, s);
    }
    s' := TurnRightChild(n, s);
    UnfoldRight(n, s');
    m, s' := AvlRotLeft(n, s');
  }

  // ---------------------------------------------------- restoring the balance

  method AvlLeftGrown(n: AvlNode, ghost s: Shape) returns (m: AvlNode, ghost s': Shape, res: Res)
    requires Rep(n, s) && Abs(s).Node?
    requires Abs(s).skew == LEFT ==> LeftHeavy(Abs(s)) && Abs(s).left.skew != NONE
    modifies Nodes(s)
    ensures Rep(m, s') && Nodes(s') == Nodes(s)
    ensures (Abs(s'), res) == LeftGrown(old(Abs(s)))
  {
    UnfoldLeft(n, s);
    m, s', res := n, s, OK;
    match n.skew {
      case LEFT =>
        if n.left.skew == LEFT {
          SetSkewsLeft(n, NONE, NONE, s);
          m, s' := AvlRotRight(n, s);
        } else {
          m, s' := RotateDoubleRight(n, s);
        }
      case RIGHT => n.skew := NONE;
      case NONE => n.skew := LEFT; res := BALANCE;
    }
  }

  method AvlRightGrown(n: AvlNode, ghost s: Shape) returns (m: AvlNode, ghost s': Shape, res: Res)
    requires Rep(n, s) && Abs(s).Node?
    requires Abs(s).skew == RIGHT ==> RightHeavy(Abs(s)) && Abs(s).right.skew != NONE
    modifies Nodes(s)
    ensures Rep(m, s') && Nodes(s') == Nodes(s)
    ensures (Abs(s'), res) == RightGrown(old(Abs(s)))
  {
    UnfoldRight(n, s);
    m, s', res := n, s, OK;
    match n.skew {
      case LEFT => n.skew := NONE;
      case RIGHT =>
        if n.right.skew == RIGHT {
          SetSkewsRight(n, NONE, NONE, s);
          m, s' := AvlRotLeft(n, s);
        } else {
          m, s' := RotateDoubleLeft(n, s);
        }
      case NONE => n.skew := RIGHT; res := BALANCE;
    }
  }

  method AvlLeftShrunk(n: AvlNode, ghost s: Shape) returns (m: AvlNode, ghost s': Shape, res: Res)
    requires Rep(n, s) && Abs(s).Node?
    requires Abs(s).skew == RIGHT ==> RightHeavy(Abs(s))
    modifies Nodes(s)
    ensures Rep(m, s') && Nodes(s') == Nodes(s)
    ensures (Abs(s'), res) == LeftShrunk(old(Abs(s)))
  {
    UnfoldRight(n, s);
    m, s', res := n, s, BALANCE;
    match n.skew {
      case LEFT => n.skew := NONE;
      case RIGHT =>
        if n.right.skew == RIGHT {
          SetSkewsRight(n, NONE, NONE, s);
          m, s' := AvlRotLeft(n, s);
        } else if n.right.skew == NONE {
          SetSkewsRight(n, RIGHT, LEFT, s);
          m, s' := AvlRotLeft(n, s);
          res := OK;
        } else {
          m, s' := RotateDoubleLeft(n, s);
        }
      case NONE => n.skew := RIGHT; res := OK;
    }
  }

  method AvlRightShrunk(n: AvlNode, ghost s: Shape) returns (m: AvlNode, ghost s': Shape, res: Res)
    requires Rep(n, s) && Abs(s).Node?
    requires Abs(s).skew == LEFT ==> LeftHeavy(Abs(s))
    modifies Nodes(s)
    ensures Rep(m, s') && Nodes(s') == Nodes(s)
    ensures (Abs(s'), res) == RightShrunk(old(Abs(s)))
  {
    UnfoldLeft(n, s);
    m, s', res := n, s, BALANCE;
    match n.skew {
      case RIGHT => n.skew := NONE;
      case LEFT =>
        if n.left.skew == LEFT {
          SetSkewsLeft(n, NONE, NONE, s);
          m, s' := AvlRotRight(n, s);
        } else if n.left.skew == NONE {
          SetSkewsLeft(n, LEFT, RIGHT, s);
          m, s' := AvlRotRight(n, s);
          res := OK;
        } else {
          m, s' := RotateDoubleRight(n, s);
        }
      case NONE => n.skew := LEFT; res := OK;
    }
  }

  // ---------------------------------------------------------- insert and remove

  method IAvlInsert(n: AvlNode?, d: Ptr, key: int, memory: bool, ghost s: Shape)
    returns (m: AvlNode?, ghost s': Shape, res: Res)
    requires Rep(n, s) && Balanced(Abs(s))
    modifies Nodes(s)
    ensures Rep(m, s') && Nodes(s) <= Nodes(s') && fresh(Nodes(s') - Nodes(s))
    ensures (Abs(s'), res) == Insert(old(Abs(s)), d, key, memory)
    decreases s, 1
  {
    Unfold(n, s);
    m, s', res := n, s, AVLERROR;
    if n == null {
      if memory {
        m := new AvlNode(d, key);
        s', res := At(m, Nil, Nil), BALANCE;
      }
    } else if key < n.key {
      s', res := InsertBelowLeft(n, d, key, memory, s);
      if res == BALANCE {
        LeftGrownRebalances(Abs(s'));
        m, s', res := AvlLeftGrown(n, s');
      }
    } else if key > n.key {
      s', res := InsertBelowRight(n, d, key, memory, s);
      if res == BALANCE {
        RightGrownRebalances(Abs(s'));
        m, s', res := AvlRightGrown(n, s');
      }
    }
  }

  /** Line 163: the call on the right subtree. */
  method InsertBelowRight(n: AvlNode, d: Ptr, key: int, memory: bool, ghost s: Shape)
    returns (ghost s': Shape, res: Res)
    requires Rep(n, s) && Balanced(Abs(s)) && s.At?
    modifies Nodes(s)
    ensures Rep(n, s') && Nodes(s) <= Nodes(s') && fresh(Nodes(s') - Nodes(s))
    ensures var t := old(Abs(s));
      var r := Insert(t.right, d, key, memory);
      Abs(s') == t.(right := r.0) && res == r.1
    decreases s, 0
  {
    hide Insert, SkewOf, Height;
    Unfold(n, s);
    Allocated(s.l);
    ghost var r;
    n.right, r, res := IAvlInsert(n.right, d, key, memory, s.r);
    assert Rep(n.left, s.l) && Abs(s.l) == old(Abs(s.l));
    Fold(n, s.l, r);
    s' := At(n, s.l, r);
  }

  /** Line 155: the call on the left subtree. */
  method InsertBelowLeft(n: AvlNode, d: Ptr, key: int, memory: bool, ghost s: Shape)
    returns (ghost s': Shape, res: Res)
    requires Rep(n, s) && Balanced(Abs(s)) && s.At?
    modifies Nodes(s)
    ensures Rep(n, s') && Nodes(s) <= Nodes(s') && fresh(Nodes(s') - Nodes(s))
    ensures var t := old(Abs(s));
      var r := Insert(t.left, d, key, memory);
      Abs(s') == t.(left := r.0) && res == r.1
    decreases s, 0
  {
    hide Insert, SkewOf, Height;
    Unfold(n, s);
    Allocated(s.r);
    ghost var l;
    n.left, l, res := IAvlInsert(n.left, d, key, memory, s.l);
    assert Rep(n.right, s.r) && Abs(s.r) == old(Abs(s.r));
    Fold(n, l, s.r);
    s' := At(n, l, s.r);
  }

  /** Line 293: the call on the right subtree. */
  method TakeHighestRight(target: AvlNode, n: AvlNode, ghost s: Shape) returns (ghost s': Shape, res: Res)
    requires Rep(n, s) && Balanced(Abs(s)) && Abs(s).Node? && Abs(s).right.Node? && target !in Nodes(s)
    requires n.right != null
    modifies Nodes(s), target`d, target`key
    ensures Rep(n, s') && Nodes(s') <= Nodes(s)
    ensures var t := old(Abs(s));
      var r := FindHighest(t.right);
      Abs(s') == t.(right := r.0) && (target.key, target.d, res) == (r.1, r.2, r.3)
    decreases s, 0
  {
    hide FindHighest, SkewOf, Height;
    Unfold(n, s);
    Allocated(s.l);
    ghost var r;
    n.right, r, res := AvlFindHighest(target, n.right, s.r);
    assert Rep(n.left, s.l) && Abs(s.l) == old(Abs(s.l));
    Fold(n, s.l, r);
    s' := At(n, s.l, r);
  }

  /** `avlfindhighest` on a non-empty subtree: `target` takes over the highest node's key and payload. */
  method AvlFindHighest(target: AvlNode, n: AvlNode, ghost s: Shape)
    returns (m: AvlNode?, ghost s': Shape, res: Res)
    requires Rep(n, s) && Balanced(Abs(s)) && Abs(s).Node? && target !in Nodes(s)
    modifies Nodes(s), target`d, target`key
    ensures Rep(m, s') && Nodes(s') <= Nodes(s)
    ensures (Abs(s'), target.key, target.d, res) == FindHighest(old(Abs(s)))
    decreases s, 1
  {
    Unfold(n, s);
    Unfold(n.right, s.r);
    Allocated(s);
    if n.right != null {
      s', res := TakeHighestRight(target, n, s);
      m := n;
      if res == BALANCE {
        RightShrunkRebalances(Abs(s'));
        m, s', res := AvlRightShrunk(n, s');
      }
    } else {
      target.d := n.d;
      target.key := n.key;
      m, s', res := n.left, s.l, BALANCE;
    }
  }

  /** Line 319: the call on the left subtree. */
  method TakeLowestLeft(target: AvlNode, n: AvlNode, ghost s: Shape) returns (ghost s': Shape, res: Res)
    requires Rep(n, s) && Balanced(Abs(s)) && Abs(s).Node? && Abs(s).left.Node? && target !in Nodes(s)
    requires n.left != null
    modifies Nodes(s), target`d, target`key
    ensures Rep(n, s') && Nodes(s') <= Nodes(s)
    ensures var t := old(Abs(s));
      var r := FindLowest(t.left);
      Abs(s') == t.(left := r.0) && (target.key, target.d, res) == (r.1, r.2, r.3)
    decreases s, 0
  {
    hide FindLowest, SkewOf, Height;
    Unfold(n, s);
    Allocated(s.r);
    ghost var l;
    n.left, l, res := AvlFindLowest(target, n.left, s.l);
    assert Rep(n.right, s.r) && Abs(s.r) == old(Abs(s.r));
    Fold(n, l, s.r);
    s' := At(n, l, s.r);
  }

  /** `avlfindlowest` on a non-empty subtree. */
  method AvlFindLowest(target: AvlNode, n: AvlNode, ghost s: Shape)
    returns (m: AvlNode?, ghost s': Shape, res: Res)
    requires Rep(n, s) && Balanced(Abs(s)) && Abs(s).Node? && target !in Nodes(s)
    modifies Nodes(s), target`d, target`key
    ensures Rep(m, s') && Nodes(s') <= Nodes(s)
    ensures (Abs(s'), target.key, target.d, res) == FindLowest(old(Abs(s)))
    decreases s, 1
  {
    Unfold(n, s);
    Unfold(n.left, s.l);
    Allocated(s);
    if n.left != null {
      s', res := TakeLowestLeft(target, n, s);
      m := n;
      if res == BALANCE {
        LeftShrunkRebalances(Abs(s'));
        m, s', res := AvlLeftShrunk(n, s');
      }
    } else {
      target.d := n.d;
      target.key := n.key;
      m, s', res := n.right, s.r, BALANCE;
    }
  }

  /** Line 361: the root takes over its in-order predecessor. */
  method PullHighest(n: AvlNode, ghost s: Shape) returns (ghost s': Shape, res: Res)
    requires Rep(n, s) && Balanced(Abs(s)) && Abs(s).Node? && Abs(s).left.Node? && n.left != null
    modifies Nodes(s)
    ensures Rep(n, s') && Nodes(s') <= Nodes(s)
    ensures var t := old(Abs(s));
      var r := FindHighest(t.left);
      Abs(s') == t.(left := r.0, key := r.1, d := r.2) && res == r.3
  {
    hide FindHighest, SkewOf, Height;
    Unfold(n, s);
    Allocated(s.r);
    ghost var l;
    n.left, l, res := AvlFindHighest(n, n.left, s.l);
    assert Rep(n.right, s.r) && Abs(s.r) == old(Abs(s.r));
    Fold(n, l, s.r);
    s' := At(n, l, s.r);
  }

  /** Line 370: the root takes over its in-order successor. */
  method PullLowest(n: AvlNode, ghost s: Shape) returns (ghost s': Shape, res: Res)
    requires Rep(n, s) && Balanced(Abs(s)) && Abs(s).Node? && Abs(s).right.Node? && n.right != null
    modifies Nodes(s)
    ensures Rep(n, s') && Nodes(s') <= Nodes(s)
    ensures var t := old(Abs(s));
      var r := FindLowest(t.right);
      Abs(s') == t.(right := r.0, key := r.1, d := r.2) && res == r.3
  {
    hide FindLowest, SkewOf, Height;
    Unfold(n, s);
    Allocated(s.l);
    ghost var r;
    n.right, r, res := AvlFindLowest(n, n.right, s.r);
    assert Rep(n.left, s.l) && Abs(s.l) == old(Abs(s.l));
    Fold(n, s.l, r);
    s' := At(n, s.l, r);
  }

  /** Line 347: the call on the left subtree. */
  method RemoveBelowLeft(n: AvlNode, key: int, ghost s: Shape) returns (ghost s': Shape, res: Res)
    requires Rep(n, s) && Balanced(Abs(s)) && s.At?
    modifies Nodes(s)
    ensures Rep(n, s') && Nodes(s') <= Nodes(s)
    ensures var t := old(Abs(s));
      var r := Remove(t.left, key);
      Abs(s') == t.(left := r.0) && res == r.1
    decreases s, 0
  {
    hide Remove, SkewOf, Height;
    Unfold(n, s);
    Allocated(s.r);
    ghost var l;
    n.left, l, res := IAvlRemove(n.left, key, s.l);
    assert Rep(n.right, s.r) && Abs(s.r) == old(Abs(s.r));
    Fold(n, l, s.r);
    s' := At(n, l, s.r);
  }

  /** Line 353: the call on the right subtree. */
  method RemoveBelowRight(n: AvlNode, key: int, ghost s: Shape) returns (ghost s': Shape, res: Res)
    requires Rep(n, s) && Balanced(Abs(s)) && s.At?
    modifies Nodes(s)
    ensures Rep(n, s') && Nodes(s') <= Nodes(s)
    ensures var t := old(Abs(s));
      var r := Remove(t.right, key);
      Abs(s') == t.(right := r.0) && res == r.1
    decreases s, 0
  {
    hide Remove, SkewOf, Height;
    Unfold(n, s);
    Allocated(s.l);
    ghost var r;
    n.right, r, res := IAvlRemove(n.right, key, s.r);
    assert Rep(n.left, s.l) && Abs(s.l) == old(Abs(s.l));
    Fold(n, s.l, r);
    s' := At(n, s.l, r);
  }

  method IAvlRemove(n: AvlNode?, key: int, ghost s: Shape) returns (m: AvlNode?, ghost s': Shape, res: Res)
    requires Rep(n, s) && Balanced(Abs(s))
    modifies Nodes(s)
    ensures Rep(m, s') && Nodes(s') <= Nodes(s)
    ensures (Abs(s'), res) == Remove(old(Abs(s)), key)
    decreases s, 1
  {
    Unfold(n, s);
    m, s', res := n, s, AVLERROR;
    if n == null {
    } else if key < n.key {
      s', res := RemoveBelowLeft(n, key, s);
      if res == BALANCE {
        LeftShrunkRebalances(Abs(s'));
        m, s', res := AvlLeftShrunk(n, s');
      }
    } else if key > n.key {
      s', res := RemoveBelowRight(n, key, s);
      if res == BALANCE {
        RightShrunkRebalances(Abs(s'));
        m, s', res := AvlRightShrunk(n, s');
      }
    } else {
      m, s', res := RemoveMatch(n, s);
    }
  }

  /** Lines 359-380: the key is at this node. */
  method RemoveMatch(n: AvlNode, ghost s: Shape) returns (m: AvlNode?, ghost s': Shape, res: Res)
    requires Rep(n, s) && Balanced(Abs(s)) && Abs(s).Node?
    modifies Nodes(s)
    ensures Rep(m, s') && Nodes(s') <= Nodes(s)
    ensures (Abs(s'), res) == Remove(old(Abs(s)), old(Abs(s)).key)
  {
    Unfold(n, s);
    Unfold(n.left, s.l);
    Unfold(n.right, s.r);
    if n.left != null {
      s', res := PullHighest(n, s);
      m := n;
      if res == BALANCE {
        LeftShrunkRebalances(Abs(s'));
        m, s', res := AvlLeftShrunk(n, s');
      }
    } else if n.right != null {
      s', res := PullLowest(n, s);
      m := n;
      if res == BALANCE {
        RightShrunkRebalances(Abs(s'));
        m, s', res := AvlRightShrunk(n, s');
      }
    } else {
      m, s', res := null, Nil, BALANCE;
    }
  }

  // ------------------------------------------------------------------ reading

  /** `iavl_getvalue`. */
  function IAvlGetValue(n: AvlNode?, key: int, ghost s: Shape): (v: Ptr)
    requires Rep(n, s)
    reads Nodes(s)
    ensures v == GetValue(Abs(s), key)
    decreases s
  {
    if n == null then 0
    else if key < n.key then IAvlGetValue(n.left, key, s.l)
    else if key > n.key then IAvlGetValue(n.right, key, s.r)
    else n.d
  }

  /** `iavl_get_indexes`: `i` is the last position written, `done` what is there so far. */
  method IAvlGetIndexes(n: AvlNode?, indexes: array<int>, i: int, ghost done: seq<int>, ghost s: Shape, ghost t: Tree)
    returns (j: int)
    requires Rep(n, s) && Abs(s) == t
    requires -1 <= i && i + Size(t) < indexes.Length && indexes[..i + 1] == done
    modifies indexes
    ensures j == i + Size(t) && indexes[..j + 1] == done + InOrder(t)
    decreases s, 1
  {
    Unfold(n, s);
    if n == null {
      j := i;
    } else {
      Allocated(s);
      j := IAvlGetIndexes(n.left, indexes, i, done, s.l, t.left);
      assert Rep(n, s) && Abs(s) == t;
      j := IndexRest(n, indexes, j, done + InOrder(t.left), s, t);
      assert done + InOrder(t.left) + [t.key] + InOrder(t.right) == done + InOrder(t);
    }
  }

  /** Lines 427-429: the node itself and its right subtree. */
  method IndexRest(n: AvlNode, indexes: array<int>, i: int, ghost done: seq<int>, ghost s: Shape, ghost t: Tree)
    returns (j: int)
    requires Rep(n, s) && Abs(s) == t && t.Node?
    requires -1 <= i && i + 1 + Size(t.right) < indexes.Length && indexes[..i + 1] == done
    modifies indexes
    ensures j == i + 1 + Size(t.right) && indexes[..j + 1] == done + [t.key] + InOrder(t.right)
    decreases s, 0
  {
    Unfold(n, s);
    j := i + 1;
    indexes[j] := n.key;
    assert indexes[..j + 1] == done + [t.key];
    j := IAvlGetIndexes(n.right, indexes, j, done + [t.key], s.r, t.right);
  }

  // ------------------------------------------------------------------ the tree

  class AvlTree {
    var node: AvlNode?
    var total: int
    ghost var shape: Shape

    /** `total` is the number of nodes of a valid tree. */
    ghost predicate Valid()
      reads this, Nodes(shape)
    {
      Rep(node, shape) && AvlSpec.Valid(Abs(shape)) && total == Size(Abs(shape))
    }

    ghost function Contents(): map<int, Ptr>
      reads this, Nodes(shape)
    {
      Bindings(Abs(shape))
    }

    /** `avl_init`. */
    constructor ()
      ensures Valid() && Contents() == map[] && Nodes(shape) == {}
    {
      node, total, shape := null, 0, Nil;
    }

    /** `avl_insert`. */
    method Insert(d: Ptr, key: int, memory: bool) returns (res: Res)
      requires Valid()
      modifies this, Nodes(shape)
      ensures Valid() && fresh(Nodes(shape) - old(Nodes(shape)))
      ensures res == AVLERROR <==> key in old(Contents()) || !memory
      ensures Contents() == if res == AVLERROR then old(Contents()) else old(Contents())[key := d]
      ensures res == AVLERROR ==> Abs(shape) == old(Abs(shape))
      ensures total == old(total) + (if res == AVLERROR then 0 else 1)
      ensures Height(Abs(shape)) == old(Height(Abs(shape))) + (if res == BALANCE then 1 else 0)
    {
      hide AvlSpec.Insert, Height, Bindings, Ordered, Balanced, Size;
      InsertAdds(Abs(shape), d, key, memory);
      node, shape, res := IAvlInsert(node, d, key, memory, shape);
      if res != AVLERROR { total := total + 1; }
    }

    /** `avl_remove`. */
    method Remove(key: int) returns (res: Res)
      requires Valid()
      modifies this, Nodes(shape)
      ensures Valid() && Nodes(shape) <= old(Nodes(shape))
      ensures res == AVLERROR <==> key !in old(Contents())
      ensures Contents() == old(Contents()) - {key}
      ensures res == AVLERROR ==> Abs(shape) == old(Abs(shape))
      ensures total == old(total) - (if res == AVLERROR then 0 else 1)
      ensures Height(Abs(shape)) == old(Height(Abs(shape))) - (if res == BALANCE then 1 else 0)
    {
      hide AvlSpec.Remove, Height, Bindings, Ordered, Balanced, Size;
      RemoveDeletes(Abs(shape), key);
      node, shape, res := IAvlRemove(node, key, shape);
      if res != AVLERROR { total := total - 1; }
    }

    /** `avl_getvalue`. */
    method GetValue(key: int) returns (v: Ptr)
      requires Valid()
      ensures v == if key in Contents() then Contents()[key] else 0
    {
      GetValueLooksUp(Abs(shape), key);
      v := IAvlGetValue(node, key, shape);
    }

    /** `avl_get_indexes`: every key once, in increasing order. */
    method GetIndexes() returns (indexes: array?<int>, count: int)
      requires Valid()
      ensures count == total == |Contents()| && (indexes == null <==> count == 0)
      ensures indexes != null ==> fresh(indexes) && indexes.Length == count && Lists(indexes[..], Contents())
    {
      indexes, count := null, total;
      ghost var t := Abs(shape);
      InOrderLists(t);
      SizeCounts(t);
      if total != 0 {
        Allocated(shape);
        indexes := new int[total];
        var last := IAvlGetIndexes(node, indexes, -1, [], shape, t);
        assert Abs(shape) == t;
        assert indexes[..] == indexes[..last + 1] == InOrder(t);
      }
    }
  }
}
