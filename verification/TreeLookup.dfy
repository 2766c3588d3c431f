/** Binary search trees built midpoint first by repeated insertion at the root. */
module TreeLookup {
  import opened Machine
  import opened Logarithm

  /** Boxed nodes, uniquely owned. */
  datatype Tree = Leaf | Node(left: Tree, key: I64, value: I64, right: Tree)

  function Insert(t: Tree, key: I64, value: I64): Tree {
    match t
    case Leaf => Node(Leaf, key, value, Leaf)
    case Node(l, k, v, r) =>
      if key < k then Node(Insert(l, key, value), k, v, r)
      else if key > k then Node(l, k, v, Insert(r, key, value))
      else Node(l, k, value, r)
  }

  /** The walk's order of insertions: the midpoint, the lower half, the upper half. */
  function InsertRange(t: Tree, lo: nat, hi: nat): Tree
    requires hi <= I64_MAX
    decreases hi - lo
  {
    if lo >= hi then t
    else
      var mid := lo + (hi - lo) / 2;
      InsertRange(InsertRange(Insert(t, mid, Wrap(mid * 3)), lo, mid), mid + 1, hi)
  }

  function Keys(t: Tree): set<I64> {
    match t
    case Leaf => {}
    case Node(l, k, _, r) => Keys(l) + {k} + Keys(r)
  }

  ghost predicate SearchTree(t: Tree) {
    match t
    case Leaf => true
    case Node(l, k, _, r) =>
      SearchTree(l) && SearchTree(r) && (forall x :: x in Keys(l) ==> x < k) && (forall x :: x in Keys(r) ==> k < x)
  }

  /** The value a key is mapped to, by the shape of the tree. */
  function Lookup(t: Tree, key: I64): Option<I64> {
    match t
    case Leaf => None
    case Node(l, k, v, r) => if key < k then Lookup(l, key) else if key > k then Lookup(r, key) else Some(v)
  }

  /** Node count and height. */
  function Dimensions(t: Tree): (nat, nat) {
    match t
    case Leaf => (0, 0)
    case Node(l, _, _, r) =>
      var (ln, lh) := Dimensions(l);
      var (rn, rh) := Dimensions(r);
      (ln + rn + 1, (if lh >= rh then lh else rh) + 1)
  }

  // ----- insertion -----

  /** Insertion keeps the search order and adds exactly one key. */
  lemma {:induction false} InsertKeeps(t: Tree, key: I64, value: I64)
    requires SearchTree(t)
    ensures SearchTree(Insert(t, key, value)) && Keys(Insert(t, key, value)) == Keys(t) + {key}
  {
    match t
    case Leaf =>
    case Node(l, k, _, r) => if key < k { InsertKeeps(l, key, value); } else if key > k { InsertKeeps(r, key, value); }
  }

  /** Insertion maps its key and no other anew. */
  lemma {:induction false} InsertLookup(t: Tree, key: I64, value: I64, x: I64)
    ensures Lookup(Insert(t, key, value), x) == if x == key then Some(value) else Lookup(t, x)
  {
    match t
    case Leaf =>
    case Node(l, k, _, r) =>
      if key < k { InsertLookup(l, key, value, x); } else if key > k { InsertLookup(r, key, value, x); }
  }

  lemma {:induction false} InsertRangeKeeps(t: Tree, lo: nat, hi: nat)
    requires hi <= I64_MAX && SearchTree(t)
    ensures SearchTree(InsertRange(t, lo, hi))
    decreases hi - lo
  {
    if lo < hi {
      var mid := lo + (hi - lo) / 2;
      var t1 := Insert(t, mid, Wrap(mid * 3));
      InsertKeeps(t, mid, Wrap(mid * 3));
      InsertRangeKeeps(t1, lo, mid);
      InsertRangeKeeps(InsertRange(t1, lo, mid), mid + 1, hi);
    }
  }

  lemma {:induction false} InsertRangeLookup(t: Tree, lo: nat, hi: nat, x: I64)
    requires hi <= I64_MAX
    ensures Lookup(InsertRange(t, lo, hi), x) == if lo <= x < hi then Some(Wrap(x * 3)) else Lookup(t, x)
    decreases hi - lo
  {
    hide Insert, Lookup, Wrap;
    if lo < hi {
      var mid := lo + (hi - lo) / 2;
      var t1 := Insert(t, mid, Wrap(mid * 3));
      InsertLookup(t, mid, Wrap(mid * 3), x);
      InsertRangeLookup(t1, lo, mid, x);
      InsertRangeLookup(InsertRange(t1, lo, mid), mid + 1, hi, x);
    }
  }

  // ----- shape -----

  /** The tree a range builds where there was none. */
  function Balanced(lo: nat, hi: nat): Tree
    requires hi <= I64_MAX
    decreases hi - lo
  {
    if lo >= hi then Leaf
    else
      var mid := lo + (hi - lo) / 2;
      Node(Balanced(lo, mid), mid, Wrap(mid * 3), Balanced(mid + 1, hi))
  }

  lemma InsertLeft(l: Tree, k: I64, v: I64, r: Tree, key: I64, value: I64)
    requires key < k
    ensures Insert(Node(l, k, v, r), key, value) == Node(Insert(l, key, value), k, v, r)
  {
  }

  lemma InsertRight(l: Tree, k: I64, v: I64, r: Tree, key: I64, value: I64)
    requires key > k
    ensures Insert(Node(l, k, v, r), key, value) == Node(l, k, v, Insert(r, key, value))
  {
  }

  /** Keys below a node all go to its left, in the order given. */
  lemma {:induction false} RangeGoesLeft(l: Tree, k: I64, v: I64, r: Tree, lo: nat, hi: nat)
    requires hi <= I64_MAX && hi <= k
    ensures InsertRange(Node(l, k, v, r), lo, hi) == Node(InsertRange(l, lo, hi), k, v, r)
    decreases hi - lo
  {
    hide Insert, Wrap;
    if lo < hi {
      var mid := lo + (hi - lo) / 2;
      InsertLeft(l, k, v, r, mid, Wrap(mid * 3));
      var l1 := Insert(l, mid, Wrap(mid * 3));
      RangeGoesLeft(l1, k, v, r, lo, mid);
      RangeGoesLeft(InsertRange(l1, lo, mid), k, v, r, mid + 1, hi);
    }
  }

  lemma {:induction false} RangeGoesRight(l: Tree, k: I64, v: I64, r: Tree, lo: nat, hi: nat)
    requires hi <= I64_MAX && k < lo
    ensures InsertRange(Node(l, k, v, r), lo, hi) == Node(l, k, v, InsertRange(r, lo, hi))
    decreases hi - lo
  {
    hide Insert, Wrap;
    if lo < hi {
      var mid := lo + (hi - lo) / 2;
      InsertRight(l, k, v, r, mid, Wrap(mid * 3));
      var r1 := Insert(r, mid, Wrap(mid * 3));
      RangeGoesRight(l, k, v, r1, lo, mid);
      RangeGoesRight(l, k, v, InsertRange(r1, lo, mid), mid + 1, hi);
    }
  }

  /** Repeated insertion at the root builds the balanced tree directly. */
  lemma {:induction false} RangeBuildsBalanced(lo: nat, hi: nat)
    requires hi <= I64_MAX
    ensures InsertRange(Leaf, lo, hi) == Balanced(lo, hi)
    decreases hi - lo
  {
    if lo < hi {
      var mid := lo + (hi - lo) / 2;
      RangeGoesLeft(Leaf, mid, Wrap(mid * 3), Leaf, lo, mid);
      RangeBuildsBalanced(lo, mid);
      RangeGoesRight(Balanced(lo, mid), mid, Wrap(mid * 3), Leaf, mid + 1, hi);
      RangeBuildsBalanced(mid + 1, hi);
    }
  }

  /** The least height of a tree of `n` nodes. */
  function Height(n: nat): nat {
    if n == 0 then 0 else Log2(n) + 1
  }

  lemma BalancedNode(lo: nat, hi: nat)
    requires hi <= I64_MAX
    ensures lo >= hi ==> Dimensions(Balanced(lo, hi)) == (0, Height(0))
    ensures lo < hi ==>
      var mid := lo + (hi - lo) / 2;
      Balanced(lo, hi) == Node(Balanced(lo, mid), mid, Wrap(mid * 3), Balanced(mid + 1, hi))
  {
    hide Wrap;
  }

  lemma NodeDimensions(l: Tree, k: I64, v: I64, r: Tree)
    ensures Dimensions(Node(l, k, v, r)) ==
      (Dimensions(l).0 + Dimensions(r).0 + 1, Max(Dimensions(l).1, Dimensions(r).1) + 1)
  {
  }

  /** The lower half is the larger one, and one level lower than the whole. */
  lemma HalfHeight(n: nat)
    requires n > 0
    ensures Height(n - 1 - n / 2) <= Height(n / 2) && Height(n) == Height(n / 2) + 1
  {
    Log2Monotone(n - 1 - n / 2, n / 2);
  }

  lemma {:induction false} BalancedDimensions(lo: nat, hi: nat)
    requires hi <= I64_MAX && lo <= hi
    ensures Dimensions(Balanced(lo, hi)) == (hi - lo, Height(hi - lo))
    decreases hi - lo
  {
    hide Height, Balanced, Dimensions, Wrap;
    BalancedNode(lo, hi);
    if lo < hi {
      var n := hi - lo;
      var mid := lo + n / 2;
      BalancedDimensions(lo, mid);
      BalancedDimensions(mid + 1, hi);
      NodeDimensions(Balanced(lo, mid), mid, Wrap(mid * 3), Balanced(mid + 1, hi));
      HalfHeight(n);
    }
  }

  // ----- the tree as the program uses it -----

  class BinaryTree {
    var root: Tree

    constructor ()
      ensures root == Leaf
    {
      root := Leaf;
    }

    method InsertKey(key: I64, value: I64)
      modifies this
      ensures root == Insert(old(root), key, value)
    {
      root := Insert(root, key, value);
    }

    method InsertKeys(lo: nat, hi: nat)
      requires hi <= I64_MAX && SearchTree(root)
      modifies this
      ensures SearchTree(root) && root == InsertRange(old(root), lo, hi)
      decreases hi - lo
    {
      if lo >= hi { return; }
      var mid := lo + (hi - lo) / 2;
      InsertKeeps(root, mid, Wrap(mid * 3));
      InsertKey(mid, Wrap(mid * 3));
      InsertKeys(lo, mid);
      InsertKeys(mid + 1, hi);
    }

    /** Walks down without changing the tree. */
    method Find(key: I64) returns (found: Option<I64>)
      ensures found == Lookup(root, key)
    {
      var current := root;
      while current.Node?
        invariant Lookup(current, key) == Lookup(root, key)
        decreases current
      {
        if key < current.key {
          current := current.left;
        } else if key > current.key {
          current := current.right;
        } else {
          return Some(current.value);
        }
      }
      found := None;
    }
  }

  method Build(count: I64) returns (tree: BinaryTree)
    ensures fresh(tree) && SearchTree(tree.root)
    ensures tree.root == InsertRange(Leaf, 0, Max(count, 0))
  {
    tree := new BinaryTree();
    tree.InsertKeys(0, Max(count, 0));
  }

  lemma EmptyTree(key: I64)
    ensures SearchTree(Leaf) && Lookup(Leaf, key) == None
  {
  }

  /** A built tree finds exactly the keys below its count, each mapped to three times
      itself, and is as low as a binary tree of that many nodes can be. */
  lemma BuiltTree(count: I64, key: I64)
    ensures var t := InsertRange(Leaf, 0, Max(count, 0));
      && SearchTree(t)
      && Lookup(t, key) == (if 0 <= key < count then Some(Wrap(key * 3)) else None)
      && Dimensions(t) == (Max(count, 0), if count <= 0 then 0 else Log2(count) + 1)
  {
    hide InsertRange, SearchTree, Lookup, Dimensions, Balanced, Log2, Wrap;
    EmptyTree(key);
    InsertRangeKeeps(Leaf, 0, Max(count, 0));
    InsertRangeLookup(Leaf, 0, Max(count, 0), key);
    RangeBuildsBalanced(0, Max(count, 0));
    BalancedDimensions(0, Max(count, 0));
  }

  /** No binary tree of that many nodes is lower. */
  lemma {:induction false} HeightIsLeast(t: Tree)
    ensures Dimensions(t).0 < Pow2(Dimensions(t).1)
    ensures Dimensions(t).0 > 0 ==> Log2(Dimensions(t).0) + 1 <= Dimensions(t).1
  {
    match t
    case Leaf =>
    case Node(l, _, _, r) =>
      HeightIsLeast(l);
      HeightIsLeast(r);
      var (n, h) := Dimensions(t);
      Pow2Monotone(Dimensions(l).1, h - 1);
      Pow2Monotone(Dimensions(r).1, h - 1);
      Log2IsFloor(n);
      if h < Log2(n) + 1 { Pow2Monotone(h, Log2(n)); }
  }

  lemma {:induction false} Pow2Monotone(a: nat, b: nat)
    requires a <= b
    ensures Pow2(a) <= Pow2(b)
    decreases b
  {
    if a < b { Pow2Monotone(a, b - 1); }
  }
}
