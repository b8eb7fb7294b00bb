/**
 * The AVL tree of symbol_table.c. Keys are integers ordered by a comparator that follows the
 * sign convention of `AVLTree.compare`; a node stores its height, with -1 for the empty tree.
 * Subtrees are values: the pointer rewriting of the rotations becomes building the rotated tree.
 */
module SymbolTable {
  import opened Wrappers

  /** `Node`: a key, the stored height and two subtrees; `Nil` is a NULL subtree. */
  datatype Tree = Nil | Node(key: int, height: nat, left: Tree, right: Tree)

  /** The comparator contract: negative when `l < r`, positive when `l > r`, zero when equal. */
  ghost predicate Convention(compare: (int, int) -> int) {
    forall l, r :: (compare(l, r) < 0 <==> l < r) && (compare(l, r) > 0 <==> l > r)
  }

  function Max(a: int, b: int): int {
    if a > b then a else b
  }

  /** `height`: the stored height, and -1 for NULL. */
  function Height(t: Tree): (h: int)
    ensures h >= -1 && (h == -1 <==> t.Nil?)
  {
    if t.Nil? then -1 else t.height
  }

  /** `updateHeight`: one more than the taller child; NULL is left alone. */
  function UpdateHeight(t: Tree): (r: Tree)
    ensures r.Nil? <==> t.Nil?
  {
    if t.Nil? then Nil else t.(height := Max(Height(t.left), Height(t.right)) + 1)
  }

  function Keys(t: Tree): set<int> {
    if t.Nil? then {} else Keys(t.left) + {t.key} + Keys(t.right)
  }

  /** The keys in order. */
  function Elements(t: Tree): seq<int> {
    if t.Nil? then [] else Elements(t.left) + [t.key] + Elements(t.right)
  }

  /** The root's key lies strictly between the keys of its two subtrees. */
  predicate Ordered(t: Tree)
    requires t.Node?
  {
    (forall x :: x in Keys(t.left) ==> x < t.key) && (forall x :: x in Keys(t.right) ==> t.key < x)
  }

  /** Strict search-tree order at every node. */
  predicate Bst(t: Tree) {
    t.Nil? || (Bst(t.left) && Bst(t.right) && Ordered(t))
  }

  /** Every stored height is one more than the taller child's. */
  predicate HeightsOk(t: Tree) {
    t.Nil? || (HeightsOk(t.left) && HeightsOk(t.right) && t.height == Max(Height(t.left), Height(t.right)) + 1)
  }

  /** The children's heights differ by at most one at every node. */
  predicate Balanced(t: Tree) {
    t.Nil? || (Balanced(t.left) && Balanced(t.right) && -1 <= Height(t.left) - Height(t.right) <= 1)
  }

  predicate Avl(t: Tree) {
    Bst(t) && HeightsOk(t) && Balanced(t)
  }

  /** `rotateLeft`: the right child becomes the root; both moved nodes get their heights recomputed. */
  function RotateLeft(t: Tree): (r: Tree)
    requires t.Node? && t.right.Node?
    ensures r.Node?
  {
    var up := t.right;
    var down := UpdateHeight(Node(t.key, t.height, t.left, up.left));
    UpdateHeight(Node(up.key, up.height, down, up.right))
  }

  /** `rotateRight`: the left child becomes the root; both moved nodes get their heights recomputed. */
  function RotateRight(t: Tree): (r: Tree)
    requires t.Node? && t.left.Node?
    ensures r.Node?
  {
    var up := t.left;
    var down := UpdateHeight(Node(t.key, t.height, up.right, t.right));
    UpdateHeight(Node(up.key, up.height, up.left, down))
  }

  lemma Regroup<T>(a: seq<T>, x: T, b: seq<T>, y: T, c: seq<T>)
    ensures (a + [x] + b) + [y] + c == a + [x] + (b + [y] + c)
  {
  }

  /** The order facts a rotation needs: `a < x < b < y < c` for the subtrees `a`, `b`, `c`. */
  ghost predicate Chain(a: Tree, x: int, b: Tree, y: int, c: Tree) {
    && Bst(a) && Bst(b) && Bst(c) && x < y
    && (forall k :: k in Keys(a) ==> k < x)
    && (forall k :: k in Keys(b) ==> x < k < y)
    && (forall k :: k in Keys(c) ==> y < k)
  }

  /** Both groupings of a chain are search trees, whatever their heights. */
  lemma ChainBst(a: Tree, x: int, b: Tree, y: int, c: Tree, h1: nat, h2: nat)
    requires Chain(a, x, b, y, c)
    ensures Bst(Node(x, h1, a, Node(y, h2, b, c))) && Bst(Node(y, h1, Node(x, h2, a, b), c))
  {
    var right := Node(y, h2, b, c);
    assert Keys(right) == Keys(b) + {y} + Keys(c);
    assert Ordered(right) && Bst(right);
    assert Ordered(Node(x, h1, a, right));
    var left := Node(x, h2, a, b);
    assert Keys(left) == Keys(a) + {x} + Keys(b);
    assert Ordered(left) && Bst(left);
    assert Ordered(Node(y, h1, left, c));
  }

  /** A chain read off a search tree with a right child, and one with a left child. */
  lemma ChainOfRight(t: Tree)
    requires t.Node? && t.right.Node? && Bst(t)
    ensures Chain(t.left, t.key, t.right.left, t.right.key, t.right.right)
  {
    assert Keys(t.right) == Keys(t.right.left) + {t.right.key} + Keys(t.right.right);
  }

  lemma ChainOfLeft(t: Tree)
    requires t.Node? && t.left.Node? && Bst(t)
    ensures Chain(t.left.left, t.left.key, t.left.right, t.key, t.right)
  {
    assert Keys(t.left) == Keys(t.left.left) + {t.left.key} + Keys(t.left.right);
  }

  /** A rotation keeps the in-order key sequence, the key set and search-tree order. */
  lemma RotateLeftKeeps(t: Tree)
    requires t.Node? && t.right.Node?
    ensures Elements(RotateLeft(t)) == Elements(t) && Keys(RotateLeft(t)) == Keys(t)
    ensures Bst(t) ==> Bst(RotateLeft(t))
  {
    var a, x, b, y, c := t.left, t.key, t.right.left, t.right.key, t.right.right;
    var r := RotateLeft(t);
    assert r == Node(y, r.height, Node(x, r.left.height, a, b), c);
    Regroup(Elements(a), x, Elements(b), y, Elements(c));
    if Bst(t) {
      ChainOfRight(t);
      ChainBst(a, x, b, y, c, r.height, r.left.height);
    }
  }

  lemma RotateRightKeeps(t: Tree)
    requires t.Node? && t.left.Node?
    ensures Elements(RotateRight(t)) == Elements(t) && Keys(RotateRight(t)) == Keys(t)
    ensures Bst(t) ==> Bst(RotateRight(t))
  {
    var a, x, b, y, c := t.left.left, t.left.key, t.left.right, t.key, t.right;
    var r := RotateRight(t);
    assert r == Node(x, r.height, a, Node(y, r.right.height, b, c));
    Regroup(Elements(a), x, Elements(b), y, Elements(c));
    if Bst(t) {
      ChainOfLeft(t);
      ChainBst(a, x, b, y, c, r.height, r.right.height);
    }
  }

  /** `updateHeight` sets the height to one more than the taller child's and changes nothing else. */
  lemma UpdateHeightOk(t: Tree)
    requires t.Node?
    ensures var r := UpdateHeight(t);
      && r.key == t.key && r.left == t.left && r.right == t.right
      && Height(r) == Max(Height(t.left), Height(t.right)) + 1
      && (HeightsOk(t.left) && HeightsOk(t.right) ==> HeightsOk(r))
  {
  }

  /**
   * A rotation returns the new subtree root, the former child, and the heights it recomputes
   * make every stored height correct when those of the three subtrees it regroups are.
   */
  lemma RotateLeftHeights(t: Tree)
    requires t.Node? && t.right.Node?
    requires HeightsOk(t.left) && HeightsOk(t.right.left) && HeightsOk(t.right.right)
    ensures RotateLeft(t).key == t.right.key && HeightsOk(RotateLeft(t))
  {
    var down := UpdateHeight(Node(t.key, t.height, t.left, t.right.left));
    UpdateHeightOk(Node(t.key, t.height, t.left, t.right.left));
    UpdateHeightOk(Node(t.right.key, t.right.height, down, t.right.right));
  }

  lemma RotateRightHeights(t: Tree)
    requires t.Node? && t.left.Node?
    requires HeightsOk(t.left.left) && HeightsOk(t.left.right) && HeightsOk(t.right)
    ensures RotateRight(t).key == t.left.key && HeightsOk(RotateRight(t))
  {
    var down := UpdateHeight(Node(t.key, t.height, t.left.right, t.right));
    UpdateHeightOk(Node(t.key, t.height, t.left.right, t.right));
    UpdateHeightOk(Node(t.left.key, t.left.height, t.left.left, down));
  }

  /** `balance`: a single or double rotation when the children's heights differ by more than one. */
  function Balance(t: Tree): (r: Tree)
    ensures r.Nil? <==> t.Nil?
  {
    if t.Nil? then Nil
    else if Height(t.left) - Height(t.right) > 1 then
      var l := if Height(t.left.left) < Height(t.left.right) then RotateLeft(t.left) else t.left;
      RotateRight(t.(left := l))
    else if Height(t.right) - Height(t.left) > 1 then
      var r := if Height(t.right.left) > Height(t.right.right) then RotateRight(t.right) else t.right;
      RotateLeft(t.(right := r))
    else t
  }

  /** Balancing keeps the in-order key sequence, the key set and search-tree order. */
  lemma BalanceKeeps(t: Tree)
    ensures Elements(Balance(t)) == Elements(t) && Keys(Balance(t)) == Keys(t)
    ensures Bst(t) ==> Bst(Balance(t))
  {
    if t.Node? && Height(t.left) - Height(t.right) > 1 {
      if Height(t.left.left) < Height(t.left.right) {
        RotateLeftKeeps(t.left);
      }
      var l := if Height(t.left.left) < Height(t.left.right) then RotateLeft(t.left) else t.left;
      RotateRightKeeps(t.(left := l));
    } else if t.Node? && Height(t.right) - Height(t.left) > 1 {
      if Height(t.right.left) > Height(t.right.right) {
        RotateRightKeeps(t.right);
      }
      var r := if Height(t.right.left) > Height(t.right.right) then RotateRight(t.right) else t.right;
      RotateLeftKeeps(t.(right := r));
    }
  }

  /** Correct heights and balance at every node. */
  predicate Shaped(t: Tree) {
    HeightsOk(t) && Balanced(t)
  }

  /** Left-left case: one right rotation of a node whose left child is two taller rebalances it. */
  lemma RightRotationShape(t: Tree)
    requires t.Node? && t.left.Node? && Shaped(t.left) && Shaped(t.right)
    requires Height(t.left) == Height(t.right) + 2 && Height(t.left.left) >= Height(t.left.right)
    ensures var b := RotateRight(t); Shaped(b) && Height(t.left) <= Height(b) <= Height(t.left) + 1
  {
    var down := UpdateHeight(Node(t.key, t.height, t.left.right, t.right));
    assert Shaped(down);
  }

  /** Left-right case: a left rotation of the left child, then a right rotation, rebalances it. */
  lemma LeftRightShape(t: Tree)
    requires t.Node? && t.left.Node? && t.left.right.Node? && Shaped(t.left) && Shaped(t.right)
    requires Height(t.left) == Height(t.right) + 2 && Height(t.left.left) < Height(t.left.right)
    ensures var b := RotateRight(t.(left := RotateLeft(t.left))); Shaped(b) && Height(b) == Height(t.left)
  {
    var l := t.left;
    var lr := l.right;
    assert HeightsOk(l) && Balanced(l);
    assert Height(lr) == Height(t.right) + 1 && Height(l.left) == Height(t.right);
    assert Shaped(l.left) && Shaped(lr);
    assert HeightsOk(lr) && Balanced(lr);
    assert Shaped(lr.left) && Shaped(lr.right);
    assert Height(t.right) - 1 <= Height(lr.left) <= Height(t.right) && Height(t.right) - 1 <= Height(lr.right) <= Height(t.right);
    var l1 := UpdateHeight(Node(l.key, l.height, l.left, lr.left));
    var r1 := UpdateHeight(Node(t.key, t.height, lr.right, t.right));
    assert Shaped(l1) && Height(l1) == Height(t.right) + 1;
    assert Shaped(r1) && Height(r1) == Height(t.right) + 1;
    var b := RotateRight(t.(left := RotateLeft(l)));
    assert b == Node(lr.key, b.height, l1, r1);
  }

  /** Right-right case, the mirror of the left-left case. */
  lemma LeftRotationShape(t: Tree)
    requires t.Node? && t.right.Node? && Shaped(t.left) && Shaped(t.right)
    requires Height(t.right) == Height(t.left) + 2 && Height(t.right.right) >= Height(t.right.left)
    ensures var b := RotateLeft(t); Shaped(b) && Height(t.right) <= Height(b) <= Height(t.right) + 1
  {
    var down := UpdateHeight(Node(t.key, t.height, t.left, t.right.left));
    assert Shaped(down);
  }

  /** Right-left case, the mirror of the left-right case. */
  lemma RightLeftShape(t: Tree)
    requires t.Node? && t.right.Node? && t.right.left.Node? && Shaped(t.left) && Shaped(t.right)
    requires Height(t.right) == Height(t.left) + 2 && Height(t.right.left) > Height(t.right.right)
    ensures var b := RotateLeft(t.(right := RotateRight(t.right))); Shaped(b) && Height(b) == Height(t.right)
  {
    var r := t.right;
    var rl := r.left;
    assert HeightsOk(r) && Balanced(r);
    assert Height(rl) == Height(t.left) + 1 && Height(r.right) == Height(t.left);
    assert Shaped(r.right) && Shaped(rl);
    assert HeightsOk(rl) && Balanced(rl);
    assert Shaped(rl.left) && Shaped(rl.right);
    assert Height(t.left) - 1 <= Height(rl.left) <= Height(t.left) && Height(t.left) - 1 <= Height(rl.right) <= Height(t.left);
    var l1 := UpdateHeight(Node(t.key, t.height, t.left, rl.left));
    var r1 := UpdateHeight(Node(r.key, r.height, rl.right, r.right));
    assert Shaped(l1) && Height(l1) == Height(t.left) + 1;
    assert Shaped(r1) && Height(r1) == Height(t.left) + 1;
    var b := RotateLeft(t.(right := RotateRight(r)));
    assert b == Node(rl.key, b.height, l1, r1);
  }

  /**
   * A node whose subtrees are shaped and differ in height by at most two is shaped after
   * `updateHeight` and `balance`, as tall as its taller child or one taller; when they differ by at
   * most one, `balance` changes nothing.
   */
  lemma FixShape(t: Tree)
    requires t.Node? && Shaped(t.left) && Shaped(t.right) && -2 <= Height(t.left) - Height(t.right) <= 2
    ensures var b := Balance(UpdateHeight(t)); var H := Max(Height(t.left), Height(t.right));
      && Shaped(b) && H <= Height(b) <= H + 1
      && (-1 <= Height(t.left) - Height(t.right) <= 1 ==> b == UpdateHeight(t))
  {
    var u := UpdateHeight(t);
    if Height(t.left) - Height(t.right) > 1 {
      if Height(u.left.left) < Height(u.left.right) {
        LeftRightShape(u);
      } else {
        RightRotationShape(u);
      }
    } else if Height(t.right) - Height(t.left) > 1 {
      if Height(u.right.left) > Height(u.right.right) {
        RightLeftShape(u);
      } else {
        LeftRotationShape(u);
      }
    }
  }

  /** `updateHeight` then `balance` on a node over two AVL subtrees whose heights differ by at most two. */
  lemma FixAvl(t: Tree)
    requires t.Node? && Avl(t.left) && Avl(t.right) && Ordered(t) && -2 <= Height(t.left) - Height(t.right) <= 2
    ensures var b := Balance(UpdateHeight(t)); var H := Max(Height(t.left), Height(t.right));
      && Avl(b) && Keys(b) == Keys(t) && Elements(b) == Elements(t) && H <= Height(b) <= H + 1
      && (-1 <= Height(t.left) - Height(t.right) <= 1 ==> b == UpdateHeight(t))
  {
    FixShape(t);
    assert Bst(UpdateHeight(t));
    BalanceKeeps(UpdateHeight(t));
  }

  /**
   * `balance(proot); updateHeight(root)` in `insertNodeHelper`, where `root` is the node `*proot`
   * held before: without a rotation it is still the subtree's root and gets its height recomputed;
   * after a rotation it is a child whose height the rotation has just recomputed.
   */
  function BalanceThenUpdate(t: Tree): (r: Tree)
    requires t.Node?
    ensures r == Balance(UpdateHeight(t))
  {
    if Height(t.left) - Height(t.right) > 1 || Height(t.right) - Height(t.left) > 1 then Balance(t)
    else UpdateHeight(t)
  }

  /** `newNode`: a leaf of height 0. */
  function NewNode(k: int): (r: Tree)
    ensures Avl(r) && Keys(r) == {k} && Height(r) == 0
  {
    var leaf := Node(k, 0, Nil, Nil);
    assert Keys(leaf) == {} + {k} + {} == {k};
    assert Keys(Nil) == {} && Height(Nil) == -1;
    assert Ordered(leaf) && Bst(leaf);
    assert HeightsOk(Nil) && Balanced(Nil);
    assert leaf.height == Max(Height(leaf.left), Height(leaf.right)) + 1;
    assert HeightsOk(leaf);
    assert Balanced(leaf);
    leaf
  }

  /**
   * `insertNodeHelper`: the key inserted, or None when an equal key is present, and the tree
   * after the insertion and the rebalancing on the way back up.
   */
  function Insert(t: Tree, k: int, compare: (int, int) -> int): (r: (Option<int>, Tree))
    decreases t
  {
    if t.Nil? then (Some(k), NewNode(k))
    else if compare(t.key, k) < 0 then
      var ins := Insert(t.right, k, compare);
      (ins.0, BalanceThenUpdate(t.(right := ins.1)))
    else if compare(t.key, k) > 0 then
      var ins := Insert(t.left, k, compare);
      (ins.0, BalanceThenUpdate(t.(left := ins.1)))
    else (None, t)
  }

  /** Growing the right subtree of an AVL node by at most one level and rebalancing gives an AVL tree. */
  lemma GrowRight(t: Tree, r1: Tree)
    requires t.Node? && Avl(t) && Avl(r1) && Height(t.right) <= Height(r1) <= Height(t.right) + 1
    requires forall x :: x in Keys(r1) ==> t.key < x
    ensures var b := BalanceThenUpdate(t.(right := r1));
      && Avl(b) && Keys(b) == Keys(t.left) + {t.key} + Keys(r1) && Height(t) <= Height(b) <= Height(t) + 1
      && (r1 == t.right ==> b == t)
  {
    var u := t.(right := r1);
    assert Ordered(u);
    FixAvl(u);
  }

  lemma GrowLeft(t: Tree, l1: Tree)
    requires t.Node? && Avl(t) && Avl(l1) && Height(t.left) <= Height(l1) <= Height(t.left) + 1
    requires forall x :: x in Keys(l1) ==> x < t.key
    ensures var b := BalanceThenUpdate(t.(left := l1));
      && Avl(b) && Keys(b) == Keys(l1) + {t.key} + Keys(t.right) && Height(t) <= Height(b) <= Height(t) + 1
      && (l1 == t.left ==> b == t)
  {
    var u := t.(left := l1);
    assert Ordered(u);
    FixAvl(u);
  }

  /** What insertion promises: see `InsertOk`. */
  ghost predicate Inserted(t: Tree, k: int, r: (Option<int>, Tree)) {
    && (k in Keys(t) ==> r == (None, t))
    && (k !in Keys(t) ==> r.0 == Some(k) && Keys(r.1) == Keys(t) + {k})
    && Avl(r.1) && Height(t) <= Height(r.1) <= Height(t) + 1
  }

  lemma InsertRightStep(t: Tree, k: int, compare: (int, int) -> int)
    requires t.Node? && Avl(t) && Convention(compare) && compare(t.key, k) < 0
    requires Inserted(t.right, k, Insert(t.right, k, compare))
    ensures Inserted(t, k, Insert(t, k, compare))
  {
    var ins := Insert(t.right, k, compare);
    assert Insert(t, k, compare) == (ins.0, BalanceThenUpdate(t.(right := ins.1)));
    assert t.key < k && Ordered(t);
    assert k in Keys(t) <==> k in Keys(t.right);
    GrowRight(t, ins.1);
  }

  lemma InsertLeftStep(t: Tree, k: int, compare: (int, int) -> int)
    requires t.Node? && Avl(t) && Convention(compare) && compare(t.key, k) > 0
    requires Inserted(t.left, k, Insert(t.left, k, compare))
    ensures Inserted(t, k, Insert(t, k, compare))
  {
    var ins := Insert(t.left, k, compare);
    assert Insert(t, k, compare) == (ins.0, BalanceThenUpdate(t.(left := ins.1)));
    assert k < t.key && Ordered(t);
    assert k in Keys(t) <==> k in Keys(t.left);
    GrowLeft(t, ins.1);
  }

  /**
   * Insertion into an AVL tree: with an equal key present, None and the same tree; otherwise
   * the key, and an AVL tree with the key added, as tall as before or one taller.
   */
  lemma {:induction false} InsertOk(t: Tree, k: int, compare: (int, int) -> int)
    requires Avl(t) && Convention(compare)
    ensures var r := Insert(t, k, compare);
      && (k in Keys(t) ==> r == (None, t))
      && (k !in Keys(t) ==> r.0 == Some(k) && Keys(r.1) == Keys(t) + {k})
      && Avl(r.1) && Height(t) <= Height(r.1) <= Height(t) + 1
    decreases t
  {
    if t.Node? {
      if compare(t.key, k) < 0 {
        InsertOk(t.right, k, compare);
        InsertRightStep(t, k, compare);
      } else if compare(t.key, k) > 0 {
        InsertOk(t.left, k, compare);
        InsertLeftStep(t, k, compare);
      }
    }
  }

  /** `minNode`: the leftmost node. */
  function MinNode(t: Tree): (m: Tree)
    requires t.Node?
    ensures m.Node? && m.key in Keys(t)
    ensures Bst(t) ==> forall x :: x in Keys(t) ==> m.key <= x
  {
    if t.left.Nil? then t else MinNode(t.left)
  }

  /** `deleteMin`: the tree without its leftmost node, rebalanced on the way back up. */
  function DeleteMin(t: Tree): Tree
    requires t.Node?
  {
    if t.left.Nil? then t.right else Balance(UpdateHeight(t.(left := DeleteMin(t.left))))
  }

  /** What shrinking a subtree of an AVL tree by at most one level must keep. */
  ghost predicate Shrunk(t: Tree, t1: Tree) {
    Avl(t1) && Height(t) - 1 <= Height(t1) <= Height(t)
  }

  /** Shrinking the left subtree of an AVL node by at most one level and rebalancing gives an AVL tree. */
  lemma ShrinkLeft(t: Tree, l1: Tree)
    requires t.Node? && Avl(t) && Shrunk(t.left, l1) && forall x :: x in Keys(l1) ==> x < t.key
    ensures var b := Balance(UpdateHeight(t.(left := l1)));
      && Avl(b) && Keys(b) == Keys(l1) + {t.key} + Keys(t.right) && Shrunk(t, b)
      && (l1 == t.left ==> b == t)
  {
    var u := t.(left := l1);
    assert Ordered(u);
    FixAvl(u);
  }

  lemma ShrinkRight(t: Tree, r1: Tree)
    requires t.Node? && Avl(t) && Shrunk(t.right, r1) && forall x :: x in Keys(r1) ==> t.key < x
    ensures var b := Balance(UpdateHeight(t.(right := r1)));
      && Avl(b) && Keys(b) == Keys(t.left) + {t.key} + Keys(r1) && Shrunk(t, b)
      && (r1 == t.right ==> b == t)
  {
    var u := t.(right := r1);
    assert Ordered(u);
    FixAvl(u);
  }

  lemma OtherKeys(l: set<int>, x: int, r: set<int>, m: int)
    requires m != x && m !in r
    ensures (l - {m}) + {x} + r == (l + {x} + r) - {m}
  {
  }

  /** `deleteMin` on an AVL tree removes exactly the least key and keeps it AVL, at most one level lower. */
  lemma {:induction false} DeleteMinOk(t: Tree)
    requires t.Node? && Avl(t)
    ensures Shrunk(t, DeleteMin(t)) && Keys(DeleteMin(t)) == Keys(t) - {MinNode(t).key}
    decreases t
  {
    assert Bst(t.left) && Bst(t.right) && Ordered(t);
    if t.left.Nil? {
      assert t.key !in Keys(t.right);
    } else {
      DeleteMinOk(t.left);
      assert MinNode(t) == MinNode(t.left);
      assert MinNode(t).key != t.key && MinNode(t).key !in Keys(t.right);
      ShrinkLeft(t, DeleteMin(t.left));
      OtherKeys(Keys(t.left), t.key, Keys(t.right), MinNode(t).key);
    }
  }

  /**
   * `deleteNodeHelper`: the key of the node removed, or None when no key compares equal, and
   * the tree after the removal and the rebalancing on the way back up. A node with two children
   * is replaced by the least node of its right subtree.
   */
  function Delete(t: Tree, k: int, compare: (int, int) -> int): (r: (Option<int>, Tree))
    decreases t
  {
    if t.Nil? then (None, Nil)
    else if compare(t.key, k) > 0 then
      var d := Delete(t.left, k, compare);
      (d.0, Balance(UpdateHeight(t.(left := d.1))))
    else if compare(t.key, k) < 0 then
      var d := Delete(t.right, k, compare);
      (d.0, Balance(UpdateHeight(t.(right := d.1))))
    else if t.right.Nil? then (Some(t.key), UpdateHeight(t.left))
    else if t.left.Nil? then (Some(t.key), UpdateHeight(t.right))
    else
      var m := MinNode(t.right);
      (Some(t.key), Balance(UpdateHeight(Node(m.key, m.height, t.left, DeleteMin(t.right)))))
  }

  lemma SuccessorKeys(l: set<int>, x: int, r: set<int>, m: int)
    requires x !in l && x !in r && m in r
    ensures l + {m} + (r - {m}) == (l + {x} + r) - {x}
  {
  }

  /** The successor node over the left subtree and the right subtree without the successor is ordered. */
  lemma SuccessorOrdered(t: Tree, r1: Tree)
    requires t.Node? && t.right.Node? && Bst(t) && Keys(r1) == Keys(t.right) - {MinNode(t.right).key}
    ensures var m := MinNode(t.right); Ordered(Node(m.key, m.height, t.left, r1))
  {
    assert Bst(t.right) && Ordered(t);
  }

  /** Removing the root of an AVL tree with two children: its successor takes its place. */
  lemma DeleteTwoChildren(t: Tree)
    requires t.Node? && t.left.Node? && t.right.Node? && Avl(t)
    ensures var m := MinNode(t.right);
      var b := Balance(UpdateHeight(Node(m.key, m.height, t.left, DeleteMin(t.right))));
      Avl(b) && Keys(b) == Keys(t) - {t.key} && Shrunk(t, b)
  {
    assert Bst(t.left) && Bst(t.right) && Ordered(t);
    var m := MinNode(t.right);
    var r1 := DeleteMin(t.right);
    DeleteMinOk(t.right);
    SuccessorOrdered(t, r1);
    var n := Node(m.key, m.height, t.left, r1);
    FixAvl(n);
    assert t.key !in Keys(t.left) && t.key !in Keys(t.right);
    SuccessorKeys(Keys(t.left), t.key, Keys(t.right), m.key);
  }

  /** Removing the root of an AVL tree with at most one child: the child takes its place. */
  lemma DeleteOneChild(t: Tree)
    requires t.Node? && (t.left.Nil? || t.right.Nil?) && Avl(t)
    ensures var b := if t.right.Nil? then UpdateHeight(t.left) else UpdateHeight(t.right);
      Avl(b) && Keys(b) == Keys(t) - {t.key} && Shrunk(t, b)
  {
    assert Bst(t.left) && Bst(t.right) && Ordered(t);
    var c := if t.right.Nil? then t.left else t.right;
    assert Avl(c) && UpdateHeight(c) == c;
    assert Height(t) == Height(c) + 1;
    assert t.key !in Keys(c) && Keys(t) == Keys(c) + {t.key};
  }

  /** What deletion promises: see `DeleteOk`. */
  ghost predicate Deleted(t: Tree, k: int, r: (Option<int>, Tree)) {
    && (k !in Keys(t) ==> r == (None, t))
    && (k in Keys(t) ==> r.0 == Some(k) && Keys(r.1) == Keys(t) - {k})
    && Shrunk(t, r.1)
  }

  lemma DeleteLeftStep(t: Tree, k: int, compare: (int, int) -> int)
    requires t.Node? && Avl(t) && Convention(compare) && compare(t.key, k) > 0
    requires Deleted(t.left, k, Delete(t.left, k, compare))
    ensures Deleted(t, k, Delete(t, k, compare))
  {
    var d := Delete(t.left, k, compare);
    assert Delete(t, k, compare) == (d.0, Balance(UpdateHeight(t.(left := d.1))));
    assert k < t.key && Ordered(t);
    assert k in Keys(t) <==> k in Keys(t.left);
    ShrinkLeft(t, d.1);
  }

  lemma DeleteRightStep(t: Tree, k: int, compare: (int, int) -> int)
    requires t.Node? && Avl(t) && Convention(compare) && compare(t.key, k) < 0
    requires Deleted(t.right, k, Delete(t.right, k, compare))
    ensures Deleted(t, k, Delete(t, k, compare))
  {
    var d := Delete(t.right, k, compare);
    assert Delete(t, k, compare) == (d.0, Balance(UpdateHeight(t.(right := d.1))));
    assert t.key < k && Ordered(t);
    assert k in Keys(t) <==> k in Keys(t.right);
    ShrinkRight(t, d.1);
  }

  /**
   * Deletion from an AVL tree: with no equal key, None and the same tree; otherwise the key
   * removed, and an AVL tree with exactly that key gone, as tall as before or one lower.
   */
  lemma {:induction false} DeleteOk(t: Tree, k: int, compare: (int, int) -> int)
    requires Avl(t) && Convention(compare)
    ensures var r := Delete(t, k, compare);
      && (k !in Keys(t) ==> r == (None, t))
      && (k in Keys(t) ==> r.0 == Some(k) && Keys(r.1) == Keys(t) - {k})
      && Avl(r.1) && Height(t) - 1 <= Height(r.1) <= Height(t)
    decreases t
  {
    if t.Node? {
      if compare(t.key, k) > 0 {
        DeleteOk(t.left, k, compare);
        DeleteLeftStep(t, k, compare);
      } else if compare(t.key, k) < 0 {
        DeleteOk(t.right, k, compare);
        DeleteRightStep(t, k, compare);
      } else if t.left.Nil? || t.right.Nil? {
        DeleteOneChild(t);
      } else {
        DeleteTwoChildren(t);
      }
    }
  }

  /** `findNodeHelper`: walks down from `root` to the node whose key compares equal, or to NULL. */
  method FindNodeHelper(root: Tree, k: int, compare: (int, int) -> int) returns (cur: Tree)
    requires Bst(root) && Convention(compare)
    ensures cur.Nil? <==> k !in Keys(root)
    ensures cur.Node? ==> cur.key == k
  {
    cur := root;
    while cur.Node?
      invariant Bst(cur)
      invariant k in Keys(root) <==> k in Keys(cur)
      decreases cur
    {
      if compare(cur.key, k) < 0 {
        cur := cur.right;
      } else if compare(cur.key, k) > 0 {
        cur := cur.left;
      } else {
        break;
      }
    }
  }

  /** `AVLTree`: the root and the comparator; the destructor only serves `destroyTree`. */
  class AvlTree {
    var root: Tree
    const compare: (int, int) -> int

    ghost predicate Valid()
      reads this
    {
      Avl(root) && Convention(compare)
    }

    constructor (compare: (int, int) -> int)
      ensures root == Nil && this.compare == compare
      ensures Convention(compare) ==> Valid()
    {
      root := Nil;
      this.compare := compare;
    }

    /** `createTree`: NULL when the comparator or the destructor is missing, else an empty tree. */
    static method CreateTree(compare: Option<(int, int) -> int>, destroyGiven: bool) returns (t: AvlTree?)
      ensures t == null <==> compare.None? || !destroyGiven
      ensures t != null ==> fresh(t) && t.root == Nil && t.compare == compare.value
      ensures t != null && Convention(compare.value) ==> t.Valid()
    {
      if compare.None? || !destroyGiven {
        return null;
      }
      t := new AvlTree(compare.value);
    }

    /** `insertNode`: the key inserted, or None when an equal key is present and nothing changes. */
    method InsertNode(k: int) returns (inserted: Option<int>)
      requires Valid()
      modifies this
      ensures Valid() && (inserted, root) == Insert(old(root), k, compare)
      ensures k in Keys(old(root)) ==> inserted.None? && root == old(root)
      ensures k !in Keys(old(root)) ==> inserted == Some(k) && Keys(root) == Keys(old(root)) + {k}
    {
      InsertOk(root, k, compare);
      var r := Insert(root, k, compare);
      inserted, root := r.0, r.1;
    }

    /** `findNode`: the key that compares equal to `k`, or None; the tree is not modified. */
    method FindNode(k: int) returns (found: Option<int>)
      requires Valid()
      ensures found.Some? <==> k in Keys(root)
      ensures found.Some? ==> found.value == k
    {
      var node := FindNodeHelper(root, k, compare);
      found := if node.Node? then Some(node.key) else None;
    }

    /** `deleteNode`: the key removed, or None when no key compares equal and nothing changes. */
    method DeleteNode(k: int) returns (deleted: Option<int>)
      requires Valid()
      modifies this
      ensures Valid() && (deleted, root) == Delete(old(root), k, compare)
      ensures k !in Keys(old(root)) ==> deleted.None? && root == old(root)
      ensures k in Keys(old(root)) ==> deleted == Some(k) && Keys(root) == Keys(old(root)) - {k}
    {
      DeleteOk(root, k, compare);
      var r := Delete(root, k, compare);
      deleted, root := r.0, r.1;
    }
  }
}
