/** The AVL variant: rotations with balance factors, the two fix-up loops, insert
    and remove. */
module AvlTree {
  import opened Trees
  import opened SortedList
  import opened TreeStore
  import opened Rotations

  /** The balance factor of n is the difference l - r of two heights, within one. */
  predicate Level(n: Label, l: nat, r: nat) {
    n.mark == l - r && -1 <= n.mark <= 1
  }

  /** Every stored balance factor is height(left) - height(right), within one. */
  predicate Avl(t: Tree) {
    t.Node? ==> Level(t.n, Height(t.left), Height(t.right)) && Avl(t.left) && Avl(t.right)
  }

  /** The balance factors on the path c are right for a subtree of height h. */
  predicate Fits(c: Ctx, h: nat) {
    match c
    case Top => true
    case InLeft(n, r, up) => Level(n, h, Height(r)) && Avl(r) && Fits(up, 1 + Max(h, Height(r)))
    case InRight(n, l, up) => Level(n, Height(l), h) && Avl(l) && Fits(up, 1 + Max(Height(l), h))
  }

  lemma {:induction false} AvlThroughZipper(c: Ctx, t: Tree)
    ensures Avl(Plug(c, t)) <==> Avl(t) && Fits(c, Height(t))
    decreases c
  {
    match c
    case Top =>
    case InLeft(n, r, up) =>
      AvlThroughZipper(up, Node(n, t, r));
      assert Height(Node(n, t, r)) == 1 + Max(Height(t), Height(r));
    case InRight(n, l, up) =>
      AvlThroughZipper(up, Node(n, l, t));
      assert Height(Node(n, l, t)) == 1 + Max(Height(l), Height(t));
  }

  // ---- rotations ----

  /** t after pztree_avl_rotate_left at its right child. */
  function Left(t: Tree): Tree
    requires t.Node? && t.right.Node?
  {
    var r, m := t.right, t.right.n.mark + 1;
    Node(r.n.(mark := m), Node(t.n.(mark := -m), t.left, r.left), r.right)
  }

  function Right(t: Tree): Tree
    requires t.Node? && t.left.Node?
  {
    var l, m := t.left, t.left.n.mark - 1;
    Node(l.n.(mark := m), l.left, Node(t.n.(mark := -m), l.right, t.right))
  }

  /** The two nodes below the one that rises, given its old balance factor. */
  function LowLeft(m: int): int {
    if m == -1 then 1 else 0
  }

  function LowRight(m: int): int {
    if m == 1 then -1 else 0
  }

  function LeftRight(t: Tree): Tree
    requires t.Node? && t.left.Node? && t.left.right.Node?
  {
    var l, m := t.left, t.left.right;
    Node(m.n.(mark := 0), Node(l.n.(mark := LowLeft(m.n.mark)), l.left, m.left),
         Node(t.n.(mark := LowRight(m.n.mark)), m.right, t.right))
  }

  function RightLeft(t: Tree): Tree
    requires t.Node? && t.right.Node? && t.right.left.Node?
  {
    var r, m := t.right, t.right.left;
    Node(m.n.(mark := 0), Node(t.n.(mark := LowLeft(m.n.mark)), t.left, m.left),
         Node(r.n.(mark := LowRight(m.n.mark)), m.right, r.right))
  }

  /** Writes the three balance factors at the top of a subtree. */
  method SetThree(s: Store, p: Ptr, m: int, l: Ptr, ml: int, r: Ptr, mr: int, ghost c: Ctx, ghost t: Tree)
    requires s.At(c, t) && t.Node? && t.left.Node? && t.right.Node?
    requires p == t.n.id && l == t.left.n.id && r == t.right.n.id
    modifies s`cells
    ensures s.cells.Keys == old(s.cells.Keys)
    ensures Agree(old(s.cells), s.cells, s.loose)
    ensures s.At(c, Node(t.n.(mark := m), Remark(t.left, ml), Remark(t.right, mr)))
  {
    s.ZipLeft(c, t.n, t.left, t.right);
    s.SetMark(l, ml, InLeft(t.n, t.right, c), t.left);
    s.ZipLeft(c, t.n, Remark(t.left, ml), t.right);
    s.ZipRight(c, t.n, Remark(t.left, ml), t.right);
    s.SetMark(r, mr, InRight(t.n, Remark(t.left, ml), c), t.right);
    s.ZipRight(c, t.n, Remark(t.left, ml), Remark(t.right, mr));
    s.SetMark(p, m, c, Node(t.n, Remark(t.left, ml), Remark(t.right, mr)));
  }

  method RewireLeft(s: Store, node: Ptr, ghost c: Ctx, ghost t: Tree)
    requires RotlReady(s.cells, c, t) && node == t.right.n.id
    modifies s`cells, s`root
    ensures RotlCase(old(s.cells), s.cells, c, t)
    ensures s.root == if c.Top? then node else old(s.root)
  {
    var top := s.cells[node].parent;
    s.cells := WithRight(s.cells, top, s.cells[node].left);
    if s.cells[node].left != NULL {
      s.cells := WithParent(s.cells, s.cells[node].left, top);
    }
    s.cells := WithLeft(s.cells, node, top);
    s.cells := WithParent(s.cells, node, s.cells[s.cells[node].left].parent);
    s.cells := WithParent(s.cells, s.cells[node].left, node);
    var above := s.cells[node].parent;
    if above != NULL {
      if s.cells[above].left == s.cells[node].left {
        s.cells := WithLeft(s.cells, above, node);
      } else {
        s.cells := WithRight(s.cells, above, node);
      }
    } else {
      s.root := node;
    }
  }

  method RotateLeft(s: Store, node: Ptr, ghost c: Ctx, ghost t: Tree)
    requires s.linked && s.At(c, t) && t.Node? && t.right.Node? && node == t.right.n.id
    modifies s`cells, s`root
    ensures s.cells.Keys == old(s.cells.Keys)
    ensures s.At(c, Left(t)) && Agree(old(s.cells), s.cells, s.loose)
  {
    ghost var h, root := s.cells, s.root;
    RotlCells(h, root, s.loose, c, t);
    RewireLeft(s, node, c, t);
    RotlHeap(h, root, s.cells, s.root, s.loose, c, t);
    LeftMarks(s, node, c, Rotl(t));
  }

  method LeftMarks(s: Store, node: Ptr, ghost c: Ctx, ghost t: Tree)
    requires s.At(c, t) && t.Node? && t.left.Node? && node == t.n.id
    modifies s`cells
    ensures s.cells.Keys == old(s.cells.Keys)
    ensures Agree(old(s.cells), s.cells, s.loose)
    ensures var m := t.n.mark + 1;
      s.At(c, Node(t.n.(mark := m), Remark(t.left, -m), t.right))
  {
    s.SetMark(node, s.cells[node].mark + 1, c, t);
    ghost var u := Remark(t, t.n.mark + 1);
    s.ZipLeft(c, u.n, u.left, u.right);
    s.SetMark(s.cells[node].left, -s.cells[node].mark, InLeft(u.n, u.right, c), u.left);
    s.ZipLeft(c, u.n, Remark(u.left, -u.n.mark), u.right);
  }

  method RewireRight(s: Store, node: Ptr, ghost c: Ctx, ghost t: Tree)
    requires RotrReady(s.cells, c, t) && node == t.left.n.id
    modifies s`cells, s`root
    ensures RotrCase(old(s.cells), s.cells, c, t)
    ensures s.root == if c.Top? then node else old(s.root)
  {
    var top := s.cells[node].parent;
    s.cells := WithLeft(s.cells, top, s.cells[node].right);
    if s.cells[node].right != NULL {
      s.cells := WithParent(s.cells, s.cells[node].right, top);
    }
    s.cells := WithRight(s.cells, node, top);
    s.cells := WithParent(s.cells, node, s.cells[s.cells[node].right].parent);
    s.cells := WithParent(s.cells, s.cells[node].right, node);
    var above := s.cells[node].parent;
    if above != NULL {
      if s.cells[above].left == s.cells[node].right {
        s.cells := WithLeft(s.cells, above, node);
      } else {
        s.cells := WithRight(s.cells, above, node);
      }
    } else {
      s.root := node;
    }
  }

  method RotateRight(s: Store, node: Ptr, ghost c: Ctx, ghost t: Tree)
    requires s.linked && s.At(c, t) && t.Node? && t.left.Node? && node == t.left.n.id
    modifies s`cells, s`root
    ensures s.cells.Keys == old(s.cells.Keys)
    ensures s.At(c, Right(t)) && Agree(old(s.cells), s.cells, s.loose)
  {
    ghost var h, root := s.cells, s.root;
    RotrCells(h, root, s.loose, c, t);
    RewireRight(s, node, c, t);
    RotrHeap(h, root, s.cells, s.root, s.loose, c, t);
    RightMarks(s, node, c, Rotr(t));
  }

  method RightMarks(s: Store, node: Ptr, ghost c: Ctx, ghost t: Tree)
    requires s.At(c, t) && t.Node? && t.right.Node? && node == t.n.id
    modifies s`cells
    ensures s.cells.Keys == old(s.cells.Keys)
    ensures Agree(old(s.cells), s.cells, s.loose)
    ensures var m := t.n.mark - 1;
      s.At(c, Node(t.n.(mark := m), t.left, Remark(t.right, -m)))
  {
    s.SetMark(node, s.cells[node].mark - 1, c, t);
    ghost var u := Remark(t, t.n.mark - 1);
    s.ZipRight(c, u.n, u.left, u.right);
    s.SetMark(s.cells[node].right, -s.cells[node].mark, InRight(u.n, u.left, c), u.right);
    s.ZipRight(c, u.n, u.left, Remark(u.right, -u.n.mark));
  }

  /** Balance factors after a double rotation, from that of the node that rose. */
  method SpreadMarks(s: Store, tmp: Ptr, ghost c: Ctx, ghost t: Tree)
    requires s.At(c, t) && t.Node? && t.left.Node? && t.right.Node? && tmp == t.n.id
    modifies s`cells
    ensures s.cells.Keys == old(s.cells.Keys)
    ensures Agree(old(s.cells), s.cells, s.loose)
    ensures s.At(c, Node(t.n.(mark := 0), Remark(t.left, LowLeft(t.n.mark)), Remark(t.right, LowRight(t.n.mark))))
  {
    var l, r := s.cells[tmp].left, s.cells[tmp].right;
    if s.cells[tmp].mark == 1 {
      SetThree(s, tmp, 0, l, 0, r, -1, c, t);
    } else if s.cells[tmp].mark == -1 {
      SetThree(s, tmp, 0, l, 1, r, 0, c, t);
    } else {
      SetThree(s, tmp, 0, l, 0, r, 0, c, t);
    }
  }

  /** First half: the grandchild is hung in place of the top node. */
  method RaiseLeftRight(s: Store, node: Ptr, tmp: Ptr, ghost c: Ctx, ghost t: Tree)
    requires RotlrReady(s.cells, c, t) && node == t.left.n.id && tmp == t.left.right.n.id
    modifies s`cells, s`root
    ensures var h, g, i := old(s.cells), s.cells, Root(t.left.right.left);
      && g.Keys == h.Keys
      && g[node] == h[node].(right := i) && g[tmp] == h[tmp].(parent := Up(c))
      && (i != NULL ==> g[i] == h[i].(parent := node))
      && (!c.Top? ==> g[Up(c)] == Redirect(c, h[Up(c)], tmp))
      && forall p | p in h && p !in {node, tmp, i, Up(c)} :: g[p] == h[p]
    ensures s.root == if c.Top? then tmp else old(s.root)
  {
    s.cells := WithRight(s.cells, node, s.cells[tmp].left);
    if s.cells[node].right != NULL {
      s.cells := WithParent(s.cells, s.cells[node].right, node);
    }
    var top := s.cells[node].parent;
    s.cells := WithParent(s.cells, tmp, s.cells[top].parent);
    var above := s.cells[tmp].parent;
    if above != NULL {
      if s.cells[above].left == top {
        s.cells := WithLeft(s.cells, above, tmp);
      } else {
        s.cells := WithRight(s.cells, above, tmp);
      }
    } else {
      s.root := tmp;
    }
  }

  /** Second half: both old nodes go under the grandchild. */
  method LowerLeftRight(s: Store, node: Ptr, tmp: Ptr)
    requires {node, tmp} <= s.cells.Keys && s.cells[node].parent in s.cells
    requires node != tmp && s.cells[node].parent !in {node, tmp}
    requires var j := s.cells[tmp].right; j != NULL ==> j in s.cells && j !in {node, tmp, s.cells[node].parent}
    modifies s`cells
    ensures var h, g := old(s.cells), s.cells;
      var top, j := h[node].parent, h[tmp].right;
      && g.Keys == h.Keys
      && g[top] == h[top].(left := j, parent := tmp) && g[node] == h[node].(parent := tmp)
      && g[tmp] == h[tmp].(left := node, right := top)
      && (j != NULL ==> g[j] == h[j].(parent := top))
      && forall p | p in h && p !in {node, tmp, top, j} :: g[p] == h[p]
  {
    var top := s.cells[node].parent;
    s.cells := WithLeft(s.cells, top, s.cells[tmp].right);
    if s.cells[top].left != NULL {
      s.cells := WithParent(s.cells, s.cells[top].left, top);
    }
    s.cells := WithRight(s.cells, tmp, top);
    s.cells := WithParent(s.cells, s.cells[tmp].right, tmp);
    s.cells := WithLeft(s.cells, tmp, node);
    s.cells := WithParent(s.cells, node, tmp);
  }

  method RewireLeftRight(s: Store, node: Ptr, ghost c: Ctx, ghost t: Tree)
    requires RotlrReady(s.cells, c, t) && node == t.left.n.id
    modifies s`cells, s`root
    ensures RotlrCase(old(s.cells), s.cells, c, t)
    ensures s.root == if c.Top? then t.left.right.n.id else old(s.root)
  {
    var tmp := s.cells[node].right;
    RaiseLeftRight(s, node, tmp, c, t);
    LowerLeftRight(s, node, tmp);
  }

  method RotateLeftRight(s: Store, node: Ptr, ghost c: Ctx, ghost t: Tree)
    requires s.linked && s.At(c, t) && t.Node? && t.left.Node? && t.left.right.Node? && node == t.left.n.id
    modifies s`cells, s`root
    ensures s.cells.Keys == old(s.cells.Keys)
    ensures s.At(c, LeftRight(t)) && Agree(old(s.cells), s.cells, s.loose)
  {
    ghost var h, root := s.cells, s.root;
    RotlrCells(h, root, s.loose, c, t);
    var tmp := s.cells[node].right;
    RewireLeftRight(s, node, c, t);
    RotlrHeap(h, root, s.cells, s.root, s.loose, c, t);
    SpreadMarks(s, tmp, c, Rotlr(t));
  }

  /** First half: the grandchild is hung in place of the top node. */
  method RaiseRightLeft(s: Store, node: Ptr, tmp: Ptr, ghost c: Ctx, ghost t: Tree)
    requires RotrlReady(s.cells, c, t) && node == t.right.n.id && tmp == t.right.left.n.id
    modifies s`cells, s`root
    ensures var h, g, i := old(s.cells), s.cells, Root(t.right.left.right);
      && g.Keys == h.Keys
      && g[node] == h[node].(left := i) && g[tmp] == h[tmp].(parent := Up(c))
      && (i != NULL ==> g[i] == h[i].(parent := node))
      && (!c.Top? ==> g[Up(c)] == Redirect(c, h[Up(c)], tmp))
      && forall p | p in h && p !in {node, tmp, i, Up(c)} :: g[p] == h[p]
    ensures s.root == if c.Top? then tmp else old(s.root)
  {
    s.cells := WithLeft(s.cells, node, s.cells[tmp].right);
    if s.cells[node].left != NULL {
      s.cells := WithParent(s.cells, s.cells[node].left, node);
    }
    var top := s.cells[node].parent;
    s.cells := WithParent(s.cells, tmp, s.cells[top].parent);
    var above := s.cells[tmp].parent;
    if above != NULL {
      if s.cells[above].left == top {
        s.cells := WithLeft(s.cells, above, tmp);
      } else {
        s.cells := WithRight(s.cells, above, tmp);
      }
    } else {
      s.root := tmp;
    }
  }

  /** Second half: both old nodes go under the grandchild. */
  method LowerRightLeft(s: Store, node: Ptr, tmp: Ptr)
    requires {node, tmp} <= s.cells.Keys && s.cells[node].parent in s.cells
    requires node != tmp && s.cells[node].parent !in {node, tmp}
    requires var j := s.cells[tmp].left; j != NULL ==> j in s.cells && j !in {node, tmp, s.cells[node].parent}
    modifies s`cells
    ensures var h, g := old(s.cells), s.cells;
      var top, j := h[node].parent, h[tmp].left;
      && g.Keys == h.Keys
      && g[top] == h[top].(right := j, parent := tmp) && g[node] == h[node].(parent := tmp)
      && g[tmp] == h[tmp].(right := node, left := top)
      && (j != NULL ==> g[j] == h[j].(parent := top))
      && forall p | p in h && p !in {node, tmp, top, j} :: g[p] == h[p]
  {
    var top := s.cells[node].parent;
    s.cells := WithRight(s.cells, top, s.cells[tmp].left);
    if s.cells[top].right != NULL {
      s.cells := WithParent(s.cells, s.cells[top].right, top);
    }
    s.cells := WithLeft(s.cells, tmp, top);
    s.cells := WithParent(s.cells, s.cells[tmp].left, tmp);
    s.cells := WithRight(s.cells, tmp, node);
    s.cells := WithParent(s.cells, node, tmp);
  }

  method RewireRightLeft(s: Store, node: Ptr, ghost c: Ctx, ghost t: Tree)
    requires RotrlReady(s.cells, c, t) && node == t.right.n.id
    modifies s`cells, s`root
    ensures RotrlCase(old(s.cells), s.cells, c, t)
    ensures s.root == if c.Top? then t.right.left.n.id else old(s.root)
  {
    var tmp := s.cells[node].left;
    RaiseRightLeft(s, node, tmp, c, t);
    LowerRightLeft(s, node, tmp);
  }

  method RotateRightLeft(s: Store, node: Ptr, ghost c: Ctx, ghost t: Tree)
    requires s.linked && s.At(c, t) && t.Node? && t.right.Node? && t.right.left.Node? && node == t.right.n.id
    modifies s`cells, s`root
    ensures s.cells.Keys == old(s.cells.Keys)
    ensures s.At(c, RightLeft(t)) && Agree(old(s.cells), s.cells, s.loose)
  {
    ghost var h, root := s.cells, s.root;
    RotrlCells(h, root, s.loose, c, t);
    var tmp := s.cells[node].left;
    RewireRightLeft(s, node, c, t);
    RotrlHeap(h, root, s.cells, s.root, s.loose, c, t);
    SpreadMarks(s, tmp, c, Rotrl(t));
  }

  // ---- insert ----

  /** The subtree t has grown by one above what the path c was balanced for. */
  ghost predicate Grown(c: Ctx, t: Tree) {
    t.Node? && Avl(t) && Fits(c, Height(t) - 1) && (t.n.mark != 0 || Height(t) == 1)
  }

  /** +1 for a left child, -1 for a right one: the sign of leaning towards it. */
  function Side(c: Ctx): int {
    if c.InLeft? then 1 else -1
  }

  /** The parent's subtree after the rotation of case 1 or 2. */
  ghost function Rebalanced(c: Ctx, t: Tree): Tree
    requires Grown(c, t) && !c.Top? && c.n.mark == Side(c)
  {
    var p := Over(c, t);
    InnerChild(c, t);
    if c.InLeft? then if t.n.mark == -1 then LeftRight(p) else Right(p)
    else if t.n.mark == 1 then RightLeft(p) else Left(p)
  }

  lemma {:induction false} InnerChild(c: Ctx, t: Tree)
    requires Grown(c, t)
    ensures t.n.mark == -1 ==> t.right.Node?
    ensures t.n.mark == 1 ==> t.left.Node?
  {
  }

  lemma {:induction false} RebalancedFits(c: Ctx, t: Tree)
    requires Grown(c, t) && !c.Top? && c.n.mark == Side(c)
    ensures Avl(Rebalanced(c, t)) && Fits(c.up, Height(Rebalanced(c, t)))
  {
    InnerChild(c, t);
    var h := Height(t);
    assert Height(Other(c)) == h - 2;
    assert Fits(c.up, h);
    if t.n.mark == -Side(c) {
      DoubleLevels(c, t);
    } else {
      SingleLevels(c, t);
    }
  }

  lemma {:induction false} SingleLevels(c: Ctx, t: Tree)
    requires Grown(c, t) && !c.Top? && c.n.mark == Side(c) && t.n.mark != -Side(c)
    requires Height(Other(c)) == Height(t) - 2
    ensures Avl(Rebalanced(c, t)) && Height(Rebalanced(c, t)) == Height(t)
  {
    assert t.n.mark == Side(c);
    var u := Rebalanced(c, t);
    var low := if c.InLeft? then u.right else u.left;
    assert Avl(low) && Height(low) == Height(t) - 1;
  }

  lemma {:induction false} DoubleLevels(c: Ctx, t: Tree)
    requires Grown(c, t) && !c.Top? && c.n.mark == Side(c) && t.n.mark == -Side(c)
    requires Height(Other(c)) == Height(t) - 2
    ensures Avl(Rebalanced(c, t)) && Height(Rebalanced(c, t)) == Height(t)
  {
    InnerChild(c, t);
    var m := if c.InLeft? then t.right else t.left;
    assert Avl(m) && Height(m) == Height(t) - 1;
    var u := Rebalanced(c, t);
    assert Avl(u.left) && Height(u.left) == Height(t) - 1;
    assert Avl(u.right) && Height(u.right) == Height(t) - 1;
  }

  lemma {:induction false} RebalancedInorder(c: Ctx, t: Tree)
    requires Grown(c, t) && !c.Top? && c.n.mark == Side(c)
    ensures Inorder(Plug(c.up, Rebalanced(c, t))) == Inorder(Plug(c, t))
  {
    InnerChild(c, t);
    var p, up := Over(c, t), c.up;
    assert Plug(c, t) == Plug(up, p);
    if c.InLeft? {
      if t.n.mark == -1 {
        RotlrInorder(up, p);
        DoubleReads(LeftRight(p), Rotlr(p));
        PlugSame(up, LeftRight(p), Rotlr(p));
      } else {
        RotrInorder(up, p);
        assert Inorder(Right(p).right) == Inorder(Rotr(p).right);
        PlugSame(up, Right(p), Rotr(p));
      }
    } else {
      if t.n.mark == 1 {
        RotrlInorder(up, p);
        DoubleReads(RightLeft(p), Rotrl(p));
        PlugSame(up, RightLeft(p), Rotrl(p));
      } else {
        RotlInorder(up, p);
        assert Inorder(Left(p).left) == Inorder(Rotl(p).left);
        PlugSame(up, Left(p), Rotl(p));
      }
    }
  }

  /** t and u differ at most in the mark of the root. */
  predicate SameBelow(t: Tree, u: Tree) {
    t.Node? && u.Node? && PairOf(t.n) == PairOf(u.n) && t.left == u.left && t.right == u.right
  }

  lemma {:induction false} DoubleReads(t: Tree, u: Tree)
    requires t.Node? && u.Node? && PairOf(t.n) == PairOf(u.n)
    requires SameBelow(t.left, u.left) && SameBelow(t.right, u.right)
    ensures Inorder(t) == Inorder(u)
  {
    assert Inorder(u.left) == Inorder(t.left);
    assert Inorder(u.right) == Inorder(t.right);
  }

  /** Cases 1 and 2, in place: the node rises over its parent. */
  method RotateIn(s: Store, node: Ptr, left: bool, ghost c: Ctx, ghost t: Tree)
    requires s.linked && s.At(c, t) && Grown(c, t) && node == t.n.id
    requires !c.Top? && c.n.mark == Side(c) && (left <==> c.InLeft?)
    modifies s`cells, s`root
    ensures s.At(c.up, Rebalanced(c, t))
  {
    InnerChild(c, t);
    s.ZipUp(c, t);
    if left {
      if s.cells[node].mark == -1 {
        RotateLeftRight(s, node, c.up, Over(c, t));
      } else {
        RotateRight(s, node, c.up, Over(c, t));
      }
    } else {
      if s.cells[node].mark == 1 {
        RotateRightLeft(s, node, c.up, Over(c, t));
      } else {
        RotateLeft(s, node, c.up, Over(c, t));
      }
    }
  }

  /** Case 3: the parent leaned the other way and is level now. */
  lemma {:induction false} LeveledFits(c: Ctx, t: Tree)
    requires Grown(c, t) && !c.Top? && c.n.mark == -Side(c)
    ensures Fits(Repaint(c, 0), Height(t))
  {
  }

  /** Case 4: the parent was level and leans now, one higher than before. */
  lemma {:induction false} LeaningGrows(c: Ctx, t: Tree)
    requires Grown(c, t) && !c.Top? && c.n.mark == 0
    ensures Grown(c.up, Over(Repaint(c, Side(c)), t))
  {
  }

  lemma {:induction false} RepaintReads(c: Ctx, m: int, t: Tree)
    requires !c.Top?
    ensures Inorder(Plug(Repaint(c, m), t)) == Inorder(Plug(c, t))
  {
    PlugInorder(c, t);
    PlugInorder(Repaint(c, m), t);
  }

  /** The fix-up after insert: it ends with an AVL tree that reads the same. */
  method BalanceInsert(s: Store, node0: Ptr, ghost c0: Ctx, ghost t0: Tree) returns (ghost t': Tree)
    requires s.linked && s.At(c0, t0) && Grown(c0, t0) && node0 == t0.n.id
    modifies s`cells, s`root
    ensures s.At(Top, t') && Avl(t') && Inorder(t') == Inorder(Plug(c0, t0))
  {
    var node := node0;
    ghost var c, t := c0, t0;
    while true
      invariant s.At(c, t) && Grown(c, t) && node == t.n.id
      invariant Inorder(Plug(c, t)) == Inorder(Plug(c0, t0))
      decreases c
    {
      HoleSide(s.cells, s.root, true, s.loose, c, t);
      var parent := s.cells[node].parent;
      if parent == NULL {
        t' := t;
        return;
      }
      ParentMark(s.cells, s.root, s.loose, c, t);
      var left := s.cells[parent].left == node;
      var side := if left then 1 else -1;
      if s.cells[parent].mark == side {
        RebalancedFits(c, t);
        RebalancedInorder(c, t);
        RotateIn(s, node, left, c, t);
        c, t := c.up, Rebalanced(c, t);
        break;
      } else if s.cells[parent].mark == -side {
        LeveledFits(c, t);
        RepaintReads(c, 0, t);
        s.MarkParent(parent, 0, c, t);
        c := Repaint(c, 0);
        break;
      }
      LeaningGrows(c, t);
      RepaintReads(c, side, t);
      s.MarkParent(parent, side, c, t);
      s.ZipUp(Repaint(c, side), t);
      c, t := c.up, Over(Repaint(c, side), t);
      node := parent;
    }
    AvlThroughZipper(c, t);
    s.ZipTop(c, t);
    t' := Plug(c, t);
  }

  lemma {:induction false} ParentMark(h: Heap, root: Ptr, loose: set<Ptr>, c: Ctx, t: Tree)
    requires Holds(h, root, true, loose, c, t) && t.Node? && !c.Top?
    ensures c.n.id in h && h[c.n.id].mark == c.n.mark
  {
  }

  // ---- remove ----

  /** The subtree lt is one lower than what the path c is balanced for. */
  ghost predicate Shrunk(c: Ctx, lt: Tree) {
    Avl(lt) && Fits(c, Height(lt) + 1)
  }

  /** The path after a single rotation of the sibling over the parent. */
  function Single(c: Ctx): Ctx
    requires !c.Top? && Other(c).Node?
  {
    var l, m := Lift(c), Other(c).n.mark + Side(c);
    if c.InLeft? then InLeft(l.n.(mark := -m), l.right, InLeft(l.up.n.(mark := m), l.up.right, c.up))
    else InRight(l.n.(mark := -m), l.left, InRight(l.up.n.(mark := m), l.up.left, c.up))
  }

  /** The path after a double rotation: the near nephew is on top. */
  function Double(c: Ctx): Ctx
    requires !c.Top? && Other(c).Node? && Near(c).Node?
  {
    var l, m := Lift(Turn(c)), Near(c).n.mark;
    if c.InLeft? then
      InLeft(l.n.(mark := LowLeft(m)), l.right,
             InLeft(l.up.n.(mark := 0), Remark(l.up.right, LowRight(m)), c.up))
    else
      InRight(l.n.(mark := LowRight(m)), l.left,
              InRight(l.up.n.(mark := 0), Remark(l.up.left, LowLeft(m)), c.up))
  }

  lemma {:induction false} SingleSides(c: Ctx)
    requires !c.Top? && Other(c).Node?
    ensures SameSides(c, Single(c))
  {
    LiftSides(c);
  }

  lemma {:induction false} DoubleSides(c: Ctx)
    requires !c.Top? && Other(c).Node? && Near(c).Node?
    ensures SameSides(c, Double(c))
  {
    TurnSides(c);
    LiftSides(Turn(c));
    var l, d := Lift(Turn(c)), Double(c);
    assert Inorder(Other(l.up)) == Inorder(Other(d.up));
    assert SameSides(l.up, d.up);
  }

  lemma {:induction false} NephewExists(c: Ctx, lt: Tree)
    requires Shrunk(c, lt) && !c.Top? && c.n.mark == -Side(c)
    ensures Other(c).Node? && Avl(Other(c)) && Height(Other(c)) == Height(lt) + 2
    ensures Other(c).n.mark == Side(c) ==> Near(c).Node?
    ensures Avl(Near(c)) && Avl(Far(c))
    ensures Other(c).n.mark * Side(c) == Height(Near(c)) - Height(Far(c))
    ensures Fits(c.up, Height(lt) + 3)
  {
  }

  lemma {:induction false} LevelNephews(c: Ctx, lt: Tree)
    requires Shrunk(c, lt) && !c.Top? && c.n.mark == -Side(c) && Other(c).Node? && Other(c).n.mark == 0
    ensures Height(Near(c)) == Height(Far(c)) == Height(lt) + 1
  {
    hide Avl, Fits;
    NephewExists(c, lt);
  }

  lemma {:induction false} LevelTops(c: Ctx, h: nat)
    requires !c.Top? && Other(c).Node? && Other(c).n.mark == 0 && Fits(c.up, h + 3)
    requires Height(Near(c)) == Height(Far(c)) == h + 1 && Avl(Near(c)) && Avl(Far(c))
    ensures Fits(Single(c).up, h + 2) && Other(Single(c)) == Near(c)
  {
    hide Avl, Height;
  }

  /** Case 2 with a level sibling: the height is as before, the fix-up ends. */
  lemma {:induction false} SingleLevelFits(c: Ctx, lt: Tree)
    requires Shrunk(c, lt) && !c.Top? && c.n.mark == -Side(c) && Other(c).Node? && Other(c).n.mark == 0
    ensures Fits(Single(c), Height(lt))
  {
    hide Avl, Height;
    NephewExists(c, lt);
    LevelNephews(c, lt);
    LevelTops(c, Height(lt));
  }

  /** The subtree two levels above the hole is one lower than before. */
  ghost predicate ShrunkAbove(c: Ctx, lt: Tree) {
    !c.Top? && !c.up.Top? && Shrunk(c.up.up, Over(c.up, Over(c, lt)))
  }

  lemma {:induction false} SingleShrinks(c: Ctx, lt: Tree)
    requires Shrunk(c, lt) && !c.Top? && c.n.mark == -Side(c) && Other(c).Node? && Other(c).n.mark == -Side(c)
    ensures ShrunkAbove(Single(c), lt)
  {
    NephewExists(c, lt);
    var p := Over(Single(c), lt);
    assert Avl(p) && Height(p) == Height(lt) + 1;
    var q := Over(Single(c).up, p);
    assert Avl(q) && Height(q) == Height(lt) + 2;
  }

  /** The two subtrees that a double rotation leaves under the near nephew. */
  lemma {:induction false} DoubleHalves(c: Ctx, lt: Tree)
    requires Shrunk(c, lt) && !c.Top? && c.n.mark == -Side(c)
    requires Other(c).Node? && Other(c).n.mark == Side(c) && Near(c).Node?
    ensures var p, o := Over(Double(c), lt), Other(Double(c).up);
      Avl(p) && Height(p) == Height(lt) + 1 && Avl(o) && Height(o) == Height(lt) + 1
  {
    hide Fits;
    NephewExists(c, lt);
    var m, h := Near(c), Height(lt);
    assert Height(m) == h + 1 && Avl(m.left) && Avl(m.right);
  }

  lemma {:induction false} DoubleShrinks(c: Ctx, lt: Tree)
    requires Shrunk(c, lt) && !c.Top? && c.n.mark == -Side(c)
    requires Other(c).Node? && Other(c).n.mark == Side(c) && Near(c).Node?
    ensures ShrunkAbove(Double(c), lt)
  {
    NephewExists(c, lt);
    DoubleHalves(c, lt);
    DoubleTop(Double(c).up, Over(Double(c), lt), Height(lt) + 1);
  }

  lemma {:induction false} DoubleTop(c: Ctx, p: Tree, h: nat)
    requires !c.Top? && c.n.mark == 0 && Avl(p) && Avl(Other(c)) && Height(p) == Height(Other(c)) == h
    ensures Avl(Over(c, p)) && Height(Over(c, p)) == h + 1
  {
  }

  /** Case 3: the parent was level and leans away from the hole now. */
  lemma {:induction false} LeansAwayFits(c: Ctx, lt: Tree)
    requires Shrunk(c, lt) && !c.Top? && c.n.mark == 0
    ensures Fits(Repaint(c, -Side(c)), Height(lt))
  {
  }

  /** Case 4: the parent leaned towards the hole, is level now and one lower. */
  lemma {:induction false} LevelShrinks(c: Ctx, lt: Tree)
    requires Shrunk(c, lt) && !c.Top? && c.n.mark == Side(c)
    ensures Shrunk(c.up, Over(Repaint(c, 0), lt))
  {
  }

  method RotateSibling(s: Store, sibling: Ptr, left: bool, ghost c: Ctx, ghost f: Tree) returns (ghost c': Ctx)
    requires s.linked && s.At(c, f) && !c.Top? && Other(c).Node? && sibling == Other(c).n.id
    requires (left <==> c.InLeft?) && (Other(c).n.mark == Side(c) ==> Near(c).Node?)
    modifies s`cells, s`root
    ensures s.cells.Keys == old(s.cells.Keys)
    ensures Agree(old(s.cells), s.cells, s.loose)
    ensures s.At(c', f) && SameSides(c, c') && !c'.Top? && !c'.up.Top?
    ensures c' == if Other(c).n.mark == Side(c) then Double(c) else Single(c)
  {
    hide Inorder, Separate, Avl, Height;
    s.ZipUp(c, f);
    ghost var up, p := c.up, Over(c, f);
    if left {
      if s.cells[sibling].mark == 1 {
        RotateRightLeft(s, sibling, up, p);
      } else {
        RotateLeft(s, sibling, up, p);
      }
    } else {
      if s.cells[sibling].mark == -1 {
        RotateLeftRight(s, sibling, up, p);
      } else {
        RotateRight(s, sibling, up, p);
      }
    }
    if Other(c).n.mark == Side(c) {
      DoubleSides(c);
      c' := Double(c);
    } else {
      SingleSides(c);
      c' := Single(c);
    }
    s.ZipUp(c', f);
    s.ZipUp(c'.up, Over(c', f));
  }

  /** One round of the loop below the root. `climb` is how many levels above the
      node the shortage is now: none when the fix-up ends. */
  method BalanceRemoveRound(s: Store, node: Ptr, ghost c: Ctx, ghost f: Tree, ghost lt: Tree)
    returns (next: Ptr, climb: nat, ghost c': Ctx)
    requires s.linked && s.At(c, f) && f.Node? && node == f.n.id && !c.Top? && Shrunk(c, lt)
    modifies s`cells, s`root
    ensures s.cells.Keys == old(s.cells.Keys)
    ensures Agree(old(s.cells), s.cells, s.loose)
    ensures s.At(c', f) && SameSides(c, c') && climb <= 2
    ensures climb == 0 ==> Fits(c', Height(lt))
    ensures climb == 1 ==> !c'.Top? && next == c'.n.id && c'.up == c.up && Shrunk(c'.up, Over(c', lt))
    ensures climb == 2 ==> ShrunkAbove(c', lt) && next == c'.up.n.id && c'.up.up == c.up
  {
    HoleSide(s.cells, s.root, true, s.loose, c, f);
    ParentMark(s.cells, s.root, s.loose, c, f);
    var parent := s.cells[node].parent;
    var left := s.cells[parent].left == node;
    var side := if left then 1 else -1;
    if s.cells[parent].mark == -side {
      next, climb, c' := RotateOver(s, parent, left, c, f, lt);
    } else if s.cells[parent].mark == 0 {
      LeansAwayFits(c, lt);
      s.MarkParent(parent, -side, c, f);
      next, climb, c' := parent, 0, Repaint(c, -side);
    } else {
      LevelShrinks(c, lt);
      s.MarkParent(parent, 0, c, f);
      next, climb, c' := parent, 1, Repaint(c, 0);
    }
  }

  method RotateOver(s: Store, parent: Ptr, left: bool, ghost c: Ctx, ghost f: Tree, ghost lt: Tree)
    returns (next: Ptr, climb: nat, ghost c': Ctx)
    requires s.linked && s.At(c, f) && f.Node? && !c.Top? && parent == c.n.id && Shrunk(c, lt)
    requires c.n.mark == -Side(c) && (left <==> c.InLeft?)
    modifies s`cells, s`root
    ensures s.cells.Keys == old(s.cells.Keys)
    ensures Agree(old(s.cells), s.cells, s.loose)
    ensures s.At(c', f) && SameSides(c, c') && (climb == 0 || climb == 2)
    ensures climb == 0 ==> Fits(c', Height(lt))
    ensures climb == 2 ==> ShrunkAbove(c', lt) && next == c'.up.n.id && c'.up.up == c.up
  {
    NephewExists(c, lt);
    HoleSide(s.cells, s.root, true, s.loose, c, f);
    SiblingCells(s.cells, s.root, true, s.loose, c, f);
    var sibling := if left then s.cells[parent].right else s.cells[parent].left;
    var siblingBalance := s.cells[sibling].mark;
    c' := RotateSibling(s, sibling, left, c, f);
    ParentOfParent(s.cells, s.root, s.loose, c', f);
    next := s.cells[parent].parent;
    if siblingBalance == 0 {
      SingleLevelFits(c, lt);
      climb := 0;
    } else {
      if siblingBalance == Side(c) {
        DoubleShrinks(c, lt);
      } else {
        SingleShrinks(c, lt);
      }
      climb := 2;
    }
  }

  lemma {:induction false} ParentOfParent(h: Heap, root: Ptr, loose: set<Ptr>, c: Ctx, t: Tree)
    requires Holds(h, root, true, loose, c, t) && t.Node? && !c.Top? && !c.up.Top?
    ensures c.n.id in h && h[c.n.id].parent == c.up.n.id
  {
  }

  lemma {:induction false} ShortageGone(inner: Ctx, c: Ctx, lx: Tree)
    requires Avl(Plug(inner, lx)) && Fits(c, Height(Plug(inner, lx)))
    ensures Fits(Append(inner, c), Height(lx))
  {
    AvlThroughZipper(c, Plug(inner, lx));
    PlugAppend(inner, c, lx);
    AvlThroughZipper(Append(inner, c), lx);
  }

  /** The fix-up of remove. In the tree hangs x, which counts as lx: either a leaf
      node about to be unlinked, which counts as empty, or a child that has already
      taken its parent's place, which counts as itself. */
  method BalanceRemove(s: Store, node0: Ptr, ghost c0: Ctx, ghost x: Tree, ghost lx: Tree) returns (ghost c': Ctx)
    requires s.linked && s.At(c0, x) && x.Node? && node0 == x.n.id && Shrunk(c0, lx)
    modifies s`cells, s`root
    ensures s.cells.Keys == old(s.cells.Keys)
    ensures Agree(old(s.cells), s.cells, s.loose)
    ensures s.At(c', x) && Fits(c', Height(lx)) && SameSides(c0, c')
  {
    var node := node0;
    ghost var inner, c := Top, c0;
    while true
      invariant s.cells.Keys == old(s.cells.Keys)
      invariant s.At(c, Plug(inner, x)) && Plug(inner, x).Node? && node == Plug(inner, x).n.id
      invariant Shrunk(c, Plug(inner, lx)) && SameSides(c0, Append(inner, c))
      invariant Agree(old(s.cells), s.cells, s.loose)
      decreases c
    {
      ghost var f := Plug(inner, x);
      HoleSide(s.cells, s.root, true, s.loose, c, f);
      if s.cells[node].parent == NULL {
        break;
      }
      SidesAppend(inner, c);
      var climb;
      ghost var c1;
      node, climb, c1 := BalanceRemoveRound(s, node, c, f, Plug(inner, lx));
      SidesAppend(inner, c1);
      if climb == 0 {
        c := c1;
        break;
      }
      s.ZipUp(c1, f);
      ClimbOne(inner, c1, x, lx);
      inner, c1 := Append(inner, Alone(c1)), c1.up;
      if climb == 2 {
        s.ZipUp(c1, Plug(inner, x));
        ClimbOne(inner, c1, x, lx);
        inner, c1 := Append(inner, Alone(c1)), c1.up;
      }
      c := c1;
    }
    ShortageGone(inner, c, lx);
    s.ZipMany(inner, c, x);
    c' := Append(inner, c);
  }

  // ---- the two operations ----

  lemma {:induction false} AvlStrip(t: Tree)
    ensures (Avl(Strip(t)) <==> Avl(t)) && Height(Strip(t)) == Height(t)
  {
    if t.Node? {
      AvlStrip(t.left);
      AvlStrip(t.right);
    }
  }

  /** Insert or replace: an AVL tree again, reading as Put says. */
  method Insert(s: Store, key: Key, value: Value, ghost t: Tree) returns (inserted: bool, ghost t': Tree)
    requires s.linked && s.At(Top, t) && Avl(t) && Sorted(Inorder(t))
    modifies s`cells, s`root, s`log
    ensures s.At(Top, t') && Avl(t')
    ensures Inorder(t') == Put(Inorder(t), key, value)
    ensures inserted <==> Get(Inorder(t), key).None?
    ensures s.log == old(s.log) + if inserted then [] else s.Destroyed(Get(Inorder(t), key).value)
  {
    hide Inorder, Separate, Ids, Put, Get;
    var slot, parent, cur;
    ghost var c, x;
    slot, parent, cur, c, x := s.Find(key, t);
    AvlThroughZipper(c, x);
    if cur != NULL {
      FoundIs(c, x, key, value);
      s.Overwrite(cur, key, value, c, x);
      ghost var x' := Node(x.n.(key := key, value := value), x.left, x.right);
      AvlThroughZipper(c, x');
      s.ZipTop(c, x');
      return false, Plug(c, x');
    }
    var node := s.Graft(slot, key, value, parent, 0, c);
    ghost var n := Label(node, key, value, 0);
    GraftIsPut(c, n);
    t' := BalanceInsert(s, node, c, Node(n, Leaf, Leaf));
    inserted := true;
  }

  /** Remove: an AVL tree again, reading as Del says; one node is freed. */
  method Remove(s: Store, key: Key, ghost t: Tree)
    returns (removed: bool, ghost t': Tree, ghost freed: Ptr)
    requires s.linked && s.At(Top, t) && Avl(t) && Sorted(Inorder(t))
    modifies s`cells, s`root, s`log, s`loose
    ensures s.At(Top, t') && Avl(t') && s.loose == old(s.loose)
    ensures Inorder(t') == Del(Inorder(t), key)
    ensures removed <==> Get(Inorder(t), key).Some?
    ensures !removed ==> s.log == old(s.log)
    ensures removed ==>
      && freed in old(s.cells) && s.cells.Keys == old(s.cells.Keys) - {freed} && Locate(t, key).Node?
      && s.log == old(s.log) + s.Destroyed(PairOf(Victim(Locate(t, key)))) + [NodeFreed(freed)]
  {
    var slot, parent, cur;
    ghost var c, x;
    slot, parent, cur, c, x := s.Find(key, t);
    if cur == NULL {
      PlugInorder(c, Leaf);
      Narrow(Before(c), [], After(c), key, 0);
      return false, t, NULL;
    }
    FoundIs(c, x, key, 0);
    ghost var c', x';
    cur, slot, c', x' := s.Select(cur, slot, c, x);
    AvlStrip(Plug(c, x));
    AvlStrip(Plug(c', x'));
    AvlThroughZipper(c', x');
    t' := RemoveSelected(s, cur, c', x');
    removed, freed := true, cur;
  }

  lemma {:induction false} Unlinked(c0: Ctx, c: Ctx, x: Tree)
    requires x.Node? && Avl(x) && (x.left.Leaf? || x.right.Leaf?)
    requires Fits(c, Height(OnlyChild(x))) && SameSides(c0, c)
    ensures Avl(Plug(c, OnlyChild(x)))
    ensures Inorder(Plug(c, OnlyChild(x))) == Before(c0) + Inorder(x.left) + Inorder(x.right) + After(c0)
  {
    AvlThroughZipper(c, OnlyChild(x));
    PlugInorder(c, OnlyChild(x));
    OnlyChildInorder(Before(c0), x, After(c0));
  }

  /** The selected node, with at most one child, is taken out and freed. */
  method RemoveSelected(s: Store, cur: Ptr, ghost c0: Ctx, ghost x: Tree) returns (ghost t': Tree)
    requires s.linked && s.At(c0, x) && x.Node? && cur == x.n.id && (x.left.Leaf? || x.right.Leaf?)
    requires Avl(x) && Fits(c0, Height(x))
    modifies s`cells, s`root, s`log, s`loose
    ensures s.At(Top, t') && Avl(t') && s.loose == old(s.loose)
    ensures Inorder(t') == Before(c0) + Inorder(x.left) + Inorder(x.right) + After(c0)
    ensures cur in old(s.cells) && s.cells.Keys == old(s.cells.Keys) - {cur}
    ensures s.log == old(s.log) + s.Destroyed(PairOf(x.n)) + [NodeFreed(cur)]
  {
    ghost var c, y := c0, OnlyChild(x);
    ReprIds(s.cells, x.left, cur, true);
    ReprIds(s.cells, x.right, cur, true);
    var child := if s.cells[cur].left == NULL then s.cells[cur].right else s.cells[cur].left;
    if child == NULL {
      c := BalanceRemove(s, cur, c, x, Leaf);
    }
    s.Unlink(cur, child, c, x);
    if child != NULL {
      c := BalanceRemove(s, child, c, y, y);
    }
    s.Discard(cur, c, y);
    Unlinked(c0, c, x);
    s.ZipTop(c, y);
    t' := Plug(c, y);
  }
}
