/** The red-black variant: rotations, the two fix-up loops, insert and remove. */
module RbTree {
  import opened Trees
  import opened SortedList
  import opened TreeStore
  import opened Rotations

  const RED := 0x01
  const BLACK := 0x02

  function Color(t: Tree): int {
    if t.Leaf? then BLACK else t.n.mark
  }

  function BlackHeight(t: Tree): nat {
    if t.Leaf? then 0 else BlackHeight(t.left) + if t.n.mark == BLACK then 1 else 0
  }

  /** No red node has a red child, and every path down has as many black nodes. */
  predicate Rb(t: Tree) {
    t.Node? ==>
      && (t.n.mark == RED || t.n.mark == BLACK)
      && (t.n.mark == RED ==> Color(t.left) == BLACK && Color(t.right) == BLACK)
      && BlackHeight(t.left) == BlackHeight(t.right)
      && Rb(t.left) && Rb(t.right)
  }

  predicate RbTree(t: Tree) {
    Rb(t) && Color(t) == BLACK
  }

  /** n, with `other` as its other child, takes a child of black height b and colour col. */
  predicate Beside(n: Label, other: Tree, b: nat, col: int) {
    && (n.mark == RED || n.mark == BLACK)
    && (n.mark == RED ==> col == BLACK && Color(other) == BLACK)
    && Rb(other) && BlackHeight(other) == b
  }

  function Blacks(n: Label): nat {
    if n.mark == BLACK then 1 else 0
  }

  /** The hole of c takes a subtree of black height b whose root has colour col. */
  predicate Takes(c: Ctx, b: nat, col: int) {
    match c
    case Top => col == BLACK
    case InLeft(n, r, up) => Beside(n, r, b, col) && Takes(up, b + Blacks(n), n.mark)
    case InRight(n, l, up) => Beside(n, l, b, col) && Takes(up, b + Blacks(n), n.mark)
  }

  lemma {:induction false} BlackAlwaysFits(c: Ctx, b: nat, col: int)
    requires Takes(c, b, col)
    ensures Takes(c, b, BLACK)
  {
  }

  /** A whole tree is red-black exactly when the subtree in focus is and the
      path around it takes it. */
  lemma {:induction false} RbThroughZipper(c: Ctx, t: Tree)
    ensures RbTree(Plug(c, t)) <==> Rb(t) && Takes(c, BlackHeight(t), Color(t))
    decreases c
  {
    match c
    case Top =>
    case InLeft(n, r, up) => RbThroughZipper(up, Node(n, t, r));
    case InRight(n, l, up) => RbThroughZipper(up, Node(n, l, t));
  }

  function IsBlack(h: Heap, p: Ptr): bool
    requires p != NULL ==> p in h
  {
    p == NULL || h[p].mark / 2 % 2 == 1
  }

  function IsRed(h: Heap, p: Ptr): bool
    requires p in h
  {
    h[p].mark % 2 == 1
  }


  method RotateLeft(s: Store, node: Ptr, ghost c: Ctx, ghost t: Tree)
    requires s.linked && s.At(c, t) && t.Node? && t.right.Node? && node == t.n.id
    modifies s`cells, s`root
    ensures s.cells.Keys == old(s.cells.Keys)
    ensures s.At(c, Rotl(t))
  {
    ghost var h, root := s.cells, s.root;
    RotlCells(h, root, s.loose, c, t);
    RewireLeft(s, node, c, t);
    RotlHeap(h, root, s.cells, s.root, s.loose, c, t);
  }

  /** First part of a rotation: the link from above goes to the child instead. */
  method HangInstead(s: Store, node: Ptr, tmp: Ptr, ghost c: Ctx)
    requires node in s.cells && s.cells[node].parent == Up(c) && (Up(c) == NULL <==> c.Top?)
    requires !c.Top? ==> Up(c) in s.cells && (c.InLeft? <==> s.cells[Up(c)].left == node)
    modifies s`cells
    ensures var h, g := old(s.cells), s.cells;
      && g.Keys == h.Keys
      && (c.Top? ==> g == h) && (!c.Top? ==> g[Up(c)] == Redirect(c, h[Up(c)], tmp))
      && forall p | p in h && p != Up(c) :: g[p] == h[p]
  {
    var parent := s.cells[node].parent;
    if parent != NULL {
      if s.cells[parent].left == node {
        s.cells := WithLeft(s.cells, parent, tmp);
      } else {
        s.cells := WithRight(s.cells, parent, tmp);
      }
    }
  }

  /** Second part of the left rotation: the node goes under its right child. */
  method LowerLeft(s: Store, node: Ptr, tmp: Ptr)
    requires {node, tmp} <= s.cells.Keys && node != tmp
    requires var mid := s.cells[tmp].left; mid != NULL ==> mid in s.cells && mid !in {node, tmp}
    modifies s`cells, s`root
    ensures var h, g := old(s.cells), s.cells;
      var mid := h[tmp].left;
      && g.Keys == h.Keys
      && g[node] == h[node].(right := mid, parent := tmp)
      && g[tmp] == h[tmp].(left := node, parent := h[node].parent)
      && (mid != NULL ==> g[mid] == h[mid].(parent := node))
      && forall p | p in h && p !in {node, tmp, mid} :: g[p] == h[p]
    ensures s.root == if old(s.cells)[node].parent == NULL then tmp else old(s.root)
  {
    s.cells := WithRight(s.cells, node, s.cells[tmp].left);
    if s.cells[tmp].left != NULL {
      s.cells := WithParent(s.cells, s.cells[tmp].left, node);
    }
    s.cells := WithLeft(s.cells, tmp, node);
    s.cells := WithParent(s.cells, tmp, s.cells[node].parent);
    s.cells := WithParent(s.cells, node, tmp);
    if s.cells[tmp].parent == NULL {
      s.root := tmp;
    }
  }

  method RewireLeft(s: Store, node: Ptr, ghost c: Ctx, ghost t: Tree)
    requires RotlReady(s.cells, c, t) && node == t.n.id
    modifies s`cells, s`root
    ensures RotlCase(old(s.cells), s.cells, c, t)
    ensures s.root == if c.Top? then t.right.n.id else old(s.root)
  {
    var tmp := s.cells[node].right;
    HangInstead(s, node, tmp, c);
    LowerLeft(s, node, tmp);
  }

  method RotateRight(s: Store, node: Ptr, ghost c: Ctx, ghost t: Tree)
    requires s.linked && s.At(c, t) && t.Node? && t.left.Node? && node == t.n.id
    modifies s`cells, s`root
    ensures s.cells.Keys == old(s.cells.Keys)
    ensures s.At(c, Rotr(t))
  {
    ghost var h, root := s.cells, s.root;
    RotrCells(h, root, s.loose, c, t);
    RewireRight(s, node, c, t);
    RotrHeap(h, root, s.cells, s.root, s.loose, c, t);
  }

  /** Second part of the right rotation: the node goes under its left child. */
  method LowerRight(s: Store, node: Ptr, tmp: Ptr)
    requires {node, tmp} <= s.cells.Keys && node != tmp
    requires var mid := s.cells[tmp].right; mid != NULL ==> mid in s.cells && mid !in {node, tmp}
    modifies s`cells, s`root
    ensures var h, g := old(s.cells), s.cells;
      var mid := h[tmp].right;
      && g.Keys == h.Keys
      && g[node] == h[node].(left := mid, parent := tmp)
      && g[tmp] == h[tmp].(right := node, parent := h[node].parent)
      && (mid != NULL ==> g[mid] == h[mid].(parent := node))
      && forall p | p in h && p !in {node, tmp, mid} :: g[p] == h[p]
    ensures s.root == if old(s.cells)[node].parent == NULL then tmp else old(s.root)
  {
    s.cells := WithLeft(s.cells, node, s.cells[tmp].right);
    if s.cells[tmp].right != NULL {
      s.cells := WithParent(s.cells, s.cells[tmp].right, node);
    }
    s.cells := WithRight(s.cells, tmp, node);
    s.cells := WithParent(s.cells, tmp, s.cells[node].parent);
    s.cells := WithParent(s.cells, node, tmp);
    if s.cells[tmp].parent == NULL {
      s.root := tmp;
    }
  }

  method RewireRight(s: Store, node: Ptr, ghost c: Ctx, ghost t: Tree)
    requires RotrReady(s.cells, c, t) && node == t.n.id
    modifies s`cells, s`root
    ensures RotrCase(old(s.cells), s.cells, c, t)
    ensures s.root == if c.Top? then t.left.n.id else old(s.root)
  {
    var tmp := s.cells[node].left;
    HangInstead(s, node, tmp, c);
    LowerRight(s, node, tmp);
  }

  // ---- insert ----

  /** A red node waits under c, which would take a black one in its place. */
  ghost predicate RedPending(c: Ctx, t: Tree) {
    t.Node? && t.n.mark == RED && Rb(t) && Takes(c, BlackHeight(t), BLACK)
  }

  /** Under a red parent there is a black grandparent. */
  lemma {:induction false} Grandparent(c: Ctx, t: Tree)
    requires RedPending(c, t) && !c.Top? && c.n.mark == RED
    ensures !c.up.Top? && c.up.n.mark == BLACK
    ensures Color(Other(c)) == BLACK && Rb(Other(c)) && BlackHeight(Other(c)) == BlackHeight(t)
    ensures Rb(Other(c.up)) && BlackHeight(Other(c.up)) == BlackHeight(t)
    ensures Takes(c.up.up, BlackHeight(t) + 1, BLACK)
  {
    assert Takes(c.up, BlackHeight(t), RED);
  }

  ghost function Flipped(c: Ctx, t: Tree): Tree
    requires !c.Top? && !c.up.Top? && Other(c.up).Node?
  {
    Remark(Over(Across(c.up, Remark(Over(c, t), BLACK)), Remark(Other(c.up), BLACK)), RED)
  }

  lemma {:induction false} FlippedPends(c: Ctx, t: Tree)
    requires RedPending(c, t) && !c.Top? && c.n.mark == RED && !c.up.Top? && Color(Other(c.up)) == RED
    ensures RedPending(c.up.up, Flipped(c, t))
  {
    Grandparent(c, t);
    var p', u' := Remark(Over(c, t), BLACK), Remark(Other(c.up), BLACK);
    assert Rb(p') && BlackHeight(p') == BlackHeight(t) + 1;
    assert Rb(u') && BlackHeight(u') == BlackHeight(t) + 1;
  }

  /** Case 3: red parent and red uncle turn black, the grandparent turns red. */
  method FlipColors(s: Store, parent: Ptr, uncle: Ptr, gparent: Ptr, ghost c: Ctx, ghost t: Tree)
    returns (ghost t': Tree)
    requires s.linked && s.At(c, t) && RedPending(c, t)
    requires !c.Top? && c.n.mark == RED && !c.up.Top?
    requires Color(Other(c.up)) == RED
    requires parent == c.n.id && gparent == c.up.n.id && uncle == Root(Other(c.up))
    modifies s`cells
    ensures s.At(c.up.up, t') && RedPending(c.up.up, t') && t'.n.id == gparent
    ensures Inorder(Plug(c.up.up, t')) == Inorder(Plug(c, t))
  {
    ghost var pc, p, u := c.up, Over(c, t), Other(c.up);
    s.ZipUp(c, t);
    s.SetMark(parent, BLACK, pc, p);
    ghost var p' := Remark(p, BLACK);
    s.ZipAcross(pc, p');
    s.SetMark(uncle, BLACK, Across(pc, p'), u);
    ghost var u' := Remark(u, BLACK);
    s.ZipUp(Across(pc, p'), u');
    ghost var g := Over(Across(pc, p'), u');
    s.SetMark(gparent, RED, pc.up, g);
    t' := Flipped(c, t);
    FlippedPends(c, t);
  }

  /** Cases 4a and 5a: the red parent is a left child, the uncle is black. */
  method RotateOutLeft(s: Store, node0: Ptr, gparent: Ptr, ghost c0: Ctx, ghost t0: Tree)
    returns (ghost t': Tree)
    requires s.linked && s.At(c0, t0) && RedPending(c0, t0) && node0 == t0.n.id
    requires !c0.Top? && c0.n.mark == RED && c0.up.InLeft?
    requires Color(c0.up.right) == BLACK && gparent == c0.up.n.id
    modifies s`cells, s`root
    ensures s.At(Top, t') && RbTree(t') && Inorder(t') == Inorder(Plug(c0, t0))
  {
    Grandparent(c0, t0);
    ghost var b, pc := BlackHeight(t0), c0.up;
    ghost var c, t := c0, t0;
    var node := node0;
    HoleSide(s.cells, s.root, true, s.loose, c, t);
    if node == s.cells[s.cells[node].parent].right {
      s.ZipUp(c, t);
      RotlInorder(pc, Over(c, t));
      RotateLeft(s, s.cells[node].parent, pc, Over(c, t));
      c, t := InLeft(t.n, t.right, pc), Node(c.n, c.left, t.left);
      s.ZipUp(c, t);
      HoleSide(s.cells, s.root, true, s.loose, pc, Over(c, t));
      node := s.cells[node].left;
    }
    assert c.InLeft? && c.up == pc && RedPair(c, t, b);
    t' := RotateOutLeftEnd(s, node, gparent, c, t);
  }

  /** Cases 4b and 5b: the red parent is a right child, the uncle is black. */
  method RotateOutRight(s: Store, node0: Ptr, gparent: Ptr, ghost c0: Ctx, ghost t0: Tree)
    returns (ghost t': Tree)
    requires s.linked && s.At(c0, t0) && RedPending(c0, t0) && node0 == t0.n.id
    requires !c0.Top? && c0.n.mark == RED && c0.up.InRight?
    requires Color(c0.up.left) == BLACK && gparent == c0.up.n.id
    modifies s`cells, s`root
    ensures s.At(Top, t') && RbTree(t') && Inorder(t') == Inorder(Plug(c0, t0))
  {
    Grandparent(c0, t0);
    ghost var b, pc := BlackHeight(t0), c0.up;
    ghost var c, t := c0, t0;
    var node := node0;
    HoleSide(s.cells, s.root, true, s.loose, c, t);
    if node == s.cells[s.cells[node].parent].left {
      s.ZipUp(c, t);
      RotrInorder(pc, Over(c, t));
      RotateRight(s, s.cells[node].parent, pc, Over(c, t));
      c, t := InRight(t.n, t.left, pc), Node(c.n, t.right, c.right);
      s.ZipUp(c, t);
      HoleSide(s.cells, s.root, true, s.loose, pc, Over(c, t));
      node := s.cells[node].right;
    }
    assert c.InRight? && c.up == pc && RedPair(c, t, b);
    t' := RotateOutRightEnd(s, node, gparent, c, t);
  }

  /** t and its parent, both red, hang with the sibling of t as equals of black height b. */
  ghost predicate RedPair(c: Ctx, t: Tree, b: nat) {
    && t.Node? && t.n.mark == RED && Rb(t) && BlackHeight(t) == b
    && !c.Top? && c.n.mark == RED
    && Rb(Other(c)) && Color(Other(c)) == BLACK && BlackHeight(Other(c)) == b
    && !c.up.Top? && c.up.n.mark == BLACK
    && Rb(Other(c.up)) && BlackHeight(Other(c.up)) == b
    && Takes(c.up.up, b + 1, BLACK)
  }

  /** The grandparent's subtree, recoloured, just before the last rotation. */
  ghost function OuterLeft(c: Ctx, t: Tree): Tree
    requires c.InLeft? && c.up.InLeft?
  {
    Over(Repaint(c.up, RED), Over(Repaint(c, BLACK), t))
  }

  lemma {:induction false} OuterLeftDone(c: Ctx, t: Tree)
    requires c.InLeft? && c.up.InLeft? && RedPair(c, t, BlackHeight(t)) && Color(c.up.right) == BLACK
    ensures RbTree(Plug(c.up.up, Rotr(OuterLeft(c, t))))
    ensures Inorder(Plug(c.up.up, Rotr(OuterLeft(c, t)))) == Inorder(Plug(c, t))
  {
    var up, g := c.up.up, OuterLeft(c, t);
    var r := Rotr(g);
    assert Rb(r.right) && BlackHeight(r.right) == BlackHeight(t);
    assert Rb(r) && BlackHeight(r) == BlackHeight(t) + 1;
    RbThroughZipper(up, r);
    RotrInorder(up, g);
    assert Inorder(g.left) == Inorder(Over(c, t));
    PlugSame(up, g, Over(c.up, Over(c, t)));
    assert Plug(c, t) == Plug(up, Over(c.up, Over(c, t)));
  }

  method RotateOutLeftEnd(s: Store, node: Ptr, gparent: Ptr, ghost c: Ctx, ghost t: Tree)
    returns (ghost t': Tree)
    requires s.linked && s.At(c, t) && t.Node? && node == t.n.id
    requires c.InLeft? && c.up.InLeft? && RedPair(c, t, BlackHeight(t))
    requires Color(c.up.right) == BLACK && gparent == c.up.n.id
    modifies s`cells, s`root
    ensures s.At(Top, t') && RbTree(t') && Inorder(t') == Inorder(Plug(c, t))
  {
    ghost var up := c.up.up;
    s.ZipUp(c, t);
    s.MarkParent(gparent, RED, c.up, Over(c, t));
    ghost var c1 := InLeft(c.n, c.right, Repaint(c.up, RED));
    s.ZipUp(c1, t);
    HoleSide(s.cells, s.root, true, s.loose, c1, t);
    s.MarkParent(s.cells[node].parent, BLACK, c1, t);
    ghost var c2 := Repaint(c1, BLACK);
    s.ZipUp(c2, t);
    s.ZipUp(c2.up, Over(c2, t));
    ghost var g := Over(c2.up, Over(c2, t));
    RotateRight(s, gparent, up, g);
    OuterLeftDone(c, t);
    s.ZipTop(up, Rotr(g));
    t' := Plug(up, Rotr(g));
  }

  /** The grandparent's subtree, recoloured, just before the last rotation. */
  ghost function OuterRight(c: Ctx, t: Tree): Tree
    requires c.InRight? && c.up.InRight?
  {
    Over(Repaint(c.up, RED), Over(Repaint(c, BLACK), t))
  }

  lemma {:induction false} OuterRightDone(c: Ctx, t: Tree)
    requires c.InRight? && c.up.InRight? && RedPair(c, t, BlackHeight(t)) && Color(c.up.left) == BLACK
    ensures RbTree(Plug(c.up.up, Rotl(OuterRight(c, t))))
    ensures Inorder(Plug(c.up.up, Rotl(OuterRight(c, t)))) == Inorder(Plug(c, t))
  {
    var up, g := c.up.up, OuterRight(c, t);
    var r := Rotl(g);
    assert Rb(r.left) && BlackHeight(r.left) == BlackHeight(t);
    assert Rb(r) && BlackHeight(r) == BlackHeight(t) + 1;
    RbThroughZipper(up, r);
    RotlInorder(up, g);
    assert Inorder(g.right) == Inorder(Over(c, t));
    PlugSame(up, g, Over(c.up, Over(c, t)));
    assert Plug(c, t) == Plug(up, Over(c.up, Over(c, t)));
  }

  method RotateOutRightEnd(s: Store, node: Ptr, gparent: Ptr, ghost c: Ctx, ghost t: Tree)
    returns (ghost t': Tree)
    requires s.linked && s.At(c, t) && t.Node? && node == t.n.id
    requires c.InRight? && c.up.InRight? && RedPair(c, t, BlackHeight(t))
    requires Color(c.up.left) == BLACK && gparent == c.up.n.id
    modifies s`cells, s`root
    ensures s.At(Top, t') && RbTree(t') && Inorder(t') == Inorder(Plug(c, t))
  {
    ghost var up := c.up.up;
    s.ZipUp(c, t);
    s.MarkParent(gparent, RED, c.up, Over(c, t));
    ghost var c1 := InRight(c.n, c.left, Repaint(c.up, RED));
    s.ZipUp(c1, t);
    HoleSide(s.cells, s.root, true, s.loose, c1, t);
    s.MarkParent(s.cells[node].parent, BLACK, c1, t);
    ghost var c2 := Repaint(c1, BLACK);
    s.ZipUp(c2, t);
    s.ZipUp(c2.up, Over(c2, t));
    ghost var g := Over(c2.up, Over(c2, t));
    RotateLeft(s, gparent, up, g);
    OuterRightDone(c, t);
    s.ZipTop(up, Rotl(g));
    t' := Plug(up, Rotl(g));
  }

  /** What the code finds when it follows parent, grandparent and uncle links. */
  lemma {:induction false} Uncle(h: Heap, root: Ptr, loose: set<Ptr>, c: Ctx, t: Tree)
    requires Holds(h, root, true, loose, c, t) && t.Node? && !c.Top? && !c.up.Top?
    ensures c.n.id in h && h[c.n.id].mark == c.n.mark && h[c.n.id].parent == c.up.n.id
    ensures c.up.n.id in h && (h[c.up.n.id].left == c.n.id <==> c.up.InLeft?)
    ensures Root(Other(c.up)) == if c.up.InLeft? then h[c.up.n.id].right else h[c.up.n.id].left
    ensures Root(Other(c.up)) == NULL <==> Other(c.up).Leaf?
    ensures Other(c.up).Node? ==> Root(Other(c.up)) in h && h[Root(Other(c.up))].mark == Color(Other(c.up))
  {
    if c.InLeft? {
      ZipLeft(h, root, true, loose, c.up, c.n, t, c.right);
    } else {
      ZipRight(h, root, true, loose, c.up, c.n, c.left, t);
    }
    HoleSide(h, root, true, loose, c.up, Over(c, t));
    ReprIds(h, Other(c.up), c.up.n.id, true);
  }

  /** The fix-up after insert: it ends with a red-black tree that reads the same. */
  method BalanceInsert(s: Store, node0: Ptr, ghost c0: Ctx, ghost t0: Tree) returns (ghost t': Tree)
    requires s.linked && s.At(c0, t0) && RedPending(c0, t0) && node0 == t0.n.id
    modifies s`cells, s`root
    ensures s.At(Top, t') && RbTree(t') && Inorder(t') == Inorder(Plug(c0, t0))
  {
    hide Inorder, Ids;
    var node := node0;
    ghost var c, t := c0, t0;
    while true
      invariant s.At(c, t) && RedPending(c, t) && node == t.n.id
      invariant Inorder(Plug(c, t)) == Inorder(Plug(c0, t0))
      decreases c
    {
      HoleSide(s.cells, s.root, true, s.loose, c, t);
      // A pending red root has nobody to clash with: paint it black.
      if s.cells[node].parent == NULL {
        s.SetMark(node, BLACK, c, t);
        t' := Remark(t, BLACK);
        return;
      }
      var parent := s.cells[node].parent;
      // Under a black parent the red node is no longer pending.
      if IsBlack(s.cells, parent) {
        RbThroughZipper(c, t);
        s.ZipTop(c, t);
        t' := Plug(c, t);
        return;
      }
      Grandparent(c, t);
      Uncle(s.cells, s.root, s.loose, c, t);
      var gparent := s.cells[parent].parent;
      var uncle := if s.cells[gparent].left == parent then s.cells[gparent].right else s.cells[gparent].left;
      if uncle != NULL && IsRed(s.cells, uncle) {
        t := FlipColors(s, parent, uncle, gparent, c, t);
        c, node := c.up.up, gparent;
        continue;
      }
      if parent == s.cells[gparent].left {
        t' := RotateOutLeft(s, node, gparent, c, t);
      } else {
        t' := RotateOutRight(s, node, gparent, c, t);
      }
      return;
    }
  }

  // ---- remove ----

  /** The subtree lt is one black node short of what c takes. */
  ghost predicate Short(c: Ctx, lt: Tree) {
    Rb(lt) && Color(lt) == BLACK && Takes(c, BlackHeight(lt) + 1, BLACK)
  }

  lemma {:induction false} SiblingExists(c: Ctx, lt: Tree)
    requires Short(c, lt) && !c.Top?
    ensures Other(c).Node? && Rb(Other(c)) && BlackHeight(Other(c)) == BlackHeight(lt) + 1
    ensures Other(c).n.mark == BLACK ==> BlackHeight(Near(c)) == BlackHeight(Far(c)) == BlackHeight(lt)
    ensures Rb(Near(c)) && Color(Near(c)) in {RED, BLACK}
    ensures Rb(Far(c)) && Color(Far(c)) in {RED, BLACK}
  {
  }

  method RotateAtParent(s: Store, node: Ptr, ghost c: Ctx, ghost f: Tree)
    requires s.linked && s.At(c, f) && f.Node? && node == f.n.id && !c.Top? && Other(c).Node?
    modifies s`cells, s`root
    ensures s.cells.Keys == old(s.cells.Keys)
    ensures s.At(Lift(c), f)
  {
    HoleSide(s.cells, s.root, true, s.loose, c, f);
    s.ZipUp(c, f);
    if node == s.cells[s.cells[node].parent].left {
      RotateLeft(s, s.cells[node].parent, c.up, Over(c, f));
    } else {
      RotateRight(s, s.cells[node].parent, c.up, Over(c, f));
    }
    s.ZipUp(Lift(c), f);
    s.ZipUp(Lift(c).up, Over(Lift(c), f));
  }

  method RotateAtSibling(s: Store, sibling: Ptr, left: bool, ghost c: Ctx, ghost f: Tree)
    requires s.linked && s.At(c, f) && !c.Top? && Other(c).Node? && Near(c).Node?
    requires sibling == Other(c).n.id && (left <==> c.InLeft?)
    modifies s`cells, s`root
    ensures s.cells.Keys == old(s.cells.Keys)
    ensures s.At(Turn(c), f)
  {
    s.ZipAcross(c, f);
    if left {
      RotateRight(s, sibling, Across(c, f), Other(c));
    } else {
      RotateLeft(s, sibling, Across(c, f), Other(c));
    }
    s.ZipAcross(Turn(c), f);
  }

  /** Case 2: a red sibling is rotated above the parent; the new sibling is black. */
  lemma {:induction false} RedSiblingShort(c: Ctx, lt: Tree)
    requires Short(c, lt) && !c.Top? && Other(c).Node? && Other(c).n.mark == RED
    ensures var c1 := Repaint(c, RED);
      var c2 := Lift(WithOther(c1, Remark(Other(c), BLACK)));
      && Short(c2, lt) && Other(c2).Node? && Other(c2).n.mark == BLACK
      && SameSides(c, c2) && c2.n == c1.n
  {
    SiblingExists(c, lt);
    var c1 := Repaint(c, RED);
    var c1' := WithOther(c1, Remark(Other(c), BLACK));
    LiftSides(c1');
    var c2 := Lift(c1');
    assert Takes(c2.up, BlackHeight(lt) + 1, RED);
  }

  /** Case 3 under a black parent: the shortage moves up. */
  lemma {:induction false} ShortageMovesUp(c: Ctx, lt: Tree)
    requires Short(c, lt) && !c.Top? && Other(c).Node? && c.n.mark == BLACK && Other(c).n.mark == BLACK
    requires Color(Near(c)) == BLACK && Color(Far(c)) == BLACK
    ensures var c3 := WithOther(c, Remark(Other(c), RED));
      Short(c.up, Over(c3, lt)) && SameSides(c, c3)
  {
    SiblingExists(c, lt);
    var c3 := WithOther(c, Remark(Other(c), RED));
    assert Rb(Other(c3)) && BlackHeight(Other(c3)) == BlackHeight(lt);
  }

  /** Case 3 under a red parent: the parent turns black and the shortage is gone. */
  lemma {:induction false} RedParentAbsorbs(c: Ctx, lt: Tree)
    requires Short(c, lt) && !c.Top? && Other(c).Node? && c.n.mark == RED && Other(c).n.mark == BLACK
    requires Color(Near(c)) == BLACK && Color(Far(c)) == BLACK
    ensures var c3 := WithOther(c, Remark(Other(c), RED));
      var c4 := Repaint(c3, BLACK);
      Takes(c4, BlackHeight(lt), BLACK) && SameSides(c, c4)
  {
    SiblingExists(c, lt);
    var c3 := WithOther(c, Remark(Other(c), RED));
    assert Rb(Other(c3)) && BlackHeight(Other(c3)) == BlackHeight(lt);
    BlackAlwaysFits(c.up, BlackHeight(lt) + 1, RED);
  }

  /** Case 4: a red near nephew is turned into a red far one. */
  lemma {:induction false} TurnShort(c: Ctx, lt: Tree)
    requires Short(c, lt) && !c.Top? && Other(c).Node? && Other(c).n.mark == BLACK
    requires Color(Near(c)) == RED && Color(Far(c)) == BLACK
    ensures var c1 := WithOther(c, Remark(Other(c), RED));
      var c4 := Turn(WithOtherNode(c1, Other(c1).n, Remark(Near(c1), BLACK), Far(c1)));
      && Short(c4, lt) && Other(c4).Node? && Other(c4).n.mark == BLACK && Color(Far(c4)) == RED
      && SameSides(c, c4) && c4.n == c.n && c4.up == c.up && (c4.InLeft? <==> c.InLeft?)
  {
    SiblingExists(c, lt);
    var c1 := WithOther(c, Remark(Other(c), RED));
    var c1' := WithOtherNode(c1, Other(c1).n, Remark(Near(c1), BLACK), Far(c1));
    TurnSides(c1');
    var near := Near(c);
    assert Rb(near) && BlackHeight(near.left) == BlackHeight(near.right) == BlackHeight(lt);
    assert Inorder(Other(c1')) == Inorder(Other(c));
    assert Rb(Far(Turn(c1')));
  }

  /** Case 5: a red far nephew pays for the shortage. */
  lemma {:induction false} FarNephewPays(c: Ctx, lt: Tree)
    requires Short(c, lt) && !c.Top? && Other(c).Node? && Other(c).n.mark == BLACK && Color(Far(c)) == RED
    ensures var c1 := WithOther(c, Remark(Other(c), c.n.mark));
      var c2 := Repaint(c1, BLACK);
      var c5 := Lift(WithOtherNode(c2, Other(c2).n, Near(c2), Remark(Far(c2), BLACK)));
      Takes(c5, BlackHeight(lt), BLACK) && SameSides(c, c5)
  {
    SiblingExists(c, lt);
    var c1 := WithOther(c, Remark(Other(c), c.n.mark));
    var c2 := Repaint(c1, BLACK);
    var c3 := WithOtherNode(c2, Other(c2).n, Near(c2), Remark(Far(c2), BLACK));
    LiftSides(c3);
    assert Inorder(Other(c3)) == Inorder(Other(c));
    var c5 := Lift(c3);
    assert Rb(Other(c5.up)) && BlackHeight(Other(c5.up)) == BlackHeight(lt) + 1;
    assert Takes(c5.up, BlackHeight(lt) + 1, BLACK);
  }

  /** pztree_rb_get_sibling */
  function Sibling(h: Heap, node: Ptr): Ptr
    requires node in h && h[node].parent in h
  {
    var parent := h[node].parent;
    if h[parent].left == node then h[parent].right else h[parent].left
  }

  /** The path from the top of the tree down to the node being removed, whose
      part `inner` lies below the current node. */
  lemma {:induction false} ShortageGone(inner: Ctx, c: Ctx)
    requires Rb(Plug(inner, Leaf)) && Color(Plug(inner, Leaf)) == BLACK
    requires Takes(c, BlackHeight(Plug(inner, Leaf)), BLACK)
    ensures Takes(Append(inner, c), 0, BLACK)
  {
    RbThroughZipper(c, Plug(inner, Leaf));
    PlugAppend(inner, c, Leaf);
    RbThroughZipper(Append(inner, c), Leaf);
  }

  /** Case 2, in place. */
  method RaiseRedSibling(s: Store, node: Ptr, sibling: Ptr, ghost c: Ctx, ghost f: Tree, ghost lt: Tree)
    returns (ghost c': Ctx)
    requires s.linked && s.At(c, f) && f.Node? && node == f.n.id && Short(c, lt)
    requires !c.Top? && Other(c).Node? && Other(c).n.mark == RED && sibling == Other(c).n.id
    modifies s`cells, s`root
    ensures s.cells.Keys == old(s.cells.Keys)
    ensures s.At(c', f) && Short(c', lt) && SameSides(c, c')
    ensures !c'.Top? && Other(c').Node? && Other(c').n.mark == BLACK && c'.n.mark == RED
  {
    RedSiblingShort(c, lt);
    HoleSide(s.cells, s.root, true, s.loose, c, f);
    s.MarkParent(s.cells[node].parent, RED, c, f);
    ghost var c1 := Repaint(c, RED);
    s.MarkSibling(sibling, BLACK, c1, f);
    c' := WithOther(c1, Remark(Other(c), BLACK));
    RotateAtParent(s, node, c', f);
    c' := Lift(c');
  }

  /** Case 3, in place. */
  method FlipSibling(s: Store, node: Ptr, sibling: Ptr, ghost c: Ctx, ghost f: Tree, ghost lt: Tree)
    returns (again: bool, ghost c': Ctx)
    requires s.linked && s.At(c, f) && f.Node? && node == f.n.id && Short(c, lt)
    requires !c.Top? && Other(c).Node? && Other(c).n.mark == BLACK && sibling == Other(c).n.id
    requires Color(Near(c)) == BLACK && Color(Far(c)) == BLACK
    modifies s`cells
    ensures s.cells.Keys == old(s.cells.Keys)
    ensures s.At(c', f) && SameSides(c, c') && (again <==> c.n.mark == BLACK)
    ensures again ==> !c'.Top? && c'.up == c.up && Short(c'.up, Over(c', lt))
    ensures !again ==> Takes(c', BlackHeight(lt), BLACK)
  {
    s.MarkSibling(sibling, RED, c, f);
    c' := WithOther(c, Remark(Other(c), RED));
    HoleSide(s.cells, s.root, true, s.loose, c', f);
    SiblingCells(s.cells, s.root, true, s.loose, c', f);
    again := IsBlack(s.cells, s.cells[node].parent);
    if again {
      ShortageMovesUp(c, lt);
    } else {
      RedParentAbsorbs(c, lt);
      s.MarkParent(s.cells[node].parent, BLACK, c', f);
      c' := Repaint(c', BLACK);
    }
  }

  /** Case 4, in place. */
  method TurnSibling(s: Store, sibling: Ptr, nephew: Ptr, left: bool, ghost c: Ctx, ghost f: Tree, ghost lt: Tree)
    returns (ghost c': Ctx)
    requires s.linked && s.At(c, f) && f.Node? && Short(c, lt)
    requires !c.Top? && Other(c).Node? && Other(c).n.mark == BLACK && sibling == Other(c).n.id
    requires Color(Near(c)) == RED && Color(Far(c)) == BLACK && nephew == Root(Near(c)) && (left <==> c.InLeft?)
    modifies s`cells, s`root
    ensures s.cells.Keys == old(s.cells.Keys)
    ensures s.At(c', f) && Short(c', lt) && SameSides(c, c')
    ensures c'.n == c.n && c'.up == c.up && (c'.InLeft? <==> c.InLeft?) && !c'.Top?
    ensures Other(c').Node? && Other(c').n.mark == BLACK && Color(Far(c')) == RED
  {
    TurnShort(c, lt);
    s.MarkSibling(sibling, RED, c, f);
    ghost var c1 := WithOther(c, Remark(Other(c), RED));
    s.MarkNear(nephew, BLACK, c1, f);
    c' := WithOtherNode(c1, Other(c1).n, Remark(Near(c1), BLACK), Far(c1));
    RotateAtSibling(s, sibling, left, c', f);
    c' := Turn(c');
  }

  /** Case 5, in place. */
  method PayShortage(s: Store, node: Ptr, sibling: Ptr, ghost c: Ctx, ghost f: Tree, ghost lt: Tree)
    returns (ghost c': Ctx)
    requires s.linked && s.At(c, f) && f.Node? && node == f.n.id && Short(c, lt)
    requires !c.Top? && Other(c).Node? && Other(c).n.mark == BLACK && sibling == Other(c).n.id
    requires Color(Far(c)) == RED
    modifies s`cells, s`root
    ensures s.cells.Keys == old(s.cells.Keys)
    ensures s.At(c', f) && Takes(c', BlackHeight(lt), BLACK) && SameSides(c, c')
  {
    FarNephewPays(c, lt);
    HoleSide(s.cells, s.root, true, s.loose, c, f);
    var parent := s.cells[node].parent;
    SiblingCells(s.cells, s.root, true, s.loose, c, f);
    var left := node == s.cells[parent].left;
    s.MarkSibling(sibling, s.cells[parent].mark, c, f);
    ghost var c1 := WithOther(c, Remark(Other(c), c.n.mark));
    s.MarkParent(parent, BLACK, c1, f);
    ghost var c2 := Repaint(c1, BLACK);
    SiblingCells(s.cells, s.root, true, s.loose, c2, f);
    s.MarkFar(if left then s.cells[sibling].right else s.cells[sibling].left, BLACK, c2, f);
    c' := WithOtherNode(c2, Other(c2).n, Near(c2), Remark(Far(c2), BLACK));
    RotateAtParent(s, node, c', f);
    c' := Lift(c');
  }

  /** What the code finds around a node whose subtree is short. */
  lemma {:induction false} Around(h: Heap, root: Ptr, loose: set<Ptr>, c: Ctx, f: Tree, lt: Tree)
    requires Holds(h, root, true, loose, c, f) && f.Node? && !c.Top? && Short(c, lt)
    ensures Other(c).Node? && Other(c).n.mark in {RED, BLACK}
    ensures f.n.id in h && h[f.n.id].parent in h && (h[h[f.n.id].parent].left == f.n.id <==> c.InLeft?)
    ensures var o := Other(c);
      && Sibling(h, f.n.id) == o.n.id && o.n.id in h
      && (IsRed(h, o.n.id) <==> o.n.mark == RED)
      && h[o.n.id].left == Root(o.left) && h[o.n.id].right == Root(o.right)
      && (Root(o.left) != NULL ==> Root(o.left) in h) && (Root(o.right) != NULL ==> Root(o.right) in h)
      && Color(o.left) in {RED, BLACK} && Color(o.right) in {RED, BLACK}
      && (IsBlack(h, Root(o.left)) <==> Color(o.left) == BLACK)
      && (IsBlack(h, Root(o.right)) <==> Color(o.right) == BLACK)
  {
    SiblingExists(c, lt);
    HoleSide(h, root, true, loose, c, f);
    SiblingCells(h, root, true, loose, c, f);
    assert Other(c).left in {Near(c), Far(c)} && Other(c).right in {Near(c), Far(c)};
  }

  /** One round of the loop below the root: either the shortage is gone, or it
      has moved up to the parent. */
  method BalanceRemoveRound(s: Store, node: Ptr, ghost c0: Ctx, ghost f: Tree, ghost lt: Tree)
    returns (again: bool, ghost c: Ctx)
    requires s.linked && s.At(c0, f) && f.Node? && node == f.n.id && !c0.Top? && Short(c0, lt)
    modifies s`cells, s`root
    ensures s.cells.Keys == old(s.cells.Keys)
    ensures s.At(c, f) && SameSides(c0, c)
    ensures again ==> !c.Top? && c.up == c0.up && Short(c.up, Over(c, lt))
    ensures !again ==> Takes(c, BlackHeight(lt), BLACK)
  {
    c := c0;
    Around(s.cells, s.root, s.loose, c, f, lt);
    var sibling := Sibling(s.cells, node);
    if IsRed(s.cells, sibling) {
      c := RaiseRedSibling(s, node, sibling, c, f, lt);
      Around(s.cells, s.root, s.loose, c, f, lt);
      sibling := Sibling(s.cells, node);
    }
    if IsBlack(s.cells, s.cells[sibling].left) && IsBlack(s.cells, s.cells[sibling].right) {
      again, c := FlipSibling(s, node, sibling, c, f, lt);
      return;
    }
    var left := node == s.cells[s.cells[node].parent].left;
    if left && IsBlack(s.cells, s.cells[sibling].right) {
      c := TurnSibling(s, sibling, s.cells[sibling].left, true, c, f, lt);
      Around(s.cells, s.root, s.loose, c, f, lt);
      sibling := Sibling(s.cells, node);
    } else if !left && IsBlack(s.cells, s.cells[sibling].left) {
      c := TurnSibling(s, sibling, s.cells[sibling].right, false, c, f, lt);
      Around(s.cells, s.root, s.loose, c, f, lt);
      sibling := Sibling(s.cells, node);
    }
    c := PayShortage(s, node, sibling, c, f, lt);
    again := false;
  }

  /** The fix-up before a childless black node is unlinked. The node x stays in
      place; on return the path around it takes an empty subtree instead. */
  method BalanceRemove(s: Store, node0: Ptr, ghost c0: Ctx, ghost x: Tree) returns (ghost c': Ctx)
    requires s.linked && s.At(c0, x) && x.Node? && node0 == x.n.id && Takes(c0, 1, BLACK)
    modifies s`cells, s`root
    ensures s.cells.Keys == old(s.cells.Keys)
    ensures s.At(c', x) && Takes(c', 0, BLACK) && SameSides(c0, c')
  {
    var node := node0;
    ghost var inner, c := Top, c0;
    while true
      invariant s.cells.Keys == old(s.cells.Keys)
      invariant s.At(c, Plug(inner, x)) && Plug(inner, x).Node? && node == Plug(inner, x).n.id
      invariant Short(c, Plug(inner, Leaf)) && SameSides(c0, Append(inner, c))
      decreases c
    {
      ghost var f := Plug(inner, x);
      HoleSide(s.cells, s.root, true, s.loose, c, f);
      // A shortage at the root is one of the whole tree, so there is none.
      if s.cells[node].parent == NULL {
        break;
      }
      SidesAppend(inner, c);
      var again;
      again, c := BalanceRemoveRound(s, node, c, f, Plug(inner, Leaf));
      SidesAppend(inner, c);
      if !again {
        break;
      }
      HoleSide(s.cells, s.root, true, s.loose, c, f);
      s.ZipUp(c, f);
      ClimbOne(inner, c, x, Leaf);
      node := s.cells[node].parent;
      inner, c := Append(inner, Alone(c)), c.up;
    }
    ShortageGone(inner, c);
    s.ZipMany(inner, c, x);
    c' := Append(inner, c);
  }

  // ---- the two operations ----

  lemma {:induction false} RbStrip(t: Tree)
    ensures Rb(Strip(t)) <==> Rb(t)
    ensures BlackHeight(Strip(t)) == BlackHeight(t) && Color(Strip(t)) == Color(t)
  {
    if t.Node? {
      RbStrip(t.left);
      RbStrip(t.right);
    }
  }

  /** Insert or replace: a red-black tree again, reading as Put says. */
  method Insert(s: Store, key: Key, value: Value, ghost t: Tree) returns (inserted: bool, ghost t': Tree)
    requires s.linked && s.At(Top, t) && RbTree(t) && Sorted(Inorder(t))
    modifies s`cells, s`root, s`log
    ensures s.At(Top, t') && RbTree(t')
    ensures Inorder(t') == Put(Inorder(t), key, value)
    ensures inserted <==> Get(Inorder(t), key).None?
    ensures s.log == old(s.log) + if inserted then [] else s.Destroyed(Get(Inorder(t), key).value)
  {
    hide Inorder, Separate, Ids, Put, Get;
    var slot, parent, cur;
    ghost var c, x;
    slot, parent, cur, c, x := s.Find(key, t);
    RbThroughZipper(c, x);
    if cur != NULL {
      FoundIs(c, x, key, value);
      s.Overwrite(cur, key, value, c, x);
      ghost var x' := Node(x.n.(key := key, value := value), x.left, x.right);
      RbThroughZipper(c, x');
      s.ZipTop(c, x');
      return false, Plug(c, x');
    }
    var node := s.Graft(slot, key, value, parent, RED, c);
    ghost var n := Label(node, key, value, RED);
    GraftIsPut(c, n);
    t' := BalanceInsert(s, node, c, Node(n, Leaf, Leaf));
    inserted := true;
  }

  /** Remove: a red-black tree again, reading as Del says; one node is freed. */
  method Remove(s: Store, key: Key, ghost t: Tree)
    returns (removed: bool, ghost t': Tree, ghost freed: Ptr)
    requires s.linked && s.At(Top, t) && RbTree(t) && Sorted(Inorder(t))
    modifies s`cells, s`root, s`log, s`loose
    ensures s.At(Top, t') && RbTree(t') && s.loose == old(s.loose)
    ensures Inorder(t') == Del(Inorder(t), key)
    ensures removed <==> Get(Inorder(t), key).Some?
    ensures !removed ==> s.log == old(s.log)
    ensures removed ==>
      && freed in old(s.cells) && s.cells.Keys == old(s.cells.Keys) - {freed} && Locate(t, key).Node?
      && s.log == old(s.log) + s.Destroyed(PairOf(Victim(Locate(t, key)))) + [NodeFreed(freed)]
  {
    var slot, parent, cur;
    ghost var c, x;
    slot, parent, cur, c, x := s.Find(key, t);
    if cur == NULL {
      PlugInorder(c, Leaf);
      Narrow(Before(c), [], After(c), key, 0);
      return false, t, NULL;
    }
    FoundIs(c, x, key, 0);
    ghost var c', x';
    cur, slot, c', x' := s.Select(cur, slot, c, x);
    RbStrip(Plug(c, x));
    RbStrip(Plug(c', x'));
    RbThroughZipper(c', x');
    t' := RemoveSelected(s, cur, c', x');
    removed, freed := true, cur;
  }

  /** A node with one child is black and the child a red leaf-like node. */
  lemma {:induction false} OneChild(x: Tree)
    requires Rb(x) && x.Node? && (x.left.Leaf? || x.right.Leaf?) && OnlyChild(x).Node?
    ensures x.n.mark == BLACK && OnlyChild(x).n.mark == RED
    ensures Rb(Remark(OnlyChild(x), BLACK)) && BlackHeight(Remark(OnlyChild(x), BLACK)) == BlackHeight(x)
  {
  }

  lemma {:induction false} Unlinked(c0: Ctx, c: Ctx, x: Tree, y: Tree)
    requires x.Node? && Rb(x) && Takes(c0, BlackHeight(x), Color(x)) && (x.left.Leaf? || x.right.Leaf?)
    requires OnlyChild(x).Leaf? && x.n.mark == BLACK ==> y == Leaf && Takes(c, 0, BLACK) && SameSides(c0, c)
    requires OnlyChild(x).Leaf? && x.n.mark == RED ==> y == Leaf && c == c0
    requires OnlyChild(x).Node? ==> y == Remark(OnlyChild(x), BLACK) && c == c0
    ensures RbTree(Plug(c, y))
    ensures Inorder(Plug(c, y)) == Before(c0) + Inorder(x.left) + Inorder(x.right) + After(c0)
  {
    if OnlyChild(x).Node? {
      OneChild(x);
    } else if x.n.mark == RED {
      BlackAlwaysFits(c, 0, RED);
    }
    RbThroughZipper(c, y);
    PlugInorder(c, y);
    OnlyChildInorder(Before(c0), x, After(c0));
  }

  /** The node hands its place to its child, which is repainted if the node was black. */
  method Bypass(s: Store, cur: Ptr, child: Ptr, ghost c: Ctx, ghost x: Tree) returns (ghost y: Tree)
    requires s.linked && s.At(c, x) && x.Node? && cur == x.n.id && (x.left.Leaf? || x.right.Leaf?)
    requires child == Root(OnlyChild(x)) && Rb(x)
    modifies s`cells, s`root, s`loose
    ensures s.At(c, y) && s.loose == old(s.loose) + {cur} && s.cells.Keys == old(s.cells.Keys)
    ensures y == if OnlyChild(x).Leaf? then Leaf else Remark(OnlyChild(x), BLACK)
    ensures cur in s.cells && Pair(s.cells[cur].key, s.cells[cur].value) == PairOf(x.n)
  {
    y := OnlyChild(x);
    if y.Node? {
      OneChild(x);
    }
    ReprIds(s.cells, y, cur, true);
    s.Unlink(cur, child, c, x);
    if child != NULL {
      if IsBlack(s.cells, cur) {
        s.SetMark(child, BLACK, c, y);
        y := Remark(y, BLACK);
      }
    }
  }

  /** The selected node, with at most one child, is taken out and freed. */
  method RemoveSelected(s: Store, cur: Ptr, ghost c0: Ctx, ghost x: Tree) returns (ghost t': Tree)
    requires s.linked && s.At(c0, x) && x.Node? && cur == x.n.id && (x.left.Leaf? || x.right.Leaf?)
    requires Rb(x) && Takes(c0, BlackHeight(x), Color(x))
    modifies s`cells, s`root, s`log, s`loose
    ensures s.At(Top, t') && RbTree(t') && s.loose == old(s.loose)
    ensures Inorder(t') == Before(c0) + Inorder(x.left) + Inorder(x.right) + After(c0)
    ensures cur in old(s.cells) && s.cells.Keys == old(s.cells.Keys) - {cur}
    ensures s.log == old(s.log) + s.Destroyed(PairOf(x.n)) + [NodeFreed(cur)]
  {
    ghost var c, y := c0, Leaf;
    ReprIds(s.cells, x.left, cur, true);
    ReprIds(s.cells, x.right, cur, true);
    var child := if s.cells[cur].left == NULL then s.cells[cur].right else s.cells[cur].left;
    if child == NULL && IsBlack(s.cells, cur) {
      c := BalanceRemove(s, cur, c, x);
    }
    y := Bypass(s, cur, child, c, x);
    s.Discard(cur, c, y);
    Unlinked(c0, c, x, y);
    s.ZipTop(c, y);
    t' := Plug(c, y);
  }
}
