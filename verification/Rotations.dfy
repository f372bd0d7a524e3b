/** Single rotations, as tree shapes and as rewired cells. */
module Rotations {
  import opened Trees

  function Rotl(t: Tree): Tree
    requires t.Node? && t.right.Node?
  {
    Node(t.right.n, Node(t.n, t.left, t.right.left), t.right.right)
  }

  function Rotr(t: Tree): Tree
    requires t.Node? && t.left.Node?
  {
    Node(t.left.n, t.left.left, Node(t.n, t.left.right, t.right))
  }

  lemma {:induction false} RotlInorder(c: Ctx, t: Tree)
    requires t.Node? && t.right.Node?
    ensures Inorder(Plug(c, Rotl(t))) == Inorder(Plug(c, t))
  {
    var a, b, d := Inorder(t.left), Inorder(t.right.left), Inorder(t.right.right);
    var p, q := [PairOf(t.n)], [PairOf(t.right.n)];
    assert Inorder(t.right) == b + q + d;
    assert Inorder(t) == a + p + (b + q + d) == (a + p + b) + q + d;
    PlugSame(c, t, Rotl(t));
  }

  lemma {:induction false} RotrInorder(c: Ctx, t: Tree)
    requires t.Node? && t.left.Node?
    ensures Inorder(Plug(c, Rotr(t))) == Inorder(Plug(c, t))
  {
    var a, b, d := Inorder(t.left.left), Inorder(t.left.right), Inorder(t.right);
    var p, q := [PairOf(t.left.n)], [PairOf(t.n)];
    assert Inorder(t.left) == a + p + b;
    assert Inorder(t) == (a + p + b) + q + d == a + p + (b + q + d);
    PlugSame(c, t, Rotr(t));
  }


  /** The cells of h after the upper node `top` has gone under its child `low`:
      `mid` changes sides and the cell above is redirected. */
  predicate Rewired(h: Heap, g: Heap, c: Ctx, top: Ptr, top': Cell, low: Ptr, low': Cell, mid: Ptr) {
    && g.Keys == h.Keys && {top, low} <= g.Keys
    && g[top] == top' && g[low] == low'
    && (mid != NULL ==> mid in g && g[mid] == h[mid].(parent := top))
    && (!c.Top? ==> Up(c) in g && g[Up(c)] == Redirect(c, h[Up(c)], low))
    && forall p | p in h && p !in {top, low, mid, Up(c)} :: g[p] == h[p]
  }

  /** The cells a left rotation touches exist and are pairwise different. */
  predicate RotlReady(h: Heap, c: Ctx, t: Tree) {
    && t.Node? && t.right.Node?
    && var p, q, mid := t.n.id, t.right.n.id, Root(t.right.left);
    && p in h && h[p].right == q && h[p].parent == Up(c)
    && q in h && h[q].left == mid && h[q].parent == p
    && p != q && mid !in {p, q} && (mid != NULL ==> mid in h)
    && (Up(c) == NULL <==> c.Top?)
    && (!c.Top? ==> Up(c) in h && Up(c) !in {p, q, mid} && (c.InLeft? <==> h[Up(c)].left == p))
  }

  lemma {:induction false} RotlCells(h: Heap, root: Ptr, loose: set<Ptr>, c: Ctx, t: Tree)
    requires Holds(h, root, true, loose, c, t) && t.Node? && t.right.Node?
    ensures RotlReady(h, c, t)
  {
    var r := t.right;
    HoleSide(h, root, true, loose, c, t);
    RotlSeparate(t);
    ReprIds(h, r, t.n.id, true);
    ReprIds(h, r.left, r.n.id, true);
  }

  lemma {:induction false} RotlSeparate(t: Tree)
    requires t.Node? && t.right.Node? && Separate(t)
    ensures Separate(Rotl(t)) && Ids(Rotl(t)) == Ids(t)
    ensures Separate(t.right.left) && Separate(t.right.right)
    ensures Ids(t) == {t.n.id, t.right.n.id} + Ids(t.left) + Ids(t.right.left) + Ids(t.right.right)
    ensures Ids(t.left) !! Ids(t.right.left) !! Ids(t.right.right) !! {t.n.id, t.right.n.id}
  {
    assert Separate(t.right);
    assert Ids(t.right) == {t.right.n.id} + Ids(t.right.left) + Ids(t.right.right);
    assert Ids(Rotl(t).left) == {t.n.id} + Ids(t.left) + Ids(t.right.left);
  }

  predicate RotlCase(h: Heap, g: Heap, c: Ctx, t: Tree)
    requires t.Node? && t.right.Node?
  {
    && t.n.id in h && t.right.n.id in h
    && Rewired(h, g, c,
               t.n.id, h[t.n.id].(right := Root(t.right.left), parent := t.right.n.id),
               t.right.n.id, h[t.right.n.id].(left := t.n.id, parent := Up(c)),
               Root(t.right.left))
  }

  lemma {:induction false} RotlUnder(h: Heap, g: Heap, c: Ctx, t: Tree)
    requires t.Node? && t.right.Node? && RotlCase(h, g, c, t)
    requires Repr(h, t, Up(c), true) && Separate(t) && Up(c) !in Ids(t)
    ensures Repr(g, Rotl(t), Up(c), true)
  {
    var p, q, a, b, d := t.n.id, t.right.n.id, t.left, t.right.left, t.right.right;
    RotlSeparate(t);
    assert Repr(h, t.right, p, true);
    ReprIds(h, a, p, true);
    ReprIds(h, b, q, true);
    ReprIds(h, d, q, true);
    Frame(h, g, a, p, true);
    Reparent(h, g, b, q, p, true);
    Frame(h, g, d, q, true);
  }

  lemma {:induction false} RotlAbove(h: Heap, g: Heap, c: Ctx, t: Tree)
    requires t.Node? && t.right.Node? && RotlCase(h, g, c, t)
    requires ReprCtx(h, c, t.n.id, true) && SeparateCtx(c) && Ids(t) !! CtxIds(c)
    ensures ReprCtx(g, c, t.right.n.id, true)
  {
    CtxReprIds(h, c, t.n.id, true);
    var mid := Root(t.right.left);
    assert Ids(t.right) == {t.right.n.id} + Ids(t.right.left) + Ids(t.right.right);
    assert t.n.id in Ids(t) && t.right.n.id in Ids(t) && (mid != NULL ==> mid in Ids(t));
    Rehole(h, g, c, t.n.id, t.right.n.id, true);
  }

  lemma {:induction false} RotlHeap(h: Heap, root: Ptr, g: Heap, root': Ptr, loose: set<Ptr>, c: Ctx, t: Tree)
    requires Holds(h, root, true, loose, c, t) && t.Node? && t.right.Node?
    requires RotlCase(h, g, c, t)
    requires root' == if c.Top? then t.right.n.id else root
    ensures Holds(g, root', true, loose, c, Rotl(t)) && Agree(h, g, loose)
  {
    CtxReprIds(h, c, t.n.id, true);
    ReprIds(h, t, Up(c), true);
    RotlSeparate(t);
    assert NULL !in Ids(t) && (Root(t.right.left) != NULL ==> Root(t.right.left) in Ids(t.right.left));
    RotlUnder(h, g, c, t);
    RotlAbove(h, g, c, t);
    RootOfHole(c, t.n.id, t.right.n.id);
  }

  /** The cells a right rotation touches exist and are pairwise different. */
  predicate RotrReady(h: Heap, c: Ctx, t: Tree) {
    && t.Node? && t.left.Node?
    && var p, q, mid := t.n.id, t.left.n.id, Root(t.left.right);
    && p in h && h[p].left == q && h[p].parent == Up(c)
    && q in h && h[q].right == mid && h[q].parent == p
    && p != q && mid !in {p, q} && (mid != NULL ==> mid in h)
    && (Up(c) == NULL <==> c.Top?)
    && (!c.Top? ==> Up(c) in h && Up(c) !in {p, q, mid} && (c.InLeft? <==> h[Up(c)].left == p))
  }

  lemma {:induction false} RotrCells(h: Heap, root: Ptr, loose: set<Ptr>, c: Ctx, t: Tree)
    requires Holds(h, root, true, loose, c, t) && t.Node? && t.left.Node?
    ensures RotrReady(h, c, t)
  {
    var r := t.left;
    HoleSide(h, root, true, loose, c, t);
    RotrSeparate(t);
    ReprIds(h, r, t.n.id, true);
    ReprIds(h, r.right, r.n.id, true);
  }

  lemma {:induction false} RotrSeparate(t: Tree)
    requires t.Node? && t.left.Node? && Separate(t)
    ensures Separate(Rotr(t)) && Ids(Rotr(t)) == Ids(t)
    ensures Separate(t.left.right) && Separate(t.left.left)
    ensures Ids(t) == {t.n.id, t.left.n.id} + Ids(t.right) + Ids(t.left.right) + Ids(t.left.left)
    ensures Ids(t.right) !! Ids(t.left.right) !! Ids(t.left.left) !! {t.n.id, t.left.n.id}
  {
    assert Separate(t.left);
    assert Ids(t.left) == {t.left.n.id} + Ids(t.left.right) + Ids(t.left.left);
    assert Ids(Rotr(t).right) == {t.n.id} + Ids(t.right) + Ids(t.left.right);
  }

  predicate RotrCase(h: Heap, g: Heap, c: Ctx, t: Tree)
    requires t.Node? && t.left.Node?
  {
    && t.n.id in h && t.left.n.id in h
    && Rewired(h, g, c,
               t.n.id, h[t.n.id].(left := Root(t.left.right), parent := t.left.n.id),
               t.left.n.id, h[t.left.n.id].(right := t.n.id, parent := Up(c)),
               Root(t.left.right))
  }

  lemma {:induction false} RotrUnder(h: Heap, g: Heap, c: Ctx, t: Tree)
    requires t.Node? && t.left.Node? && RotrCase(h, g, c, t)
    requires Repr(h, t, Up(c), true) && Separate(t) && Up(c) !in Ids(t)
    ensures Repr(g, Rotr(t), Up(c), true)
  {
    var p, q, a, b, d := t.n.id, t.left.n.id, t.right, t.left.right, t.left.left;
    RotrSeparate(t);
    assert Repr(h, t.left, p, true);
    ReprIds(h, a, p, true);
    ReprIds(h, b, q, true);
    ReprIds(h, d, q, true);
    Frame(h, g, a, p, true);
    Reparent(h, g, b, q, p, true);
    Frame(h, g, d, q, true);
  }

  lemma {:induction false} RotrAbove(h: Heap, g: Heap, c: Ctx, t: Tree)
    requires t.Node? && t.left.Node? && RotrCase(h, g, c, t)
    requires ReprCtx(h, c, t.n.id, true) && SeparateCtx(c) && Ids(t) !! CtxIds(c)
    ensures ReprCtx(g, c, t.left.n.id, true)
  {
    CtxReprIds(h, c, t.n.id, true);
    var mid := Root(t.left.right);
    assert Ids(t.left) == {t.left.n.id} + Ids(t.left.right) + Ids(t.left.left);
    assert t.n.id in Ids(t) && t.left.n.id in Ids(t) && (mid != NULL ==> mid in Ids(t));
    Rehole(h, g, c, t.n.id, t.left.n.id, true);
  }

  lemma {:induction false} RotrHeap(h: Heap, root: Ptr, g: Heap, root': Ptr, loose: set<Ptr>, c: Ctx, t: Tree)
    requires Holds(h, root, true, loose, c, t) && t.Node? && t.left.Node?
    requires RotrCase(h, g, c, t)
    requires root' == if c.Top? then t.left.n.id else root
    ensures Holds(g, root', true, loose, c, Rotr(t)) && Agree(h, g, loose)
  {
    CtxReprIds(h, c, t.n.id, true);
    ReprIds(h, t, Up(c), true);
    RotrSeparate(t);
    assert NULL !in Ids(t) && (Root(t.left.right) != NULL ==> Root(t.left.right) in Ids(t.left.right));
    RotrUnder(h, g, c, t);
    RotrAbove(h, g, c, t);
    RootOfHole(c, t.n.id, t.left.n.id);
  }

  /** Rotating at the parent or re-marking around the hole moves no pair past it. */
  ghost predicate SameSides(c: Ctx, c': Ctx) {
    Before(c) == Before(c') && After(c) == After(c')
  }

  lemma {:induction false} LiftSides(c: Ctx)
    requires !c.Top? && Other(c).Node?
    ensures SameSides(c, Lift(c))
  {
    var o := Other(c);
    if c.InLeft? {
      Middle([PairOf(c.n)], Inorder(o.left), [PairOf(o.n)], Inorder(o.right), After(c.up));
    } else {
      Middle(Before(c.up), Inorder(o.left), [PairOf(o.n)], Inorder(o.right), [PairOf(c.n)]);
    }
  }

  /** The path after the sibling is rotated away from the hole. */
  function Turn(c: Ctx): Ctx
    requires !c.Top? && Other(c).Node? && Near(c).Node?
  {
    WithOther(c, if c.InLeft? then Rotr(c.right) else Rotl(c.left))
  }

  lemma {:induction false} TurnSides(c: Ctx)
    requires !c.Top? && Other(c).Node? && Near(c).Node?
    ensures SameSides(c, Turn(c))
  {
    if c.InLeft? {
      RotrInorder(Top, c.right);
    } else {
      RotlInorder(Top, c.left);
    }
  }

  // ---- double rotations ----

  /** The left child's right child comes out on top. */
  function Rotlr(t: Tree): Tree
    requires t.Node? && t.left.Node? && t.left.right.Node?
  {
    var low, m := t.left, t.left.right;
    Node(m.n, Node(low.n, low.left, m.left), Node(t.n, m.right, t.right))
  }

  lemma {:induction false} RotlrInorder(c: Ctx, t: Tree)
    requires t.Node? && t.left.Node? && t.left.right.Node?
    ensures Inorder(Plug(c, Rotlr(t))) == Inorder(Plug(c, t))
  {
    RotlInorder(InLeft(t.n, t.right, c), t.left);
    RotrInorder(c, Node(t.n, Rotl(t.left), t.right));
  }

  /** The cells after the double rotation: top, its child low, and the grandchild
      mid that rises above both, with its subtrees handed to low and top. */
  predicate RotlrCase(h: Heap, g: Heap, c: Ctx, t: Tree)
    requires t.Node? && t.left.Node? && t.left.right.Node?
  {
    var low, m := t.left, t.left.right;
    var i, j := Root(m.left), Root(m.right);
    && g.Keys == h.Keys && {t.n.id, low.n.id, m.n.id} <= h.Keys
    && g[t.n.id] == h[t.n.id].(left := j, parent := m.n.id)
    && g[low.n.id] == h[low.n.id].(right := i, parent := m.n.id)
    && g[m.n.id] == h[m.n.id].(left := low.n.id, right := t.n.id, parent := Up(c))
    && (i != NULL ==> i in h && g[i] == h[i].(parent := low.n.id))
    && (j != NULL ==> j in h && g[j] == h[j].(parent := t.n.id))
    && (!c.Top? ==> Up(c) in h && g[Up(c)] == Redirect(c, h[Up(c)], m.n.id))
    && forall p | p in h && p !in {t.n.id, low.n.id, m.n.id, i, j, Up(c)} :: g[p] == h[p]
  }

  lemma {:induction false} RotlrSeparate(t: Tree)
    requires t.Node? && t.left.Node? && t.left.right.Node? && Separate(t)
    ensures Separate(Rotlr(t)) && Ids(Rotlr(t)) == Ids(t)
    ensures var low, m := t.left, t.left.right;
      && Separate(low.left) && Separate(m.left) && Separate(m.right) && Separate(t.right)
      && t.n.id != low.n.id && t.n.id != m.n.id && low.n.id != m.n.id
      && Ids(low.left) !! Ids(m.left) !! Ids(m.right) !! Ids(t.right) !! {t.n.id, low.n.id, m.n.id}
      && Ids(t) == Ids(low.left) + Ids(m.left) + Ids(m.right) + Ids(t.right) + {t.n.id, low.n.id, m.n.id}
  {
    var u := Node(t.n, Rotl(t.left), t.right);
    assert Separate(t.left);
    RotlSeparate(t.left);
    assert Separate(u) && Ids(u) == Ids(t);
    RotrSeparate(u);
  }

  lemma {:induction false} RotlrRepr(h: Heap, t: Tree, par: Ptr)
    requires t.Node? && t.left.Node? && t.left.right.Node? && Repr(h, t, par, true)
    ensures var low, m := t.left, t.left.right;
      && Repr(h, low.left, low.n.id, true) && Repr(h, m.left, m.n.id, true)
      && Repr(h, m.right, m.n.id, true) && Repr(h, t.right, t.n.id, true)
      && {t.n.id, low.n.id, m.n.id} <= h.Keys && NULL !in {t.n.id, low.n.id, m.n.id}
      && h[t.n.id].left == low.n.id && h[low.n.id].right == m.n.id
      && Spells(h[t.n.id], t.n, low.n.id, Root(t.right), par, true)
      && Spells(h[low.n.id], low.n, Root(low.left), m.n.id, t.n.id, true)
      && Spells(h[m.n.id], m.n, Root(m.left), Root(m.right), low.n.id, true)
  {
    assert Repr(h, t.left, t.n.id, true);
    assert Repr(h, t.left.right, t.left.n.id, true);
  }

  /** The half of the result under the old child. */
  lemma {:induction false} RotlrLow(h: Heap, g: Heap, c: Ctx, t: Tree)
    requires t.Node? && t.left.Node? && t.left.right.Node? && RotlrCase(h, g, c, t)
    requires Repr(h, t, Up(c), true) && Separate(t) && Up(c) !in Ids(t)
    ensures Repr(g, Rotlr(t).left, t.left.right.n.id, true)
  {
    var low, m := t.left, t.left.right;
    RotlrSeparate(t);
    RotlrRepr(h, t, Up(c));
    ReprIds(h, low.left, low.n.id, true);
    ReprIds(h, m.left, m.n.id, true);
    ReprIds(h, m.right, m.n.id, true);
    Frame(h, g, low.left, low.n.id, true);
    Reparent(h, g, m.left, m.n.id, low.n.id, true);
  }

  /** The half of the result under the old top. */
  lemma {:induction false} RotlrTop(h: Heap, g: Heap, c: Ctx, t: Tree)
    requires t.Node? && t.left.Node? && t.left.right.Node? && RotlrCase(h, g, c, t)
    requires Repr(h, t, Up(c), true) && Separate(t) && Up(c) !in Ids(t)
    ensures Repr(g, Rotlr(t).right, t.left.right.n.id, true)
  {
    var m := t.left.right;
    RotlrSeparate(t);
    RotlrRepr(h, t, Up(c));
    ReprIds(h, m.left, m.n.id, true);
    ReprIds(h, m.right, m.n.id, true);
    ReprIds(h, t.right, t.n.id, true);
    Reparent(h, g, m.right, m.n.id, t.n.id, true);
    Frame(h, g, t.right, t.n.id, true);
  }

  lemma {:induction false} RotlrAbove(h: Heap, g: Heap, c: Ctx, t: Tree)
    requires t.Node? && t.left.Node? && t.left.right.Node? && RotlrCase(h, g, c, t)
    requires Separate(t) && ReprCtx(h, c, t.n.id, true) && SeparateCtx(c) && Ids(t) !! CtxIds(c)
    ensures ReprCtx(g, c, t.left.right.n.id, true)
  {
    CtxReprIds(h, c, t.n.id, true);
    RotlrSeparate(t);
    var m := t.left.right;
    assert Root(m.left) != NULL ==> Root(m.left) in Ids(m.left);
    assert Root(m.right) != NULL ==> Root(m.right) in Ids(m.right);
    Rehole(h, g, c, t.n.id, m.n.id, true);
  }

  lemma {:induction false} RotlrHeap(h: Heap, root: Ptr, g: Heap, root': Ptr, loose: set<Ptr>, c: Ctx, t: Tree)
    requires Holds(h, root, true, loose, c, t) && t.Node? && t.left.Node? && t.left.right.Node?
    requires RotlrCase(h, g, c, t)
    requires root' == if c.Top? then t.left.right.n.id else root
    ensures Holds(g, root', true, loose, c, Rotlr(t)) && Agree(h, g, loose)
  {
    CtxReprIds(h, c, t.n.id, true);
    ReprIds(h, t, Up(c), true);
    RotlrSeparate(t);
    var m := t.left.right;
    assert Root(m.left) != NULL ==> Root(m.left) in Ids(m.left);
    assert Root(m.right) != NULL ==> Root(m.right) in Ids(m.right);
    RotlrLow(h, g, c, t);
    RotlrTop(h, g, c, t);
    RotlrRepr(h, t, Up(c));
    RotlrAbove(h, g, c, t);
    RootOfHole(c, t.n.id, t.left.right.n.id);
  }

  predicate RotlrReady(h: Heap, c: Ctx, t: Tree) {
    && t.Node? && t.left.Node? && t.left.right.Node?
    && var top, low, m := t.n.id, t.left.n.id, t.left.right.n.id;
    && var i, j := Root(t.left.right.left), Root(t.left.right.right);
    && {top, low, m} <= h.Keys && top != low && top != m && low != m
    && h[top].left == low && h[top].parent == Up(c)
    && h[low].right == m && h[low].parent == top
    && h[m].left == i && h[m].right == j
    && (i != NULL ==> i in h && i !in {top, low, m, j, Up(c)})
    && (j != NULL ==> j in h && j !in {top, low, m, i, Up(c)})
    && NULL !in {top, low, m} && (Up(c) == NULL <==> c.Top?)
    && (!c.Top? ==> Up(c) in h && Up(c) !in {top, low, m} && (c.InLeft? <==> h[Up(c)].left == top))
  }

  lemma {:induction false} RotlrCells(h: Heap, root: Ptr, loose: set<Ptr>, c: Ctx, t: Tree)
    requires Holds(h, root, true, loose, c, t) && t.Node? && t.left.Node? && t.left.right.Node?
    ensures RotlrReady(h, c, t)
  {
    var m := t.left.right;
    HoleSide(h, root, true, loose, c, t);
    RotlrSeparate(t);
    RotlrRepr(h, t, Up(c));
    ReprIds(h, m.left, m.n.id, true);
    ReprIds(h, m.right, m.n.id, true);
  }

  /** The right child's left child comes out on top. */
  function Rotrl(t: Tree): Tree
    requires t.Node? && t.right.Node? && t.right.left.Node?
  {
    var low, m := t.right, t.right.left;
    Node(m.n, Node(t.n, t.left, m.left), Node(low.n, m.right, low.right))
  }

  lemma {:induction false} RotrlInorder(c: Ctx, t: Tree)
    requires t.Node? && t.right.Node? && t.right.left.Node?
    ensures Inorder(Plug(c, Rotrl(t))) == Inorder(Plug(c, t))
  {
    RotrInorder(InRight(t.n, t.left, c), t.right);
    RotlInorder(c, Node(t.n, t.left, Rotr(t.right)));
  }

  /** The cells after the double rotation: top, its child low, and the grandchild
      mid that rises above both, with its subtrees handed to low and top. */
  predicate RotrlCase(h: Heap, g: Heap, c: Ctx, t: Tree)
    requires t.Node? && t.right.Node? && t.right.left.Node?
  {
    var low, m := t.right, t.right.left;
    var i, j := Root(m.right), Root(m.left);
    && g.Keys == h.Keys && {t.n.id, low.n.id, m.n.id} <= h.Keys
    && g[t.n.id] == h[t.n.id].(right := j, parent := m.n.id)
    && g[low.n.id] == h[low.n.id].(left := i, parent := m.n.id)
    && g[m.n.id] == h[m.n.id].(right := low.n.id, left := t.n.id, parent := Up(c))
    && (i != NULL ==> i in h && g[i] == h[i].(parent := low.n.id))
    && (j != NULL ==> j in h && g[j] == h[j].(parent := t.n.id))
    && (!c.Top? ==> Up(c) in h && g[Up(c)] == Redirect(c, h[Up(c)], m.n.id))
    && forall p | p in h && p !in {t.n.id, low.n.id, m.n.id, i, j, Up(c)} :: g[p] == h[p]
  }

  lemma {:induction false} RotrlSeparate(t: Tree)
    requires t.Node? && t.right.Node? && t.right.left.Node? && Separate(t)
    ensures Separate(Rotrl(t)) && Ids(Rotrl(t)) == Ids(t)
    ensures var low, m := t.right, t.right.left;
      && Separate(low.right) && Separate(m.right) && Separate(m.left) && Separate(t.left)
      && t.n.id != low.n.id && t.n.id != m.n.id && low.n.id != m.n.id
      && Ids(low.right) !! Ids(m.right) !! Ids(m.left) !! Ids(t.left) !! {t.n.id, low.n.id, m.n.id}
      && Ids(t) == Ids(low.right) + Ids(m.right) + Ids(m.left) + Ids(t.left) + {t.n.id, low.n.id, m.n.id}
  {
    var u := Node(t.n, t.left, Rotr(t.right));
    assert Separate(t.right);
    RotrSeparate(t.right);
    assert Separate(u) && Ids(u) == Ids(t);
    RotlSeparate(u);
  }

  lemma {:induction false} RotrlRepr(h: Heap, t: Tree, par: Ptr)
    requires t.Node? && t.right.Node? && t.right.left.Node? && Repr(h, t, par, true)
    ensures var low, m := t.right, t.right.left;
      && Repr(h, low.right, low.n.id, true) && Repr(h, m.right, m.n.id, true)
      && Repr(h, m.left, m.n.id, true) && Repr(h, t.left, t.n.id, true)
      && {t.n.id, low.n.id, m.n.id} <= h.Keys && NULL !in {t.n.id, low.n.id, m.n.id}
      && h[t.n.id].right == low.n.id && h[low.n.id].left == m.n.id
      && Spells(h[t.n.id], t.n, Root(t.left), low.n.id, par, true)
      && Spells(h[low.n.id], low.n, m.n.id, Root(low.right), t.n.id, true)
      && Spells(h[m.n.id], m.n, Root(m.left), Root(m.right), low.n.id, true)
  {
    assert Repr(h, t.right, t.n.id, true);
    assert Repr(h, t.right.left, t.right.n.id, true);
  }

  /** The half of the result under the old child. */
  lemma {:induction false} RotrlLow(h: Heap, g: Heap, c: Ctx, t: Tree)
    requires t.Node? && t.right.Node? && t.right.left.Node? && RotrlCase(h, g, c, t)
    requires Repr(h, t, Up(c), true) && Separate(t) && Up(c) !in Ids(t)
    ensures Repr(g, Rotrl(t).right, t.right.left.n.id, true)
  {
    var low, m := t.right, t.right.left;
    RotrlSeparate(t);
    RotrlRepr(h, t, Up(c));
    ReprIds(h, low.right, low.n.id, true);
    ReprIds(h, m.right, m.n.id, true);
    ReprIds(h, m.left, m.n.id, true);
    Frame(h, g, low.right, low.n.id, true);
    Reparent(h, g, m.right, m.n.id, low.n.id, true);
  }

  /** The half of the result under the old top. */
  lemma {:induction false} RotrlTop(h: Heap, g: Heap, c: Ctx, t: Tree)
    requires t.Node? && t.right.Node? && t.right.left.Node? && RotrlCase(h, g, c, t)
    requires Repr(h, t, Up(c), true) && Separate(t) && Up(c) !in Ids(t)
    ensures Repr(g, Rotrl(t).left, t.right.left.n.id, true)
  {
    var m := t.right.left;
    RotrlSeparate(t);
    RotrlRepr(h, t, Up(c));
    ReprIds(h, m.right, m.n.id, true);
    ReprIds(h, m.left, m.n.id, true);
    ReprIds(h, t.left, t.n.id, true);
    Reparent(h, g, m.left, m.n.id, t.n.id, true);
    Frame(h, g, t.left, t.n.id, true);
  }

  lemma {:induction false} RotrlAbove(h: Heap, g: Heap, c: Ctx, t: Tree)
    requires t.Node? && t.right.Node? && t.right.left.Node? && RotrlCase(h, g, c, t)
    requires Separate(t) && ReprCtx(h, c, t.n.id, true) && SeparateCtx(c) && Ids(t) !! CtxIds(c)
    ensures ReprCtx(g, c, t.right.left.n.id, true)
  {
    CtxReprIds(h, c, t.n.id, true);
    RotrlSeparate(t);
    var m := t.right.left;
    assert Root(m.right) != NULL ==> Root(m.right) in Ids(m.right);
    assert Root(m.left) != NULL ==> Root(m.left) in Ids(m.left);
    Rehole(h, g, c, t.n.id, m.n.id, true);
  }

  lemma {:induction false} RotrlHeap(h: Heap, root: Ptr, g: Heap, root': Ptr, loose: set<Ptr>, c: Ctx, t: Tree)
    requires Holds(h, root, true, loose, c, t) && t.Node? && t.right.Node? && t.right.left.Node?
    requires RotrlCase(h, g, c, t)
    requires root' == if c.Top? then t.right.left.n.id else root
    ensures Holds(g, root', true, loose, c, Rotrl(t)) && Agree(h, g, loose)
  {
    CtxReprIds(h, c, t.n.id, true);
    ReprIds(h, t, Up(c), true);
    RotrlSeparate(t);
    var m := t.right.left;
    assert Root(m.left) != NULL ==> Root(m.left) in Ids(m.left);
    assert Root(m.right) != NULL ==> Root(m.right) in Ids(m.right);
    RotrlLow(h, g, c, t);
    RotrlTop(h, g, c, t);
    RotrlRepr(h, t, Up(c));
    RotrlAbove(h, g, c, t);
    RootOfHole(c, t.n.id, t.right.left.n.id);
  }

  predicate RotrlReady(h: Heap, c: Ctx, t: Tree) {
    && t.Node? && t.right.Node? && t.right.left.Node?
    && var top, low, m := t.n.id, t.right.n.id, t.right.left.n.id;
    && var i, j := Root(t.right.left.right), Root(t.right.left.left);
    && {top, low, m} <= h.Keys && top != low && top != m && low != m
    && h[top].right == low && h[top].parent == Up(c)
    && h[low].left == m && h[low].parent == top
    && h[m].right == i && h[m].left == j
    && (i != NULL ==> i in h && i !in {top, low, m, j, Up(c)})
    && (j != NULL ==> j in h && j !in {top, low, m, i, Up(c)})
    && NULL !in {top, low, m} && (Up(c) == NULL <==> c.Top?)
    && (!c.Top? ==> Up(c) in h && Up(c) !in {top, low, m} && (c.InLeft? <==> h[Up(c)].left == top))
  }

  lemma {:induction false} RotrlCells(h: Heap, root: Ptr, loose: set<Ptr>, c: Ctx, t: Tree)
    requires Holds(h, root, true, loose, c, t) && t.Node? && t.right.Node? && t.right.left.Node?
    ensures RotrlReady(h, c, t)
  {
    var m := t.right.left;
    HoleSide(h, root, true, loose, c, t);
    RotrlSeparate(t);
    RotrlRepr(h, t, Up(c));
    ReprIds(h, m.right, m.n.id, true);
    ReprIds(h, m.left, m.n.id, true);
  }
}
