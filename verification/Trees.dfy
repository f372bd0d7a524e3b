/** The memory picture shared by the three tree variants: cells reached by raw
    pointers, the inductive tree they spell out, and the zipper (a subtree plus
    the path back to the root) on which every in-place step is specified. */
module Trees {

  type Ptr = nat

  const NULL: Ptr := 0

  /** A key is a caller pointer together with the place its comparator gives it;
      two different pointers may share a place. */
  datatype Key = Key(rank: int, handle: int)

  type Value = int

  /** compare_func: only the sign matters. */
  function Compare(a: Key, b: Key): int {
    a.rank - b.rank
  }

  /** One allocated node: the base fields, then the parent link and the extra
      word of the balanced variants (colour or balance factor). */
  datatype Cell = Cell(left: Ptr, right: Ptr, key: Key, value: Value, parent: Ptr, mark: int)

  type Heap = map<Ptr, Cell>

  // ---- single field writes ----

  function WithLeft(h: Heap, p: Ptr, q: Ptr): Heap
    requires p in h
  {
    h[p := h[p].(left := q)]
  }

  function WithRight(h: Heap, p: Ptr, q: Ptr): Heap
    requires p in h
  {
    h[p := h[p].(right := q)]
  }

  function WithParent(h: Heap, p: Ptr, q: Ptr): Heap
    requires p in h
  {
    h[p := h[p].(parent := q)]
  }

  /** What a node says about itself. */
  datatype Label = Label(id: Ptr, key: Key, value: Value, mark: int)

  datatype Pair = Pair(key: Key, value: Value)

  datatype Tree = Leaf | Node(n: Label, left: Tree, right: Tree)

  /** The path from a subtree up to the root. */
  datatype Ctx =
    | Top
    | InLeft(n: Label, right: Tree, up: Ctx)
    | InRight(n: Label, left: Tree, up: Ctx)

  function Root(t: Tree): Ptr {
    if t.Leaf? then NULL else t.n.id
  }

  function Up(c: Ctx): Ptr {
    if c.Top? then NULL else c.n.id
  }

  /** The root pointer of the whole tree when the hole is filled by `hole`. */
  function RootOf(c: Ctx, hole: Ptr): Ptr {
    if c.Top? then hole else RootOf(c.up, c.n.id)
  }

  function Plug(c: Ctx, t: Tree): Tree {
    match c
    case Top => t
    case InLeft(n, r, up) => Plug(up, Node(n, t, r))
    case InRight(n, l, up) => Plug(up, Node(n, l, t))
  }

  /** inner, continued by outer */
  function Append(inner: Ctx, outer: Ctx): Ctx {
    match inner
    case Top => outer
    case InLeft(n, r, up) => InLeft(n, r, Append(up, outer))
    case InRight(n, l, up) => InRight(n, l, Append(up, outer))
  }

  // ---- neighbours of the hole ----

  /** The subtree at the parent of the hole, the hole filled by t. */
  function Over(c: Ctx, t: Tree): Tree
    requires !c.Top?
  {
    if c.InLeft? then Node(c.n, t, c.right) else Node(c.n, c.left, t)
  }

  /** The sibling of the hole. */
  function Other(c: Ctx): Tree
    requires !c.Top?
  {
    if c.InLeft? then c.right else c.left
  }

  /** The path with another mark on the node above the hole. */
  function Repaint(c: Ctx, m: int): Ctx
    requires !c.Top?
  {
    if c.InLeft? then InLeft(c.n.(mark := m), c.right, c.up) else InRight(c.n.(mark := m), c.left, c.up)
  }

  /** The node above the hole alone, cut off from the rest of the path. */
  function Alone(c: Ctx): Ctx
    requires !c.Top?
  {
    if c.InLeft? then InLeft(c.n, c.right, Top) else InRight(c.n, c.left, Top)
  }

  /** The path with another sibling. */
  function WithOther(c: Ctx, o: Tree): Ctx
    requires !c.Top?
  {
    if c.InLeft? then InLeft(c.n, o, c.up) else InRight(c.n, o, c.up)
  }

  /** The children of the sibling, the one next to the hole and the one beyond. */
  function Near(c: Ctx): Tree
    requires !c.Top? && Other(c).Node?
  {
    if c.InLeft? then c.right.left else c.left.right
  }

  function Far(c: Ctx): Tree
    requires !c.Top? && Other(c).Node?
  {
    if c.InLeft? then c.right.right else c.left.left
  }

  /** The path with another sibling whose children are given by nearness. */
  function WithOtherNode(c: Ctx, n: Label, near: Tree, far: Tree): Ctx
    requires !c.Top?
  {
    WithOther(c, if c.InLeft? then Node(n, near, far) else Node(n, far, near))
  }

  /** The path after the parent is rotated towards the hole: the sibling is above it. */
  function Lift(c: Ctx): Ctx
    requires !c.Top? && Other(c).Node?
  {
    if c.InLeft? then InLeft(c.n, Near(c), InLeft(c.right.n, Far(c), c.up))
    else InRight(c.n, Near(c), InRight(c.left.n, Far(c), c.up))
  }

  /** The path to the sibling, the hole filled by t. */
  function Across(c: Ctx, t: Tree): Ctx
    requires !c.Top?
  {
    if c.InLeft? then InRight(c.n, t, c.up) else InLeft(c.n, t, c.up)
  }

  function Ids(t: Tree): set<Ptr> {
    if t.Leaf? then {} else {t.n.id} + Ids(t.left) + Ids(t.right)
  }

  function CtxIds(c: Ctx): set<Ptr> {
    match c
    case Top => {}
    case InLeft(n, r, up) => {n.id} + Ids(r) + CtxIds(up)
    case InRight(n, l, up) => {n.id} + Ids(l) + CtxIds(up)
  }

  predicate Separate(t: Tree) {
    t.Node? ==>
      && t.n.id !in Ids(t.left) && t.n.id !in Ids(t.right)
      && Ids(t.left) !! Ids(t.right)
      && Separate(t.left) && Separate(t.right)
  }

  predicate SeparateCtx(c: Ctx) {
    match c
    case Top => true
    case InLeft(n, r, up) =>
      && n.id !in Ids(r) && n.id !in CtxIds(up)
      && Ids(r) !! CtxIds(up)
      && Separate(r) && SeparateCtx(up)
    case InRight(n, l, up) =>
      && n.id !in Ids(l) && n.id !in CtxIds(up)
      && Ids(l) !! CtxIds(up)
      && Separate(l) && SeparateCtx(up)
  }

  function PairOf(n: Label): Pair {
    Pair(n.key, n.value)
  }

  function Inorder(t: Tree): seq<Pair> {
    if t.Leaf? then [] else Inorder(t.left) + [PairOf(t.n)] + Inorder(t.right)
  }

  function Before(c: Ctx): seq<Pair> {
    match c
    case Top => []
    case InLeft(n, r, up) => Before(up)
    case InRight(n, l, up) => Before(up) + Inorder(l) + [PairOf(n)]
  }

  function After(c: Ctx): seq<Pair> {
    match c
    case Top => []
    case InLeft(n, r, up) => [PairOf(n)] + Inorder(r) + After(up)
    case InRight(n, l, up) => After(up)
  }

  function Size(t: Tree): nat {
    if t.Leaf? then 0 else 1 + Size(t.left) + Size(t.right)
  }

  function Max(a: int, b: int): int {
    if a < b then b else a
  }

  function Height(t: Tree): nat {
    if t.Leaf? then 0 else 1 + Max(Height(t.left), Height(t.right))
  }

  // ---- the heap spells out a tree ----

  predicate Spells(c: Cell, n: Label, l: Ptr, r: Ptr, par: Ptr, linked: bool) {
    && c.left == l && c.right == r
    && c.key == n.key && c.value == n.value && c.mark == n.mark
    && (linked ==> c.parent == par)
  }

  /** The cells of t are in h, joined as t says; `linked` adds that parent links
      are the inverse of child links (the plain variant has none). */
  predicate Repr(h: Heap, t: Tree, par: Ptr, linked: bool) {
    t.Node? ==>
      && t.n.id != NULL && t.n.id in h
      && Spells(h[t.n.id], t.n, Root(t.left), Root(t.right), par, linked)
      && Repr(h, t.left, t.n.id, linked) && Repr(h, t.right, t.n.id, linked)
  }

  predicate ReprCtx(h: Heap, c: Ctx, hole: Ptr, linked: bool) {
    match c
    case Top => true
    case InLeft(n, r, up) =>
      && n.id != NULL && n.id in h
      && Spells(h[n.id], n, hole, Root(r), Up(up), linked)
      && Repr(h, r, n.id, linked) && ReprCtx(h, up, n.id, linked)
    case InRight(n, l, up) =>
      && n.id != NULL && n.id in h
      && Spells(h[n.id], n, Root(l), hole, Up(up), linked)
      && Repr(h, l, n.id, linked) && ReprCtx(h, up, n.id, linked)
  }

  /** h and root hold exactly the tree Plug(c, t) and, outside it, the nodes of
      `loose`: nothing is shared, nothing leaks. */
  predicate Holds(h: Heap, root: Ptr, linked: bool, loose: set<Ptr>, c: Ctx, t: Tree) {
    && Repr(h, t, Up(c), linked) && ReprCtx(h, c, Root(t), linked)
    && Separate(t) && SeparateCtx(c) && Ids(t) !! CtxIds(c)
    && h.Keys == Ids(t) + CtxIds(c) + loose
    && Ids(t) !! loose && CtxIds(c) !! loose && NULL !in h
    && root == RootOf(c, Root(t))
  }

  // ---- frames ----

  lemma {:induction false} ReprIds(h: Heap, t: Tree, par: Ptr, linked: bool)
    requires Repr(h, t, par, linked)
    ensures Ids(t) <= h.Keys && NULL !in Ids(t)
    ensures Root(t) == NULL <==> t.Leaf?
    ensures t.Node? ==> Root(t) in Ids(t)
  {
    if t.Node? {
      ReprIds(h, t.left, t.n.id, linked);
      ReprIds(h, t.right, t.n.id, linked);
    }
  }

  lemma {:induction false} CtxReprIds(h: Heap, c: Ctx, hole: Ptr, linked: bool)
    requires ReprCtx(h, c, hole, linked)
    ensures CtxIds(c) <= h.Keys && NULL !in CtxIds(c)
    ensures Up(c) == NULL <==> c.Top?
    ensures !c.Top? ==> Up(c) in CtxIds(c)
  {
    match c
    case Top =>
    case InLeft(n, r, up) => ReprIds(h, r, n.id, linked); CtxReprIds(h, up, n.id, linked);
    case InRight(n, l, up) => ReprIds(h, l, n.id, linked); CtxReprIds(h, up, n.id, linked);
  }

  /** Two heaps that agree on a set of addresses. */
  predicate Agree(h: Heap, g: Heap, s: set<Ptr>) {
    forall p | p in s :: p in h && p in g && h[p] == g[p]
  }

  lemma {:induction false} Frame(h: Heap, g: Heap, t: Tree, par: Ptr, linked: bool)
    requires Repr(h, t, par, linked) && Agree(h, g, Ids(t))
    ensures Repr(g, t, par, linked)
  {
    if t.Node? {
      Frame(h, g, t.left, t.n.id, linked);
      Frame(h, g, t.right, t.n.id, linked);
    }
  }

  lemma {:induction false} FrameCtx(h: Heap, g: Heap, c: Ctx, hole: Ptr, linked: bool)
    requires ReprCtx(h, c, hole, linked) && Agree(h, g, CtxIds(c))
    ensures ReprCtx(g, c, hole, linked)
  {
    match c
    case Top =>
    case InLeft(n, r, up) => Frame(h, g, r, n.id, linked); FrameCtx(h, g, up, n.id, linked);
    case InRight(n, l, up) => Frame(h, g, l, n.id, linked); FrameCtx(h, g, up, n.id, linked);
  }

  /** t moves under a new parent: only its root cell's parent field differs. */
  lemma {:induction false} Reparent(h: Heap, g: Heap, t: Tree, par: Ptr, par': Ptr, linked: bool)
    requires Repr(h, t, par, linked) && Separate(t)
    requires Agree(h, g, Ids(t) - {Root(t)})
    requires t.Node? ==> Root(t) in g && g[Root(t)] == h[Root(t)].(parent := par')
    ensures Repr(g, t, par', linked)
  {
    if t.Node? {
      Frame(h, g, t.left, t.n.id, linked);
      Frame(h, g, t.right, t.n.id, linked);
    }
  }

  lemma {:induction false} RootOfHole(c: Ctx, p: Ptr, q: Ptr)
    ensures !c.Top? ==> RootOf(c, p) == RootOf(c, q)
  {
  }

  /** The cell above the hole after its child link is redirected. */
  function Redirect(c: Ctx, cell: Cell, hole: Ptr): Cell {
    if c.InLeft? then cell.(left := hole) else cell.(right := hole)
  }

  /** The hole of c is redirected: only the cell above it differs. */
  lemma {:induction false} Rehole(h: Heap, g: Heap, c: Ctx, hole: Ptr, hole': Ptr, linked: bool)
    requires ReprCtx(h, c, hole, linked) && SeparateCtx(c)
    requires Agree(h, g, CtxIds(c) - {Up(c)})
    requires !c.Top? ==> Up(c) in g && g[Up(c)] == Redirect(c, h[Up(c)], hole')
    ensures ReprCtx(g, c, hole', linked)
  {
    match c
    case Top =>
    case InLeft(n, r, up) => Frame(h, g, r, n.id, linked); FrameCtx(h, g, up, n.id, linked);
    case InRight(n, l, up) => Frame(h, g, l, n.id, linked); FrameCtx(h, g, up, n.id, linked);
  }

  /** The cell above the focus tells on which side the focus hangs. */
  lemma {:induction false} HoleSide(h: Heap, root: Ptr, linked: bool, loose: set<Ptr>, c: Ctx, t: Tree)
    requires Holds(h, root, linked, loose, c, t) && t.Node?
    ensures t.n.id in h && (linked ==> h[t.n.id].parent == Up(c))
    ensures Up(c) == NULL <==> c.Top?
    ensures !c.Top? ==>
      && Up(c) in h && Up(c) !in Ids(t)
      && (c.InLeft? <==> h[Up(c)].left == t.n.id)
      && (c.InRight? <==> h[Up(c)].right == t.n.id)
  {
    ReprIds(h, t, Up(c), linked);
    CtxReprIds(h, c, t.n.id, linked);
    match c
    case Top =>
    case InLeft(n, r, up) => ReprIds(h, r, n.id, linked);
    case InRight(n, l, up) => ReprIds(h, l, n.id, linked);
  }

  /** What the code finds when it looks for the sibling and its children. */
  lemma {:induction false} SiblingCells(h: Heap, root: Ptr, linked: bool, loose: set<Ptr>, c: Ctx, t: Tree)
    requires Holds(h, root, linked, loose, c, t) && t.Node? && !c.Top? && Other(c).Node?
    ensures c.n.id in h && h[c.n.id].mark == c.n.mark
    ensures var o := Other(c).n.id;
      && o == (if h[c.n.id].left == t.n.id then h[c.n.id].right else h[c.n.id].left)
      && o in h && h[o].mark == Other(c).n.mark
      && h[o].left == Root(Other(c).left) && h[o].right == Root(Other(c).right)
    ensures forall s | s in {Near(c), Far(c)} ::
      && (Root(s) == NULL <==> s.Leaf?)
      && (s.Node? ==> Root(s) in h && h[Root(s)].mark == s.n.mark)
  {
    HoleSide(h, root, linked, loose, c, t);
    var o := Other(c);
    assert Repr(h, o, c.n.id, linked);
    ReprIds(h, o.left, o.n.id, linked);
    ReprIds(h, o.right, o.n.id, linked);
  }

  // ---- moving the focus ----

  /** Moving the focus one step down or up does not change what is held. */
  lemma {:induction false} ZipLeft(h: Heap, root: Ptr, linked: bool, loose: set<Ptr>, c: Ctx, n: Label, l: Tree,
                                   r: Tree)
    ensures Holds(h, root, linked, loose, c, Node(n, l, r)) <==> Holds(h, root, linked, loose, InLeft(n, r, c), l)
  {
    assert Ids(Node(n, l, r)) + CtxIds(c) == Ids(l) + CtxIds(InLeft(n, r, c));
  }

  lemma {:induction false} ZipRight(h: Heap, root: Ptr, linked: bool, loose: set<Ptr>, c: Ctx, n: Label, l: Tree,
                                    r: Tree)
    ensures Holds(h, root, linked, loose, c, Node(n, l, r)) <==> Holds(h, root, linked, loose, InRight(n, l, c), r)
  {
    assert Ids(Node(n, l, r)) + CtxIds(c) == Ids(r) + CtxIds(InRight(n, l, c));
  }

  lemma {:induction false} ZipMany(h: Heap, root: Ptr, linked: bool, loose: set<Ptr>, inner: Ctx, c: Ctx, t: Tree)
    ensures Holds(h, root, linked, loose, Append(inner, c), t) <==> Holds(h, root, linked, loose, c, Plug(inner, t))
    decreases inner
  {
    match inner
    case Top =>
    case InLeft(n, r, up) =>
      ZipLeft(h, root, linked, loose, Append(up, c), n, t, r);
      ZipMany(h, root, linked, loose, up, c, Node(n, t, r));
    case InRight(n, l, up) =>
      ZipRight(h, root, linked, loose, Append(up, c), n, l, t);
      ZipMany(h, root, linked, loose, up, c, Node(n, l, t));
  }

  lemma {:induction false} Middle<T>(b: seq<T>, l: seq<T>, m: seq<T>, r: seq<T>, a: seq<T>)
    ensures b + (l + m + r) + a == (b + l) + m + (r + a)
    ensures m == [] ==> (b + l) + m + (r + a) == b + l + r + a
  {
  }

  /** In-order reading of a tree seen through the zipper. */
  lemma {:induction false} PlugInorder(c: Ctx, t: Tree)
    ensures Inorder(Plug(c, t)) == Before(c) + Inorder(t) + After(c)
    decreases c
  {
    match c
    case Top =>
    case InLeft(n, r, up) => PlugInorder(up, Node(n, t, r));
    case InRight(n, l, up) => PlugInorder(up, Node(n, l, t));
  }

  /** Replacing the focus by a subtree that reads the same changes no reading. */
  lemma {:induction false} PlugSame(c: Ctx, t: Tree, t': Tree)
    requires Inorder(t) == Inorder(t')
    ensures Inorder(Plug(c, t)) == Inorder(Plug(c, t'))
  {
    PlugInorder(c, t);
    PlugInorder(c, t');
  }

  lemma {:induction false} AppendTop(c: Ctx)
    ensures Append(c, Top) == c
  {
    if !c.Top? {
      AppendTop(c.up);
    }
  }

  lemma {:induction false} AppendAssoc(a: Ctx, b: Ctx, c: Ctx)
    ensures Append(Append(a, b), c) == Append(a, Append(b, c))
  {
    if !a.Top? {
      AppendAssoc(a.up, b, c);
    }
  }

  lemma {:induction false} PlugAppend(inner: Ctx, outer: Ctx, t: Tree)
    ensures Plug(Append(inner, outer), t) == Plug(outer, Plug(inner, t))
    decreases inner
  {
    match inner
    case Top =>
    case InLeft(n, r, up) => PlugAppend(up, outer, Node(n, t, r));
    case InRight(n, l, up) => PlugAppend(up, outer, Node(n, l, t));
  }

  /** Moves one node from the path above into the path below. */
  lemma {:induction false} ClimbOne(inner: Ctx, c: Ctx, x: Tree, lx: Tree)
    requires !c.Top?
    ensures var inner' := Append(inner, Alone(c));
      && Append(inner', c.up) == Append(inner, c)
      && Plug(inner', x) == Over(c, Plug(inner, x))
      && Plug(inner', lx) == Over(c, Plug(inner, lx))
  {
    AppendAssoc(inner, Alone(c), c.up);
    PlugAppend(inner, Alone(c), x);
    PlugAppend(inner, Alone(c), lx);
  }

  lemma {:induction false} SidesAppend(inner: Ctx, outer: Ctx)
    ensures Before(Append(inner, outer)) == Before(outer) + Before(inner)
    ensures After(Append(inner, outer)) == After(inner) + After(outer)
  {
    if !inner.Top? {
      SidesAppend(inner.up, outer);
    }
  }

  // ---- structure without contents ----

  function StripLabel(n: Label): Label {
    Label(n.id, Key(0, 0), 0, n.mark)
  }

  /** The addresses, joints and marks of a tree, keys and values forgotten. */
  function Strip(t: Tree): Tree {
    if t.Leaf? then Leaf else Node(StripLabel(t.n), Strip(t.left), Strip(t.right))
  }

  function StripCtx(c: Ctx): Ctx {
    match c
    case Top => Top
    case InLeft(n, r, up) => InLeft(StripLabel(n), Strip(r), StripCtx(up))
    case InRight(n, l, up) => InRight(StripLabel(n), Strip(l), StripCtx(up))
  }

  lemma {:induction false} StripPlug(c: Ctx, t: Tree)
    ensures Strip(Plug(c, t)) == Plug(StripCtx(c), Strip(t))
    decreases c
  {
    match c
    case Top =>
    case InLeft(n, r, up) => StripPlug(up, Node(n, t, r));
    case InRight(n, l, up) => StripPlug(up, Node(n, l, t));
  }

  lemma {:induction false} SomeFreshPtr(s: set<Ptr>)
    ensures exists p: Ptr :: p != NULL && p !in s
  {
    var b := Bound(s);
    assert b + 1 !in s;
  }

  lemma {:induction false} Bound(s: set<Ptr>) returns (b: nat)
    ensures forall p | p in s :: p <= b
  {
    if s == {} {
      b := 0;
    } else {
      var x :| x in s;
      var c := Bound(s - {x});
      b := Max(c, x);
      assert forall p | p in s :: p == x || p in s - {x};
    }
  }

  lemma {:induction false} SizeIsInorder(t: Tree)
    ensures |Inorder(t)| == Size(t)
  {
    if t.Node? {
      SizeIsInorder(t.left);
      SizeIsInorder(t.right);
    }
  }
}
