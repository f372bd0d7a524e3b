/** The mutable side of a tree: the allocated cells, the root pointer and the
    log of destroy callbacks and frees. Reading or writing a pointer that is null
    or freed is a proof error, because it is not a key of `cells`. The parts of
    insert and remove that the three variants share are here. */
module TreeStore {
  import opened Trees
  import opened SortedList

  datatype Event =
    | KeyDestroyed(key: Key)
    | ValueDestroyed(value: Value)
    | NodeFreed(p: Ptr)

  /** A pointer to a pointer: the root pointer, or a child field of a cell. */
  datatype Slot = RootSlot | LeftSlot(p: Ptr) | RightSlot(p: Ptr)

  function SlotOf(c: Ctx): Slot {
    match c
    case Top => RootSlot
    case InLeft(n, _, _) => LeftSlot(n.id)
    case InRight(n, _, _) => RightSlot(n.id)
  }

  /** The rightmost node of a subtree: the in-order predecessor of its parent. */
  function Last(t: Tree): Label
    requires t.Node?
  {
    if t.right.Leaf? then t.n else Last(t.right)
  }

  /** The label whose node is unlinked when the root of t is to be removed. */
  function Victim(t: Tree): Label
    requires t.Node?
  {
    if t.left.Node? && t.right.Node? then Last(t.left) else t.n
  }

  /** Where the search for a key ends. */
  function Locate(t: Tree, k: Key): Tree {
    if t.Leaf? then Leaf
    else if Compare(k, t.n.key) < 0 then Locate(t.left, k)
    else if Compare(k, t.n.key) > 0 then Locate(t.right, k)
    else t
  }

  function Remark(t: Tree, m: int): Tree
    requires t.Node?
  {
    Node(t.n.(mark := m), t.left, t.right)
  }

  lemma {:induction false} NarrowLeft(c: Ctx, t: Tree, k: Key)
    requires Sorted(Inorder(Plug(c, t))) && t.Node? && Compare(k, t.n.key) < 0
    ensures Above(After(InLeft(t.n, t.right, c)), k)
  {
    PlugInorder(c, t);
    var b, a := Before(c) + Inorder(t.left), Inorder(t.right) + After(c);
    assert Inorder(Plug(c, t)) == b + [PairOf(t.n)] + a;
    SortedSplit(b, PairOf(t.n), a);
    assert After(InLeft(t.n, t.right, c)) == [PairOf(t.n)] + a;
  }

  lemma {:induction false} NarrowRight(c: Ctx, t: Tree, k: Key)
    requires Sorted(Inorder(Plug(c, t))) && t.Node? && Compare(k, t.n.key) > 0
    ensures Below(Before(InRight(t.n, t.left, c)), k)
  {
    PlugInorder(c, t);
    var b, a := Before(c) + Inorder(t.left), Inorder(t.right) + After(c);
    assert Inorder(Plug(c, t)) == b + [PairOf(t.n)] + a;
    SortedSplit(b, PairOf(t.n), a);
    assert Before(InRight(t.n, t.left, c)) == b + [PairOf(t.n)];
  }

  class Store {
    var cells: Heap
    var root: Ptr
    var log: seq<Event>
    const linked: bool
    const destroysKeys: bool
    const destroysValues: bool

    /** Nodes taken out of the tree and not freed yet. */
    ghost var loose: set<Ptr>

    ghost predicate At(c: Ctx, t: Tree)
      reads this
    {
      Holds(cells, root, linked, loose, c, t)
    }

    constructor (linked: bool, destroysKeys: bool, destroysValues: bool)
      ensures this.linked == linked && this.destroysKeys == destroysKeys && this.destroysValues == destroysValues
      ensures At(Top, Leaf) && log == [] && loose == {}
    {
      this.linked, this.destroysKeys, this.destroysValues := linked, destroysKeys, destroysValues;
      cells, root, log, loose := map[], NULL, [], {};
    }

    lemma {:induction false} ZipLeft(c: Ctx, n: Label, l: Tree, r: Tree)
      ensures At(c, Node(n, l, r)) <==> At(InLeft(n, r, c), l)
    {
      Trees.ZipLeft(cells, root, linked, loose, c, n, l, r);
    }

    lemma {:induction false} ZipRight(c: Ctx, n: Label, l: Tree, r: Tree)
      ensures At(c, Node(n, l, r)) <==> At(InRight(n, l, c), r)
    {
      Trees.ZipRight(cells, root, linked, loose, c, n, l, r);
    }

    lemma {:induction false} ZipUp(c: Ctx, t: Tree)
      requires !c.Top?
      ensures At(c, t) <==> At(c.up, Over(c, t))
      ensures Plug(c, t) == Plug(c.up, Over(c, t))
    {
      if c.InLeft? {
        ZipLeft(c.up, c.n, t, c.right);
      } else {
        ZipRight(c.up, c.n, c.left, t);
      }
    }

    lemma {:induction false} ZipAcross(c: Ctx, t: Tree)
      requires !c.Top?
      ensures At(c, t) <==> At(Across(c, t), Other(c))
      ensures Plug(c, t) == Plug(Across(c, t), Other(c))
    {
      ZipUp(c, t);
      ZipUp(Across(c, t), Other(c));
    }

    lemma {:induction false} ZipMany(inner: Ctx, c: Ctx, t: Tree)
      ensures At(Append(inner, c), t) <==> At(c, Plug(inner, t))
    {
      Trees.ZipMany(cells, root, linked, loose, inner, c, t);
    }

    lemma {:induction false} ZipTop(c: Ctx, t: Tree)
      ensures At(c, t) <==> At(Top, Plug(c, t))
    {
      AppendTop(c);
      ZipMany(c, Top, t);
    }

    // ---- single writes ----

    method SetLeft(p: Ptr, q: Ptr)
      requires p in cells
      modifies this`cells
      ensures cells == old(cells)[p := old(cells)[p].(left := q)]
    {
      cells := cells[p := cells[p].(left := q)];
    }

    method SetRight(p: Ptr, q: Ptr)
      requires p in cells
      modifies this`cells
      ensures cells == old(cells)[p := old(cells)[p].(right := q)]
    {
      cells := cells[p := cells[p].(right := q)];
    }

    method SetParent(p: Ptr, q: Ptr)
      requires p in cells
      modifies this`cells
      ensures cells == old(cells)[p := old(cells)[p].(parent := q)]
    {
      cells := cells[p := cells[p].(parent := q)];
    }

    method WriteSlot(slot: Slot, q: Ptr)
      requires !slot.RootSlot? ==> slot.p in cells
      modifies this`cells, this`root
      ensures slot.RootSlot? ==> cells == old(cells) && root == q
      ensures slot.LeftSlot? ==> root == old(root) && cells == old(cells)[slot.p := old(cells)[slot.p].(left := q)]
      ensures slot.RightSlot? ==> root == old(root) && cells == old(cells)[slot.p := old(cells)[slot.p].(right := q)]
    {
      match slot
      case RootSlot => root := q;
      case LeftSlot(p) => SetLeft(p, q);
      case RightSlot(p) => SetRight(p, q);
    }

    /** Writes the colour or balance factor of the node in focus. */
    method SetMark(p: Ptr, m: int, ghost c: Ctx, ghost t: Tree)
      requires At(c, t) && t.Node? && p == t.n.id
      modifies this`cells
      ensures At(c, Remark(t, m)) && cells == old(cells)[p := old(cells)[p].(mark := m)]
      ensures Inorder(Plug(c, Remark(t, m))) == Inorder(Plug(c, t))
      ensures Agree(old(cells), cells, loose)
    {
      PlugSame(c, t, Remark(t, m));
      ghost var h := cells;
      cells := cells[p := cells[p].(mark := m)];
      Frame(h, cells, t.left, p, linked);
      Frame(h, cells, t.right, p, linked);
      FrameCtx(h, cells, c, p, linked);
    }

    /** Writes key and value of the node in focus. */
    method SetPair(p: Ptr, k: Key, v: Value, ghost c: Ctx, ghost t: Tree)
      requires At(c, t) && t.Node? && p == t.n.id
      modifies this`cells
      ensures At(c, Node(t.n.(key := k, value := v), t.left, t.right))
    {
      ghost var h := cells;
      cells := cells[p := cells[p].(key := k, value := v)];
      Frame(h, cells, t.left, p, linked);
      Frame(h, cells, t.right, p, linked);
      FrameCtx(h, cells, c, p, linked);
    }

    /** The two destroy callbacks, each run if it was given. */
    ghost function Destroyed(pair: Pair): seq<Event> {
      (if destroysKeys then [KeyDestroyed(pair.key)] else [])
      + (if destroysValues then [ValueDestroyed(pair.value)] else [])
    }

    method Destroy(p: Ptr)
      requires p in cells
      modifies this`log
      ensures log == old(log) + Destroyed(Pair(cells[p].key, cells[p].value))
    {
      if destroysKeys {
        log := log + [KeyDestroyed(cells[p].key)];
      }
      if destroysValues {
        log := log + [ValueDestroyed(cells[p].value)];
      }
    }

    // ---- writes next to the focus ----

    method MarkParent(p: Ptr, m: int, ghost c: Ctx, ghost t: Tree)
      requires At(c, t) && !c.Top? && p == c.n.id
      modifies this`cells
      ensures cells.Keys == old(cells.Keys)
      ensures At(Repaint(c, m), t) && Agree(old(cells), cells, loose)
    {
      ZipUp(c, t);
      SetMark(p, m, c.up, Over(c, t));
      ZipUp(Repaint(c, m), t);
    }

    method MarkSibling(p: Ptr, m: int, ghost c: Ctx, ghost t: Tree)
      requires At(c, t) && !c.Top? && Other(c).Node? && p == Other(c).n.id
      modifies this`cells
      ensures cells.Keys == old(cells.Keys)
      ensures At(WithOther(c, Remark(Other(c), m)), t)
    {
      ZipAcross(c, t);
      SetMark(p, m, Across(c, t), Other(c));
      ZipAcross(WithOther(c, Remark(Other(c), m)), t);
    }

    method MarkNear(p: Ptr, m: int, ghost c: Ctx, ghost t: Tree)
      requires At(c, t) && !c.Top? && Other(c).Node? && Near(c).Node? && p == Near(c).n.id
      modifies this`cells
      ensures cells.Keys == old(cells.Keys)
      ensures At(WithOtherNode(c, Other(c).n, Remark(Near(c), m), Far(c)), t)
    {
      ghost var c' := WithOtherNode(c, Other(c).n, Remark(Near(c), m), Far(c));
      ghost var a, o := Across(c, t), Other(c);
      ZipAcross(c, t);
      ghost var down := if c.InLeft? then InLeft(o.n, Far(c), a) else InRight(o.n, Far(c), a);
      ZipUp(down, Near(c));
      SetMark(p, m, down, Near(c));
      ZipUp(down, Remark(Near(c), m));
      ZipAcross(c', t);
    }

    method MarkFar(p: Ptr, m: int, ghost c: Ctx, ghost t: Tree)
      requires At(c, t) && !c.Top? && Other(c).Node? && Far(c).Node? && p == Far(c).n.id
      modifies this`cells
      ensures cells.Keys == old(cells.Keys)
      ensures At(WithOtherNode(c, Other(c).n, Near(c), Remark(Far(c), m)), t)
    {
      ghost var c' := WithOtherNode(c, Other(c).n, Near(c), Remark(Far(c), m));
      ghost var a, o := Across(c, t), Other(c);
      ZipAcross(c, t);
      ghost var down := if c.InLeft? then InRight(o.n, Near(c), a) else InLeft(o.n, Near(c), a);
      ZipUp(down, Far(c));
      SetMark(p, m, down, Far(c));
      ZipUp(down, Remark(Far(c), m));
      ZipAcross(c', t);
    }

    // ---- shared parts of insert ----

    /** Walks from the root to the key or to the empty slot where it belongs. */
    method Find(key: Key, ghost t0: Tree)
      returns (slot: Slot, parent: Ptr, cur: Ptr, ghost c: Ctx, ghost t: Tree)
      requires At(Top, t0) && Sorted(Inorder(t0))
      ensures At(c, t) && Plug(c, t) == t0 && cur == Root(t) && slot == SlotOf(c)
      ensures Below(Before(c), key) && Above(After(c), key)
      ensures t.Leaf? ==> parent == Up(c)
      ensures t.Node? ==> Compare(key, t.n.key) == 0
      ensures t == Locate(t0, key)
    {
      slot, parent, cur := RootSlot, root, root;
      c, t := Top, t0;
      while cur != NULL
        invariant At(c, t) && Plug(c, t) == t0 && cur == Root(t) && slot == SlotOf(c)
        invariant Below(Before(c), key) && Above(After(c), key)
        invariant Locate(t, key) == Locate(t0, key)
        invariant t.Leaf? ==> parent == Up(c)
        decreases t
      {
        var cmp := Compare(key, cells[cur].key);
        if cmp < 0 {
          NarrowLeft(c, t, key);
          ZipLeft(c, t.n, t.left, t.right);
          slot, parent, cur := LeftSlot(cur), cur, cells[cur].left;
          c, t := InLeft(t.n, t.right, c), t.left;
        } else if cmp > 0 {
          NarrowRight(c, t, key);
          ZipRight(c, t.n, t.left, t.right);
          slot, parent, cur := RightSlot(cur), cur, cells[cur].right;
          c, t := InRight(t.n, t.left, c), t.right;
        } else {
          break;
        }
      }
    }

    /** Allocates a zeroed node, hangs it on the slot and fills it in. */
    method Graft(slot: Slot, key: Key, value: Value, parent: Ptr, mark: int, ghost c: Ctx) returns (p: Ptr)
      requires At(c, Leaf) && slot == SlotOf(c) && (linked ==> parent == Up(c))
      modifies this`cells, this`root
      ensures p != NULL && p !in old(cells)
      ensures At(c, Node(Label(p, key, value, mark), Leaf, Leaf))
    {
      ghost var h := cells;
      CtxReprIds(h, c, NULL, linked);
      SomeFreshPtr(cells.Keys);
      p :| p != NULL && p !in cells;
      cells := cells[p := Cell(NULL, NULL, Key(0, 0), 0, NULL, 0)];
      WriteSlot(slot, p);
      cells := cells[p := Cell(NULL, NULL, key, value, parent, mark)];
      Rehole(h, cells, c, NULL, p, linked);
      RootOfHole(c, NULL, p);
      ghost var t := Node(Label(p, key, value, mark), Leaf, Leaf);
      assert Ids(t) == {p};
      assert h.Keys == CtxIds(c) + loose;
      assert cells.Keys == h.Keys + {p};
      assert Repr(cells, t, Up(c), linked);
      assert ReprCtx(cells, c, p, linked);
      assert root == RootOf(c, p);
      assert Separate(t);
    }

    /** Key already present: the old pair is destroyed, the new one written. */
    method Overwrite(cur: Ptr, key: Key, value: Value, ghost c: Ctx, ghost t: Tree)
      requires At(c, t) && t.Node? && cur == t.n.id
      modifies this`cells, this`log
      ensures At(c, Node(t.n.(key := key, value := value), t.left, t.right))
      ensures log == old(log) + Destroyed(PairOf(t.n))
    {
      Destroy(cur);
      SetPair(cur, key, value, c, t);
    }

    // ---- shared parts of remove ----

    /** Replaces the node in focus by its only child, through parent links. */
    method Unlink(cur: Ptr, child: Ptr, ghost c: Ctx, ghost x: Tree)
      requires linked && At(c, x) && x.Node? && cur == x.n.id && (x.left.Leaf? || x.right.Leaf?)
      requires child == Root(OnlyChild(x))
      modifies this`cells, this`root, this`loose
      ensures At(c, OnlyChild(x)) && loose == old(loose) + {cur}
      ensures cur in cells && cells[cur] == old(cells)[cur] && cells.Keys == old(cells.Keys)
    {
      ghost var h, root0 := cells, root;
      HoleSide(cells, root, true, loose, c, x);
      ReprIds(cells, OnlyChild(x), cur, true);
      RootIsTop(cells, root, linked, loose, c, x);
      var childParent := NULL;
      if cur == root {
        root := child;
      } else {
        childParent := cells[cur].parent;
        if cells[childParent].left == cur {
          SetLeft(childParent, child);
        } else {
          SetRight(childParent, child);
        }
      }
      if child != NULL {
        SetParent(child, childParent);
      }
      UnlinkHeap(h, root0, cells, root, linked, loose, c, x);
      loose := loose + {cur};
    }

    /** Replaces the node in focus by its only child, through the slot it hangs on. */
    method UnlinkAt(slot: Slot, cur: Ptr, child: Ptr, ghost c: Ctx, ghost x: Tree)
      requires !linked && At(c, x) && x.Node? && cur == x.n.id && (x.left.Leaf? || x.right.Leaf?)
      requires child == Root(OnlyChild(x)) && slot == SlotOf(c)
      modifies this`cells, this`root, this`loose
      ensures cells.Keys == old(cells.Keys)
      ensures At(c, OnlyChild(x)) && loose == old(loose) + {cur}
      ensures cur in cells && cells[cur] == old(cells)[cur]
    {
      ghost var h, root0 := cells, root;
      HoleSide(cells, root, false, loose, c, x);
      ReprIds(cells, OnlyChild(x), cur, false);
      WriteSlot(slot, child);
      UnlinkHeap(h, root0, cells, root, linked, loose, c, x);
      loose := loose + {cur};
    }

    /** Runs the destroy callbacks on an unlinked node and frees it. */
    method Discard(p: Ptr, ghost c: Ctx, ghost t: Tree)
      requires At(c, t) && p in loose && p in cells
      modifies this`cells, this`log, this`loose
      ensures At(c, t) && loose == old(loose) - {p} && cells.Keys == old(cells.Keys) - {p}
      ensures log == old(log) + Destroyed(Pair(old(cells)[p].key, old(cells)[p].value)) + [NodeFreed(p)]
    {
      Destroy(p);
      ghost var h := cells;
      cells := cells - {p};
      log := log + [NodeFreed(p)];
      loose := loose - {p};
      Frame(h, cells, t, Up(c), linked);
      FrameCtx(h, cells, c, Root(t), linked);
    }

    /** Walks down the right spine of l, the left subtree of a node in context `outer`. */
    method Predecessor(first: Ptr, slot0: Slot, ghost outer: Ctx, ghost l: Tree)
      returns (prev: Ptr, slot: Slot, ghost path: Ctx, ghost x: Tree)
      requires At(outer, l) && l.Node? && first == l.n.id && slot0 == SlotOf(outer)
      ensures At(Append(path, outer), x) && x.Node? && prev == x.n.id && x.right.Leaf?
      ensures slot == SlotOf(Append(path, outer)) && (path.Top? || path.InRight?)
      ensures path.Top? ==> slot == slot0
      ensures path.InRight? ==> slot == RightSlot(path.n.id)
      ensures Plug(path, x) == l && After(path) == [] && PairOf(x.n) == PairOf(Last(l))
      ensures Before(path) + Inorder(x) == Inorder(l)
    {
      prev, slot := first, slot0;
      path, x := Top, l;
      ReprIds(cells, x.right, prev, linked);
      while cells[prev].right != NULL
        invariant At(Append(path, outer), x) && x.Node? && prev == x.n.id
        invariant x.right.Leaf? <==> cells[prev].right == NULL
        invariant path.Top? ==> slot == slot0
        invariant path.Top? || (path.InRight? && slot == RightSlot(path.n.id))
        invariant Plug(path, x) == l && After(path) == []
        invariant Last(x) == Last(l)
        decreases x
      {
        ZipRight(Append(path, outer), x.n, x.left, x.right);
        slot, prev := RightSlot(prev), cells[prev].right;
        path, x := InRight(x.n, x.left, path), x.right;
        ReprIds(cells, x.right, prev, linked);
      }
      PlugInorder(path, x);
    }

    /** A node with two children hands over to its in-order predecessor, whose
        pair it takes. */
    method HandOver(cur: Ptr, ghost c: Ctx, ghost t: Tree)
      returns (victim: Ptr, slot: Slot, ghost c': Ctx, ghost t': Tree)
      requires At(c, t) && t.Node? && t.left.Node? && t.right.Node? && cur == t.n.id
      modifies this`cells
      ensures At(c', t') && t'.Node? && victim == t'.n.id && slot == SlotOf(c') && t'.right.Leaf?
      ensures PairOf(t'.n) == PairOf(Victim(t)) && cells.Keys == old(cells.Keys)
      ensures Strip(Plug(c', t')) == Strip(Plug(c, t))
      ensures Before(c') + Inorder(t'.left) + Inorder(t'.right) + After(c')
           == Before(c) + Inorder(t.left) + Inorder(t.right) + After(c)
    {
      hide Inorder, Strip, Separate, Ids;
      ghost var n, l, r := t.n, t.left, t.right;
      ghost var path, x;
      ZipLeft(c, n, l, r);
      victim, slot, path, x := Predecessor(cells[cur].left, LeftSlot(cur), InLeft(n, r, c), l);
      ZipMany(path, InLeft(n, r, c), x);
      ghost var n' := n.(key := x.n.key, value := x.n.value);
      PredecessorPair(cells, root, linked, loose, path, InLeft(n, r, c), x);
      SetPair(cur, cells[victim].key, cells[victim].value, c, t);
      ZipLeft(c, n', l, r);
      ZipMany(path, InLeft(n', r, c), x);
      c', t' := Append(path, InLeft(n', r, c)), x;
      SelectKeepsStrip(path, x, n, n', r, c);
      SelectKeepsRest(path, x, n', l, r, c);
    }

    /** The node to unlink: the one found, or its in-order predecessor when it has two
        children; the node returned has at most one child. */
    method Select(cur: Ptr, slot0: Slot, ghost c: Ctx, ghost t: Tree)
      returns (victim: Ptr, slot: Slot, ghost c': Ctx, ghost t': Tree)
      requires At(c, t) && t.Node? && cur == t.n.id && slot0 == SlotOf(c)
      modifies this`cells
      ensures At(c', t') && t'.Node? && victim == t'.n.id && slot == SlotOf(c')
      ensures t'.left.Leaf? || t'.right.Leaf?
      ensures PairOf(t'.n) == PairOf(Victim(t)) && cells.Keys == old(cells.Keys)
      ensures Strip(Plug(c', t')) == Strip(Plug(c, t))
      ensures Before(c') + Inorder(t'.left) + Inorder(t'.right) + After(c')
           == Before(c) + Inorder(t.left) + Inorder(t.right) + After(c)
    {
      hide Inorder, Strip, Separate, Ids;
      ReprIds(cells, t.left, cur, linked);
      ReprIds(cells, t.right, cur, linked);
      if cells[cur].left == NULL || cells[cur].right == NULL {
        victim, slot, c', t' := cur, slot0, c, t;
      } else {
        victim, slot, c', t' := HandOver(cur, c, t);
      }
    }
  }

  lemma {:induction false} OnlyChildInorder(b: seq<Pair>, x: Tree, a: seq<Pair>)
    requires x.Node? && (x.left.Leaf? || x.right.Leaf?)
    ensures b + Inorder(OnlyChild(x)) + a == b + Inorder(x.left) + Inorder(x.right) + a
  {
    assert b + Inorder(x.left) + Inorder(x.right) == b + (Inorder(x.left) + Inorder(x.right));
    assert Inorder(x.left) + Inorder(x.right) == Inorder(OnlyChild(x));
  }

  lemma {:induction false} RootIsTop(h: Heap, root: Ptr, linked: bool, loose: set<Ptr>, c: Ctx, x: Tree)
    requires Holds(h, root, linked, loose, c, x) && x.Node?
    ensures x.n.id == root <==> c.Top?
  {
    RootAbove(c, x.n.id);
  }

  lemma {:induction false} RootAbove(c: Ctx, p: Ptr)
    ensures c.Top? || RootOf(c, p) in CtxIds(c)
  {
    if !c.Top? {
      RootAbove(c.up, c.n.id);
    }
  }

  /** The subtree that takes the place of a node with at most one child. */
  function OnlyChild(t: Tree): Tree
    requires t.Node?
  {
    if t.left.Leaf? then t.right else t.left
  }

  /** The cells after x has handed its place to its only child. */
  lemma {:induction false} UnlinkHeap(h: Heap, root: Ptr, g: Heap, root': Ptr, linked: bool, loose: set<Ptr>, c: Ctx,
                                      x: Tree)
    requires Holds(h, root, linked, loose, c, x) && x.Node? && (x.left.Leaf? || x.right.Leaf?)
    requires g.Keys == h.Keys
    requires forall p | p in h && p !in {Up(c), Root(OnlyChild(x))} :: g[p] == h[p]
    requires !c.Top? ==> Up(c) in h && g[Up(c)] == Redirect(c, h[Up(c)], Root(OnlyChild(x)))
    requires OnlyChild(x).Node? ==>
      && Root(OnlyChild(x)) in h
      && g[Root(OnlyChild(x))] == if linked then h[Root(OnlyChild(x))].(parent := Up(c)) else h[Root(OnlyChild(x))]
    requires root' == if c.Top? then Root(OnlyChild(x)) else root
    ensures Holds(g, root', linked, loose + {x.n.id}, c, OnlyChild(x)) && g[x.n.id] == h[x.n.id]
  {
    var y := OnlyChild(x);
    HoleSide(h, root, linked, loose, c, x);
    ReprIds(h, y, x.n.id, linked);
    CtxReprIds(h, c, x.n.id, linked);
    assert Ids(x) == {x.n.id} + Ids(y);
    RelinkChild(h, g, linked, c, x);
    Rehole(h, g, c, x.n.id, Root(y), linked);
    RootOfHole(c, x.n.id, Root(y));
  }

  lemma {:induction false} RelinkChild(h: Heap, g: Heap, linked: bool, c: Ctx, x: Tree)
    requires x.Node? && (x.left.Leaf? || x.right.Leaf?) && Repr(h, x, Up(c), linked) && Separate(x)
    requires Up(c) !in Ids(x) && g.Keys == h.Keys
    requires forall p | p in h && p !in {Up(c), Root(OnlyChild(x))} :: g[p] == h[p]
    requires OnlyChild(x).Node? ==>
      && Root(OnlyChild(x)) in h
      && g[Root(OnlyChild(x))] == if linked then h[Root(OnlyChild(x))].(parent := Up(c)) else h[Root(OnlyChild(x))]
    ensures Repr(g, OnlyChild(x), Up(c), linked)
  {
    var y := OnlyChild(x);
    ReprIds(h, y, x.n.id, linked);
    if y.Node? {
      Frame(h, g, y.left, y.n.id, linked);
      Frame(h, g, y.right, y.n.id, linked);
    }
  }

  lemma {:induction false} PredecessorPair(h: Heap, root: Ptr, linked: bool, loose: set<Ptr>, path: Ctx, outer: Ctx,
                                           x: Tree)
    requires Holds(h, root, linked, loose, Append(path, outer), x) && x.Node?
    ensures x.n.id in h && h[x.n.id].key == x.n.key && h[x.n.id].value == x.n.value
  {
  }

  lemma {:induction false} Regroup<T>(b: seq<T>, p: seq<T>, i: seq<T>, m: seq<T>, j: seq<T>, a: seq<T>)
    ensures (b + p) + i + [] + ([] + (m + j + a)) == b + (p + (i + m)) + j + a
  {
  }

  lemma {:induction false} SelectKeepsRest(path: Ctx, x: Tree, n': Label, l: Tree, r: Tree, c: Ctx)
    requires x.Node? && x.right.Leaf? && After(path) == [] && PairOf(n') == PairOf(x.n)
    requires Before(path) + Inorder(x) == Inorder(l)
    ensures var c' := Append(path, InLeft(n', r, c));
      Before(c') + Inorder(x.left) + Inorder(x.right) + After(c') == Before(c) + Inorder(l) + Inorder(r) + After(c)
  {
    var outer := InLeft(n', r, c);
    var b, p, i, m, j, a := Before(c), Before(path), Inorder(x.left), [PairOf(n')], Inorder(r), After(c);
    SidesAppend(path, outer);
    LastOnTop(x);
    calc {
      Before(Append(path, outer)) + i + Inorder(x.right) + After(Append(path, outer));
      (b + p) + i + [] + ([] + (m + j + a));
      { Regroup(b, p, i, m, j, a); }
      b + (p + (i + m)) + j + a;
      b + Inorder(l) + j + a;
    }
  }

  lemma {:induction false} LastOnTop(x: Tree)
    requires x.Node? && x.right.Leaf?
    ensures Inorder(x) == Inorder(x.left) + [PairOf(x.n)] && Inorder(x.right) == []
  {
  }

  // ---- what insert and remove make of the in-order reading ----

  lemma {:induction false} LastIsLast(t: Tree)
    requires t.Node?
    ensures Inorder(t) != [] && Inorder(t)[|Inorder(t)| - 1] == PairOf(Last(t))
  {
    if t.right.Node? {
      LastIsLast(t.right);
    }
  }

  /** Which pair the destroy callbacks of remove are given: the removed one exactly
      when its node has fewer than two children; otherwise that of the in-order
      predecessor, which stays in the tree. */
  lemma {:induction false} VictimIsRemoved(c: Ctx, x: Tree)
    requires x.Node? && Sorted(Inorder(Plug(c, x)))
    ensures PairOf(Victim(x)) == PairOf(x.n) <==> x.left.Leaf? || x.right.Leaf?
    ensures x.left.Node? && x.right.Node? ==>
      PairOf(Victim(x)) in Before(c) + Inorder(x.left) + Inorder(x.right) + After(c)
  {
    if x.left.Node? && x.right.Node? {
      PlugInorder(c, x);
      LastIsLast(x.left);
      Middle(Before(c), Inorder(x.left), [PairOf(x.n)], Inorder(x.right), After(c));
      SortedSplit(Before(c) + Inorder(x.left), PairOf(x.n), Inorder(x.right) + After(c));
      var b := Before(c) + Inorder(x.left);
      assert b[|b| - 1] == PairOf(Last(x.left));
    }
  }

  /** A tree of three nodes, the middle key on top. */
  function ThreeNodes(): Tree {
    Node(Label(1, Key(2, 20), 200, 0),
         Node(Label(2, Key(1, 10), 100, 0), Leaf, Leaf),
         Node(Label(3, Key(3, 30), 300, 0), Leaf, Leaf))
  }

  /** Removing the middle key of three hands the callbacks the pair of the first key, which
      stays in the tree, and not the removed pair. */
  lemma {:induction false} RemoveDestroysLivePair()
    ensures Sorted(Inorder(ThreeNodes())) && Locate(ThreeNodes(), Key(2, 0)) == ThreeNodes()
    ensures PairOf(Victim(ThreeNodes())) == Pair(Key(1, 10), 100)
    ensures Del(Inorder(ThreeNodes()), Key(2, 0)) == [Pair(Key(1, 10), 100), Pair(Key(3, 30), 300)]
  {
    var a, b, c := Pair(Key(1, 10), 100), Pair(Key(2, 20), 200), Pair(Key(3, 30), 300);
    assert Inorder(ThreeNodes().left) == [a] && Inorder(ThreeNodes().right) == [c];
    assert Inorder(ThreeNodes()) == [a, b, c];
    assert [a, b, c][1..] == [b, c] && [b, c][1..] == [c];
  }

  lemma {:induction false} GraftIsPut(c: Ctx, n: Label)
    requires Below(Before(c), n.key) && Above(After(c), n.key)
    ensures Inorder(Plug(c, Node(n, Leaf, Leaf))) == Put(Inorder(Plug(c, Leaf)), n.key, n.value)
    ensures Get(Inorder(Plug(c, Leaf)), n.key) == None
  {
    PlugInorder(c, Leaf);
    PlugInorder(c, Node(n, Leaf, Leaf));
    assert Inorder(Node(n, Leaf, Leaf)) == [PairOf(n)];
    Narrow(Before(c), [], After(c), n.key, n.value);
  }

  /** The pair at the focus, when the search for k stopped there. */
  lemma {:induction false} FoundIs(c: Ctx, t: Tree, k: Key, v: Value)
    requires t.Node? && Compare(k, t.n.key) == 0 && Sorted(Inorder(Plug(c, t)))
    ensures Get(Inorder(Plug(c, t)), k) == Some(PairOf(t.n))
    ensures Del(Inorder(Plug(c, t)), k) == Before(c) + Inorder(t.left) + Inorder(t.right) + After(c)
    ensures Put(Inorder(Plug(c, t)), k, v)
         == Inorder(Plug(c, Node(t.n.(key := k, value := v), t.left, t.right)))
  {
    PlugInorder(c, t);
    var t' := Node(t.n.(key := k, value := v), t.left, t.right);
    PlugInorder(c, t');
    var b, a := Before(c) + Inorder(t.left), Inorder(t.right) + After(c);
    Middle(Before(c), Inorder(t.left), [PairOf(t.n)], Inorder(t.right), After(c));
    Middle(Before(c), Inorder(t.left), [Pair(k, v)], Inorder(t.right), After(c));
    Middle(Before(c), Inorder(t.left), [], Inorder(t.right), After(c));
    FoundAt(b, PairOf(t.n), a, k, v);
  }

  lemma {:induction false} SelectKeepsStrip(path: Ctx, x: Tree, n: Label, n': Label, r: Tree, c: Ctx)
    requires StripLabel(n) == StripLabel(n')
    ensures Strip(Plug(Append(path, InLeft(n', r, c)), x)) == Strip(Plug(c, Node(n, Plug(path, x), r)))
  {
    PlugAppend(path, InLeft(n', r, c), x);
    StripPlug(c, Node(n, Plug(path, x), r));
    StripPlug(c, Node(n', Plug(path, x), r));
  }
}
