/** In-order traversal without stack or parent links: the rightmost node below a
    left child is threaded to the ancestor for as long as the walk is below it, and
    the thread is cut on the way back. `Clear` is the destructive form. */
module Traversal {
  import opened Trees
  import opened TreeStore

  // ---- what the callback gets to see ----

  /** A traversal callback: its answer may depend on every call made so far,
      the current one last. Zero means go on. */
  type Callback = seq<Pair> -> int

  /** The calls made on s: all of it, or up to the first that answers non-zero. */
  function Calls(s: seq<Pair>, f: Callback): seq<Pair> {
    if s == [] then []
    else
      var p := Calls(s[..|s| - 1], f);
      if p != [] && f(p) != 0 then p else p + [s[|s| - 1]]
  }

  lemma {:induction false} CallsLength(s: seq<Pair>, f: Callback)
    ensures |Calls(s, f)| <= |s| && Calls(s, f) == s[..|Calls(s, f)|]
    ensures |Calls(s, f)| < |s| ==> Calls(s, f) != [] && f(Calls(s, f)) != 0
  {
    if s != [] {
      CallsLength(s[..|s| - 1], f);
    }
  }

  /** Calls is the shortest non-empty prefix that asks to stop, else everything. */
  lemma {:induction false} CallsArePrefix(s: seq<Pair>, f: Callback, i: nat)
    ensures Calls(s, f) <= s
    ensures 0 < i < |Calls(s, f)| ==> f(s[..i]) == 0
    ensures Calls(s, f) == s || (Calls(s, f) != [] && f(Calls(s, f)) != 0)
  {
    CallsLength(s, f);
    if 0 < i < |Calls(s, f)| {
      var r := s[..|s| - 1];
      var p := Calls(r, f);
      CallsLength(r, f);
      if i == |p| {
        assert s[..i] == p;
      } else {
        CallsArePrefix(r, f, i);
        assert s[..i] == r[..i];
      }
    }
  }

  /** Once a stop was asked for, the rest of the sequence adds no call. */
  lemma {:induction false} CallsStopped(s: seq<Pair>, k: nat, f: Callback)
    requires k <= |s| && Calls(s[..k], f) != [] && f(Calls(s[..k], f)) != 0
    ensures Calls(s, f) == Calls(s[..k], f)
    decreases |s|
  {
    if k < |s| {
      assert s[..|s| - 1][..k] == s[..k];
      CallsStopped(s[..|s| - 1], k, f);
    } else {
      assert s[..k] == s;
    }
  }

  // ---- threads ----

  /** The ancestor that follows the subtree in the hole, if any. */
  function Succ(c: Ctx): Ptr {
    match c
    case Top => NULL
    case InLeft(n, _, _) => n.id
    case InRight(_, _, up) => Succ(up)
  }

  /** How many threads are up: one for each ancestor whose left subtree we are in. */
  function Threads(c: Ctx): nat {
    match c
    case Top => 0
    case InLeft(_, _, up) => 1 + Threads(up)
    case InRight(_, _, up) => Threads(up)
  }

  /** The cells while the walk is at t: h plus those threads. */
  ghost function Threaded(h: Heap, c: Ctx, t: Tree): Heap
    requires t.Node?
    decreases c
  {
    match c
    case Top => h
    case InLeft(n, r, up) =>
      var g := Threaded(h, up, Node(n, t, r));
      var p := Last(t).id;
      if p in g then g[p := g[p].(right := n.id)] else g
    case InRight(n, l, up) => Threaded(h, up, Node(n, l, t))
  }

  lemma {:induction false} LastIn(h: Heap, t: Tree, par: Ptr, linked: bool)
    requires t.Node? && Repr(h, t, par, linked) && Separate(t)
    ensures Last(t).id in Ids(t) && Last(t).id in h && h[Last(t).id].right == NULL
    ensures t.right.Node? ==> Last(t).id in Ids(t.right)
  {
    ReprIds(h, t, par, linked);
    if t.right.Node? {
      LastIn(h, t.right, t.n.id, linked);
    }
  }

  /** Threads leave the subtree in focus alone, but for its last node. */
  lemma {:induction false} ThreadedCells(h: Heap, root: Ptr, linked: bool, loose: set<Ptr>, c: Ctx, t: Tree)
    requires Holds(h, root, linked, loose, c, t) && t.Node?
    ensures var g := Threaded(h, c, t);
      && g.Keys == h.Keys && Ids(t) <= g.Keys && Last(t).id in Ids(t)
      && (forall p | p in Ids(t) && p != Last(t).id :: g[p] == h[p])
      && g[Last(t).id] == h[Last(t).id].(right := Succ(c))
    decreases c
  {
    ReprIds(h, t, Up(c), linked);
    LastIn(h, t, Up(c), linked);
    match c
    case Top =>
    case InLeft(n, r, up) =>
      ZipLeft(h, root, linked, loose, up, n, t, r);
      ThreadedCells(h, root, linked, loose, up, Node(n, t, r));
      if r.Node? {
        LastIn(h, r, n.id, linked);
      }
      assert Last(Node(n, t, r)).id !in Ids(t);
    case InRight(n, l, up) =>
      ZipRight(h, root, linked, loose, up, n, l, t);
      ThreadedCells(h, root, linked, loose, up, Node(n, l, t));
  }

  /** No thread is up: the cells are those of h. */
  lemma {:induction false} NoThreads(h: Heap, c: Ctx, t: Tree)
    requires t.Node? && Threads(c) == 0
    ensures Threaded(h, c, t) == h
    decreases c
  {
    if c.InRight? {
      NoThreads(h, c.up, Node(c.n, c.left, t));
    }
  }

  // ---- the walk ----

  /** The walk is at the root of t. Either it has just come down (and t is still to
      be done) or it has come back up a thread from the left subtree of t. */
  ghost predicate Walking(h: Heap, g: Heap, back: bool, c: Ctx, t: Tree) {
    && t.Node?
    && if back then t.left.Node? && g == Threaded(h, InLeft(t.n, t.right, c), t.left)
       else g == Threaded(h, c, t)
  }

  /** What lies behind the walk, in order. */
  ghost function Behind(back: bool, c: Ctx, t: Tree): seq<Pair>
    requires t.Node?
  {
    if back then Before(c) + Inorder(t.left) else Before(c)
  }

  ghost function Open(back: bool, c: Ctx): nat {
    Threads(c) + if back then 1 else 0
  }

  /** From the last node of t, whose subtree is done, the thread leads to the next
      ancestor; without one the whole tree is done. */
  lemma {:induction false} Ascend(h: Heap, root: Ptr, linked: bool, loose: set<Ptr>, c: Ctx, t: Tree)
    returns (c': Ctx, t': Tree)
    requires Holds(h, root, linked, loose, c, t) && t.Node?
    ensures Succ(c) == NULL ==> Threads(c) == 0 && Before(c) + Inorder(t) == Inorder(Plug(c, t))
    ensures Succ(c) != NULL ==>
      && t'.Node? && t'.n.id == Succ(c) && Holds(h, root, linked, loose, c', t') && Plug(c', t') == Plug(c, t)
      && Walking(h, Threaded(h, c, t), true, c', t') && Threads(c) == Open(true, c')
      && Behind(true, c', t') == Before(c) + Inorder(t)
    decreases c
  {
    match c
    case Top =>
      c', t' := c, t;
    case InLeft(n, r, up) =>
      ZipLeft(h, root, linked, loose, up, n, t, r);
      assert n.id != NULL;
      c', t' := up, Node(n, t, r);
    case InRight(n, l, up) =>
      ZipRight(h, root, linked, loose, up, n, l, t);
      c', t' := Ascend(h, root, linked, loose, up, Node(n, l, t));
      ClimbReads(up, n, l, t);
  }

  lemma {:induction false} ClimbReads(up: Ctx, n: Label, l: Tree, t: Tree)
    ensures Before(up) + Inorder(Node(n, l, t)) == Before(InRight(n, l, up)) + Inorder(t)
  {
    Middle(Before(up), Inorder(l), [PairOf(n)], Inorder(t), []);
  }

  /** The step to the right once the root of t has been visited. */
  lemma {:induction false} GoRight(h: Heap, root: Ptr, linked: bool, loose: set<Ptr>, c: Ctx, t: Tree)
    returns (back: bool, c': Ctx, t': Tree)
    requires Holds(h, root, linked, loose, c, t) && t.Node? && t.n.id in Threaded(h, c, t)
    ensures var next := Threaded(h, c, t)[t.n.id].right;
      var done := Before(c) + Inorder(t.left) + [PairOf(t.n)];
      && (next == NULL ==> Threads(c) == 0 && done == Inorder(Plug(c, t)))
      && (next != NULL ==>
            && t'.Node? && t'.n.id == next && Holds(h, root, linked, loose, c', t') && Plug(c', t') == Plug(c, t)
            && Walking(h, Threaded(h, c, t), back, c', t') && Threads(c) == Open(back, c')
            && Behind(back, c', t') == done)
  {
    ThreadedCells(h, root, linked, loose, c, t);
    if t.right.Node? {
      LastIn(h, t, Up(c), linked);
      ReprIds(h, t.right, t.n.id, linked);
      ZipRight(h, root, linked, loose, c, t.n, t.left, t.right);
      back, c', t' := false, InRight(t.n, t.left, c), t.right;
    } else {
      back := true;
      c', t' := Ascend(h, root, linked, loose, c, t);
      assert Before(c) + (Inorder(t.left) + [PairOf(t.n)] + []) == Before(c) + Inorder(t.left) + [PairOf(t.n)];
    }
  }

  /** The inner loop: down the right spine of the left subtree, to its end or to
      the thread that leads back. */
  method FindLast(s: Store, cur: Ptr, ghost h: Heap, ghost back: bool, ghost c: Ctx, ghost t: Tree)
    returns (prev: Ptr)
    requires Holds(h, s.root, s.linked, s.loose, c, t) && Walking(h, s.cells, back, c, t)
    requires cur == t.n.id && t.left.Node?
    ensures prev == Last(t.left).id && prev in s.cells
    ensures s.cells[prev].right == if back then cur else NULL
  {
    ghost var l := t.left;
    SpineCells(h, s.cells, s.root, s.linked, s.loose, back, c, t);
    ReprIds(h, l, cur, s.linked);
    LastIn(h, l, cur, s.linked);
    prev := s.cells[cur].left;
    ghost var x, par := l, cur;
    while s.cells[prev].right != NULL && s.cells[prev].right != cur
      invariant x.Node? && prev == x.n.id && Ids(x) <= Ids(l) && Last(x) == Last(l)
      invariant Repr(h, x, par, s.linked) && Separate(x) && prev in s.cells
      invariant x.right.Node? ==> prev != Last(l).id && s.cells[prev].right == x.right.n.id
      decreases x
    {
      par, x := prev, x.right;
      prev := s.cells[prev].right;
      ReprIds(h, x, par, s.linked);
      if x.right.Node? {
        LastIn(h, x, par, s.linked);
      }
    }
  }

  lemma {:induction false} SpineCells(h: Heap, g: Heap, root: Ptr, linked: bool, loose: set<Ptr>, back: bool, c: Ctx,
                                      t: Tree)
    requires Holds(h, root, linked, loose, c, t) && Walking(h, g, back, c, t) && t.left.Node?
    ensures g.Keys == h.Keys && t.n.id in g && t.n.id !in Ids(t.left) && Ids(t.left) <= g.Keys
    ensures g[t.n.id].left == t.left.n.id && g[t.n.id].key == t.n.key && g[t.n.id].value == t.n.value
    ensures forall p | p in Ids(t.left) && p != Last(t.left).id :: g[p] == h[p]
    ensures Last(t.left).id in Ids(t.left)
    ensures g[Last(t.left).id].right == if back then t.n.id else NULL
    ensures back ==> g[Last(t.left).id := g[Last(t.left).id].(right := NULL)] == Threaded(h, c, t)
    ensures !back ==>
      g[Last(t.left).id := g[Last(t.left).id].(right := t.n.id)] == Threaded(h, InLeft(t.n, t.right, c), t.left)
  {
    var l := t.left;
    ReprIds(h, l, t.n.id, linked);
    LastIn(h, l, t.n.id, linked);
    LastIn(h, t, Up(c), linked);
    if t.right.Node? {
      ReprIds(h, t.right, t.n.id, linked);
    }
    ThreadedCells(h, root, linked, loose, c, t);
    ZipLeft(h, root, linked, loose, c, t.n, l, t.right);
    ThreadedCells(h, root, linked, loose, InLeft(t.n, t.right, c), l);
  }

  lemma {:induction false} OneMoreCall(s: seq<Pair>, k: nat, f: Callback)
    requires k < |s|
    ensures var p := Calls(s[..k], f);
      Calls(s[..k + 1], f) == if p != [] && f(p) != 0 then p else p + [s[k]]
  {
    assert s[..k + 1][..k] == s[..k];
  }

  lemma {:induction false} NextIs(c: Ctx, t: Tree)
    requires t.Node?
    ensures var all, done := Inorder(Plug(c, t)), Before(c) + Inorder(t.left);
      |done| < |all| && all[..|done|] == done && all[|done|] == PairOf(t.n) && all[..|done| + 1] == done + [PairOf(t.n)]
  {
    PlugInorder(c, t);
    Middle(Before(c), Inorder(t.left), [PairOf(t.n)], Inorder(t.right), After(c));
  }

  /** One call of the callback, unless a stop was asked for before. */
  method Visit(s: Store, cur: Ptr, f: Callback, calls: seq<Pair>, needStop: int, ghost c: Ctx, ghost t: Tree)
    returns (calls': seq<Pair>, needStop': int)
    requires t.Node? && cur in s.cells && Pair(s.cells[cur].key, s.cells[cur].value) == PairOf(t.n)
    requires calls == Calls(Before(c) + Inorder(t.left), f) && needStop == Answer(calls, f)
    ensures calls' == Calls(Before(c) + Inorder(t.left) + [PairOf(t.n)], f) && needStop' == Answer(calls', f)
  {
    NextIs(c, t);
    OneMoreCall(Inorder(Plug(c, t)), |Before(c) + Inorder(t.left)|, f);
    calls', needStop' := calls, needStop;
    if needStop == 0 {
      calls' := calls + [Pair(s.cells[cur].key, s.cells[cur].value)];
      needStop' := f(calls');
    }
  }

  lemma {:induction false} WalkCells(h: Heap, g: Heap, root: Ptr, linked: bool, loose: set<Ptr>, back: bool, c: Ctx,
                                     t: Tree)
    requires Holds(h, root, linked, loose, c, t) && Walking(h, g, back, c, t)
    ensures t.n.id in g && (g[t.n.id].left == NULL <==> t.left.Leaf?)
    ensures Pair(g[t.n.id].key, g[t.n.id].value) == PairOf(t.n)
  {
    ReprIds(h, t.left, t.n.id, linked);
    if t.left.Node? {
      SpineCells(h, g, root, linked, loose, back, c, t);
    } else {
      ThreadedCells(h, root, linked, loose, c, t);
    }
  }

  /** With no thread up the cells are the old ones, and a stop settles the calls. */
  lemma {:induction false} ReadOn(h: Heap, root: Ptr, linked: bool, loose: set<Ptr>, c: Ctx, t: Tree, f: Callback)
    requires Holds(h, root, linked, loose, c, t) && t.Node?
    ensures t.n.id in Threaded(h, c, t)
    ensures Threads(c) == 0 ==> Threaded(h, c, t) == h
    ensures var calls := Calls(Before(c) + Inorder(t.left) + [PairOf(t.n)], f);
      calls != [] && f(calls) != 0 ==> Calls(Inorder(Plug(c, t)), f) == calls
  {
    ThreadedCells(h, root, linked, loose, c, t);
    if Threads(c) == 0 {
      NoThreads(h, c, t);
    }
    var done := Before(c) + Inorder(t.left) + [PairOf(t.n)];
    NextIs(c, t);
    assert Inorder(Plug(c, t))[..|done|] == done;
    if Calls(done, f) != [] && f(Calls(done, f)) != 0 {
      CallsStopped(Inorder(Plug(c, t)), |done|, f);
    }
  }

  /** What the last call answered; FALSE before the first. */
  function Answer(calls: seq<Pair>, f: Callback): int {
    if calls == [] then 0 else f(calls)
  }

  /** The walk over t0 stands at cur, or is over. */
  ghost predicate Underway(h: Heap, g: Heap, root: Ptr, linked: bool, loose: set<Ptr>, t0: Tree,
                           cur: Ptr, open: int, calls: seq<Pair>, f: Callback, back: bool, c: Ctx, t: Tree) {
    if cur == NULL then g == h && calls == Calls(Inorder(t0), f)
    else
      && Holds(h, root, linked, loose, c, t) && Plug(c, t) == t0
      && Walking(h, g, back, c, t) && cur == t.n.id && open == Open(back, c)
      && calls == Calls(Behind(back, c, t), f)
  }

  /** Where the walk stands after the root of t was visited and its right link followed. */
  lemma {:induction false} Onward(h: Heap, root: Ptr, linked: bool, loose: set<Ptr>, c: Ctx, t: Tree,
                                  calls: seq<Pair>, f: Callback)
    returns (back': bool, c': Ctx, t': Tree)
    requires Holds(h, root, linked, loose, c, t) && t.Node?
    requires calls == Calls(Before(c) + Inorder(t.left) + [PairOf(t.n)], f)
    ensures t.n.id in Threaded(h, c, t)
    ensures var g := Threaded(h, c, t);
      && Underway(h, g, root, linked, loose, Plug(c, t), g[t.n.id].right, Threads(c), calls, f, back', c', t')
      && (g[t.n.id].right != NULL ==> |Behind(back', c', t')| == |Before(c)| + |Inorder(t.left)| + 1)
    ensures Threads(c) == 0 && Answer(calls, f) != 0 ==>
      Threaded(h, c, t) == h && calls == Calls(Inorder(Plug(c, t)), f)
  {
    ReadOn(h, root, linked, loose, c, t, f);
    back', c', t' := GoRight(h, root, linked, loose, c, t);
  }

  /** No left subtree: visit and step to the right. */
  method StepRight(s: Store, cur: Ptr, f: Callback, calls: seq<Pair>, needStop: int,
                   ghost h: Heap, ghost t0: Tree, ghost open: int, ghost c: Ctx, ghost t: Tree)
    returns (cur': Ptr, calls': seq<Pair>, needStop': int, ghost back': bool, ghost c': Ctx, ghost t': Tree)
    requires Underway(h, s.cells, s.root, s.linked, s.loose, t0, cur, open, calls, f, false, c, t)
    requires cur != NULL && t.left.Leaf? && needStop == Answer(calls, f)
    ensures Underway(h, s.cells, s.root, s.linked, s.loose, t0, cur', open, calls', f, back', c', t')
    ensures needStop' == Answer(calls', f)
    ensures cur' != NULL ==> |Behind(back', c', t')| == |Before(c)| + 1
  {
    assert Before(c) + Inorder(t.left) == Before(c);
    WalkCells(h, s.cells, s.root, s.linked, s.loose, false, c, t);
    calls', needStop' := Visit(s, cur, f, calls, needStop, c, t);
    back', c', t' := Onward(h, s.root, s.linked, s.loose, c, t, calls', f);
    cur' := s.cells[cur].right;
  }

  /** A left subtree still to be done: put up the thread and step down. */
  method StepDown(s: Store, cur: Ptr, prev: Ptr, ghost f: Callback, ghost calls: seq<Pair>,
                  ghost h: Heap, ghost t0: Tree, ghost open: int, ghost c: Ctx, ghost t: Tree)
    returns (cur': Ptr)
    requires Underway(h, s.cells, s.root, s.linked, s.loose, t0, cur, open, calls, f, false, c, t)
    requires cur != NULL && t.left.Node? && prev == Last(t.left).id
    modifies s`cells
    ensures cur' != NULL
    ensures Underway(h, s.cells, s.root, s.linked, s.loose, t0, cur', open + 1, calls, f,
                     false, InLeft(t.n, t.right, c), t.left)
  {
    SpineCells(h, s.cells, s.root, s.linked, s.loose, false, c, t);
    ReprIds(h, t.left, t.n.id, s.linked);
    s.cells := WithRight(s.cells, prev, cur);
    ZipLeft(h, s.root, s.linked, s.loose, c, t.n, t.left, t.right);
    cur' := s.cells[cur].left;
  }

  /** Back from the left subtree: visit, cut the thread and step to the right. */
  method StepBack(s: Store, cur: Ptr, prev: Ptr, f: Callback, calls: seq<Pair>, needStop: int,
                  ghost h: Heap, ghost t0: Tree, ghost open: int, ghost c: Ctx, ghost t: Tree)
    returns (cur': Ptr, calls': seq<Pair>, needStop': int, ghost back': bool, ghost c': Ctx, ghost t': Tree)
    requires Underway(h, s.cells, s.root, s.linked, s.loose, t0, cur, open, calls, f, true, c, t)
    requires cur != NULL && prev == Last(t.left).id && needStop == Answer(calls, f)
    modifies s`cells
    ensures Underway(h, s.cells, s.root, s.linked, s.loose, t0, cur', open - 1, calls', f, back', c', t')
    ensures needStop' == Answer(calls', f)
    ensures cur' != NULL ==> |Behind(back', c', t')| == |Behind(true, c, t)| + 1
    ensures needStop' != 0 && open == 1 ==> s.cells == h && calls' == Calls(Inorder(t0), f)
  {
    SpineCells(h, s.cells, s.root, s.linked, s.loose, true, c, t);
    calls', needStop' := Visit(s, cur, f, calls, needStop, c, t);
    back', c', t' := Onward(h, s.root, s.linked, s.loose, c, t, calls', f);
    cur' := s.cells[cur].right;
    s.cells := WithRight(s.cells, prev, NULL);
  }

  /** ztree_foreach: the callback sees the pairs in key order up to the first stop,
      and on every exit each pointer is as it was. */
  method Foreach(s: Store, f: Callback, ghost t0: Tree) returns (calls: seq<Pair>)
    requires s.At(Top, t0)
    modifies s`cells
    ensures s.cells == old(s.cells)
    ensures calls == Calls(Inorder(t0), f)
  {
    ghost var h := s.cells;
    calls := [];
    var cur, modCounter, needStop := s.root, 0, 0;
    ghost var back, c, t := false, Top, t0;
    while cur != NULL
      invariant Underway(h, s.cells, s.root, s.linked, s.loose, t0, cur, modCounter, calls, f, back, c, t)
      invariant needStop == Answer(calls, f)
      decreases if cur == NULL then 0 else 1 + |Inorder(t0)| - |Behind(back, c, t)|, Size(t)
    {
      NextIs(c, t);
      WalkCells(h, s.cells, s.root, s.linked, s.loose, back, c, t);
      if s.cells[cur].left == NULL {
        cur, calls, needStop, back, c, t := StepRight(s, cur, f, calls, needStop, h, t0, modCounter, c, t);
      } else {
        var prev := FindLast(s, cur, h, back, c, t);
        if s.cells[prev].right == NULL {
          cur := StepDown(s, cur, prev, f, calls, h, t0, modCounter, c, t);
          back, c, t := false, InLeft(t.n, t.right, c), t.left;
          modCounter := modCounter + 1;
        } else {
          cur, calls, needStop, back, c, t := StepBack(s, cur, prev, f, calls, needStop, h, t0, modCounter, c, t);
          modCounter := modCounter - 1;
          if needStop == 1 && modCounter == 0 {
            return;
          }
        }
      }
    }
  }

  // ---- clear ----

  /** The nodes of a tree in key order. */
  function Labels(t: Tree): seq<Label> {
    if t.Leaf? then [] else Labels(t.left) + [t.n] + Labels(t.right)
  }

  /** The callbacks and frees owed to a list of nodes, in order. */
  ghost function Cleared(s: Store, labels: seq<Label>): seq<Event> {
    if labels == [] then []
    else s.Destroyed(PairOf(labels[0])) + [NodeFreed(labels[0].id)] + Cleared(s, labels[1..])
  }

  /** x hung under the last node of l. */
  function Attach(l: Tree, x: Tree): Tree
    requires l.Node?
  {
    if l.right.Leaf? then Node(l.n, l.left, x) else Node(l.n, l.left, Attach(l.right, x))
  }

  function Spine(t: Tree): nat {
    if t.Leaf? then 0 else 1 + Spine(t.right)
  }

  lemma {:induction false} SpineBound(t: Tree)
    ensures Spine(t) <= Size(t)
  {
    if t.Node? {
      SpineBound(t.right);
    }
  }

  lemma {:induction false} AttachShape(l: Tree, x: Tree)
    requires l.Node? && Separate(l) && Separate(x) && Ids(l) !! Ids(x)
    ensures var u := Attach(l, x);
      && Labels(u) == Labels(l) + Labels(x) && Size(u) == Size(l) + Size(x)
      && Spine(u) == Spine(l) + Spine(x) && Separate(u) && Ids(u) == Ids(l) + Ids(x)
  {
    if l.right.Node? {
      AttachShape(l.right, x);
    }
  }

  lemma {:induction false} AttachHeap(h: Heap, g: Heap, l: Tree, x: Tree, par: Ptr)
    requires l.Node? && x.Node? && Separate(l) && Repr(h, l, par, false) && Repr(g, x, Last(l).id, false)
    requires forall p | p in Ids(l) && p != Last(l).id :: p in h && p in g && g[p] == h[p]
    requires Last(l).id in h && Last(l).id in g && g[Last(l).id] == h[Last(l).id].(right := x.n.id)
    ensures Repr(g, Attach(l, x), par, false)
  {
    LastIn(h, l, par, false);
    Frame(h, g, l.left, l.n.id, false);
    if l.right.Node? {
      AttachHeap(h, g, l.right, x, l.n.id);
    }
  }

  /** Parent links may be forgotten. */
  lemma {:induction false} Unlink(h: Heap, t: Tree, par: Ptr, linked: bool)
    requires Repr(h, t, par, linked)
    ensures forall q: Ptr :: Repr(h, t, q, false)
  {
    if t.Node? {
      Unlink(h, t.left, t.n.id, linked);
      Unlink(h, t.right, t.n.id, linked);
    }
  }

  /** What is left of the tree while it is being cleared. */
  ghost predicate Leftover(h: Heap, t: Tree, cur: Ptr) {
    Repr(h, t, NULL, false) && Separate(t) && h.Keys == Ids(t) && cur == Root(t)
  }

  /** The node without left subtree at cur is destroyed and freed. */
  method FreeFirst(s: Store, cur: Ptr, ghost t: Tree) returns (next: Ptr)
    requires Leftover(s.cells, t, cur) && t.Node? && t.left.Leaf?
    modifies s`cells, s`log
    ensures Leftover(s.cells, t.right, next)
    ensures s.log == old(s.log) + s.Destroyed(PairOf(t.n)) + [NodeFreed(cur)]
  {
    next := s.cells[cur].right;
    s.Destroy(cur);
    ghost var h := s.cells;
    s.cells := s.cells - {cur};
    s.log := s.log + [NodeFreed(cur)];
    Frame(h, s.cells, t.right, cur, false);
    Unlink(s.cells, t.right, cur, false);
  }

  /** The node at cur is hung, without its left subtree, under the last node of that subtree. */
  method PushRight(s: Store, cur: Ptr, ghost t: Tree) returns (next: Ptr)
    requires Leftover(s.cells, t, cur) && t.Node? && t.left.Node?
    modifies s`cells
    ensures Leftover(s.cells, Attach(t.left, Node(t.n, Leaf, t.right)), next)
  {
    ghost var h, l, x := s.cells, t.left, Node(t.n, Leaf, t.right);
    ReprIds(h, t.left, cur, false);
    ReprIds(h, t.right, cur, false);
    LastIn(h, l, cur, false);
    var prev := s.cells[cur].left;
    ghost var y, par := l, cur;
    while s.cells[prev].right != NULL
      invariant y.Node? && prev == y.n.id && Last(y) == Last(l)
      invariant Repr(h, y, par, false) && Separate(y) && prev in s.cells
      invariant s.cells == h && (y.right.Leaf? <==> s.cells[prev].right == NULL)
      decreases y
    {
      ReprIds(h, y.right, prev, false);
      par, y := prev, y.right;
      prev := s.cells[prev].right;
      ReprIds(h, y.right, prev, false);
    }
    s.cells := WithRight(s.cells, prev, cur);
    next := s.cells[cur].left;
    s.cells := WithLeft(s.cells, cur, NULL);

    Frame(h, s.cells, t.right, cur, false);
    Unlink(h, l, cur, false);
    AttachHeap(h, s.cells, l, x, NULL);
    AttachShape(l, x);
  }

  lemma {:induction false} Join<T>(a: seq<T>, b: seq<T>, c: seq<T>, d: seq<T>)
    ensures a + (b + c + d) == (a + b) + c + d
  {
  }

  lemma {:induction false} ClearedOne(s: Store, done: seq<Label>, n: Label)
    ensures Cleared(s, done + [n]) == Cleared(s, done) + s.Destroyed(PairOf(n)) + [NodeFreed(n.id)]
  {
    if done == [] {
      assert done + [n] == [n];
      assert Cleared(s, [n][1..]) == [];
    } else {
      ClearedOne(s, done[1..], n);
      assert (done + [n])[1..] == done[1..] + [n];
      Join(s.Destroyed(PairOf(done[0])) + [NodeFreed(done[0].id)], Cleared(s, done[1..]),
           s.Destroyed(PairOf(n)), [NodeFreed(n.id)]);
    }
  }

  lemma {:induction false} NothingCleared(s: Store)
    ensures Labels(Leaf) == [] && Cleared(s, []) == []
  {
  }

  lemma {:induction false} FirstOut(s: Store, done: seq<Label>, t: Tree)
    requires t.Node? && t.left.Leaf?
    ensures done + Labels(t) == (done + [t.n]) + Labels(t.right)
  {
    assert Labels(t) == [t.n] + Labels(t.right);
  }

  lemma {:induction false} PushedReads(t: Tree)
    requires t.Node? && t.left.Node? && Separate(t)
    ensures var u := Attach(t.left, Node(t.n, Leaf, t.right));
      Labels(u) == Labels(t) && Size(u) == Size(t) && Spine(t) < Spine(u) <= Size(u)
  {
    var x := Node(t.n, Leaf, t.right);
    AttachShape(t.left, x);
    SpineBound(Attach(t.left, x));
    assert Labels(x) == [t.n] + Labels(t.right);
  }

  /** ztree_clear: every node is destroyed and freed once, in key order. */
  method Clear(s: Store, nnodes0: int, ghost t0: Tree) returns (nnodes: int)
    requires s.At(Top, t0) && s.loose == {}
    modifies s`cells, s`root, s`log
    ensures s.At(Top, Leaf) && s.cells == map[] && nnodes == nnodes0 - Size(t0)
    ensures s.log == old(s.log) + Cleared(s, Labels(t0))
  {
    hide Cleared, Attach, Labels, Spine;
    nnodes := nnodes0;
    NothingCleared(s);
    if s.root == NULL {
      return;
    }
    var cur := s.root;
    ghost var t, done := t0, [];
    Unlink(s.cells, t0, NULL, s.linked);
    while cur != NULL
      invariant Leftover(s.cells, t, cur)
      invariant done + Labels(t) == Labels(t0) && s.log == old(s.log) + Cleared(s, done)
      invariant nnodes == nnodes0 - Size(t0) + Size(t)
      decreases Size(t), Size(t) - Spine(t)
    {
      ReprIds(s.cells, t.left, cur, false);
      if s.cells[cur].left == NULL {
        FirstOut(s, done, t);
        ClearedOne(s, done, t.n);
        cur := FreeFirst(s, cur, t);
        nnodes := nnodes - 1;
        done, t := done + [t.n], t.right;
      } else {
        PushedReads(t);
        cur := PushRight(s, cur, t);
        t := Attach(t.left, Node(t.n, Leaf, t.right));
      }
    }
    ReprIds(s.cells, t, NULL, false);
    assert done == done + Labels(t);
    s.root := NULL;
  }
}
