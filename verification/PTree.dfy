/** The public tree: one interface over the three variants, each refining the same
    sorted list (and so the same finite map). */
module PTree {
  import opened Trees
  import opened SortedList
  import opened TreeStore
  import BstTree
  import RbTree
  import AvlTree
  import Heights
  import Traversal

  datatype TreeType = Binary | RedBlack | AVL

  /** The balance every variant keeps. */
  predicate Balanced(kind: TreeType, t: Tree) {
    match kind
    case Binary => true
    case RedBlack => RbTree.RbTree(t)
    case AVL => AvlTree.Avl(t)
  }

  datatype Op =
    | Inserting(key: Key, value: Value)
    | Removing(key: Key)
    | LookingUp(key: Key)
    | Traversing(f: Traversal.Callback)
    | Clearing

  datatype Outcome = Done | Removed(found: bool) | Found(value: Value) | Called(calls: seq<Pair>)

  /** The reference: what an operation does to the sorted list and what it answers. */
  function Effect(s: seq<Pair>, op: Op): seq<Pair> {
    match op
    case Inserting(k, v) => Put(s, k, v)
    case Removing(k) => Del(s, k)
    case LookingUp(_) => s
    case Traversing(_) => s
    case Clearing => []
  }

  function Answer(s: seq<Pair>, op: Op): Outcome {
    match op
    case Inserting(_, _) => Done
    case Removing(k) => Removed(Get(s, k).Some?)
    case LookingUp(k) => Found(if Get(s, k).Some? then Get(s, k).value.value else 0)
    case Traversing(f) => Called(Traversal.Calls(s, f))
    case Clearing => Done
  }

  function RunEffect(s: seq<Pair>, ops: seq<Op>): seq<Pair> {
    if ops == [] then s else Effect(RunEffect(s, ops[..|ops| - 1]), ops[|ops| - 1])
  }

  function RunAnswers(s: seq<Pair>, ops: seq<Op>): seq<Outcome> {
    if ops == [] then []
    else RunAnswers(s, ops[..|ops| - 1]) + [Answer(RunEffect(s, ops[..|ops| - 1]), ops[|ops| - 1])]
  }

  /** The reference stays sorted, and each step is the map operation of its name. */
  lemma {:induction false} EffectIsMap(s: seq<Pair>, op: Op)
    requires Sorted(s)
    ensures Sorted(Effect(s, op)) && |Effect(s, op)| == |ToMap(Effect(s, op))|
    ensures op.Inserting? ==> ToMap(Effect(s, op)) == ToMap(s)[op.key.rank := Pair(op.key, op.value)]
    ensures op.Removing? ==>
      && ToMap(Effect(s, op)) == ToMap(s) - {op.key.rank}
      && Answer(s, op) == Removed(op.key.rank in ToMap(s))
    ensures op.LookingUp? ==>
      Answer(s, op) == Found(if op.key.rank in ToMap(s) then ToMap(s)[op.key.rank].value else 0)
  {
    match op
    case Inserting(k, v) =>
      PutSorted(s, k, v);
      PutIsUpdate(s, k, v);
      LengthIsSize(Put(s, k, v));
    case Removing(k) =>
      DelSorted(s, k);
      DelIsRemoval(s, k);
      GetIsLookup(s, k);
      LengthIsSize(Del(s, k));
    case LookingUp(k) =>
      GetIsLookup(s, k);
      LengthIsSize(s);
    case Traversing(_) =>
      LengthIsSize(s);
    case Clearing =>
  }

  lemma {:induction false} RunSorted(ops: seq<Op>)
    ensures Sorted(RunEffect([], ops))
  {
    if ops != [] {
      RunSorted(ops[..|ops| - 1]);
      EffectIsMap(RunEffect([], ops[..|ops| - 1]), ops[|ops| - 1]);
    }
  }

  /** How many nodes the search for a key looks at. */
  function Compared(t: Tree, key: Key): nat {
    if t.Leaf? then 0
    else
      var cmp := Compare(key, t.n.key);
      1 + if cmp < 0 then Compared(t.left, key) else if cmp > 0 then Compared(t.right, key) else 0
  }

  class SearchTree {
    const kind: TreeType
    const store: Store
    var nnodes: int
    ghost var tree: Tree

    /** Search order, balance of the variant, exact memory, node count. */
    ghost predicate Valid()
      reads this, store
    {
      && store.linked == (kind != Binary) && store.loose == {}
      && store.At(Top, tree) && Sorted(Inorder(tree)) && Balanced(kind, tree)
      && nnodes == |Inorder(tree)|
    }

    ghost function Contents(): seq<Pair>
      reads this
    {
      Inorder(tree)
    }

    constructor (kind: TreeType, destroysKeys: bool, destroysValues: bool)
      ensures Valid() && Contents() == [] && this.kind == kind && fresh(store) && store.log == []
      ensures store.destroysKeys == destroysKeys && store.destroysValues == destroysValues
    {
      this.kind := kind;
      store := new Store(kind != Binary, destroysKeys, destroysValues);
      nnodes, tree := 0, Leaf;
    }

    method Insert(key: Key, value: Value)
      requires Valid()
      modifies this, store
      ensures Valid() && Contents() == Put(old(Contents()), key, value)
      ensures nnodes == old(nnodes) + if Get(old(Contents()), key).None? then 1 else 0
      ensures store.log == old(store.log)
            + match Get(old(Contents()), key) { case None => [] case Some(replaced) => store.Destroyed(replaced) }
    {
      PutSorted(Contents(), key, value);
      PutIsUpdate(Contents(), key, value);
      var result;
      match kind {
        case Binary => result, tree := BstTree.Insert(store, key, value, tree);
        case RedBlack => result, tree := RbTree.Insert(store, key, value, tree);
        case AVL => result, tree := AvlTree.Insert(store, key, value, tree);
      }
      if result {
        nnodes := nnodes + 1;
      }
    }

    method Remove(key: Key) returns (result: bool)
      requires Valid()
      modifies this, store
      ensures Valid() && Contents() == Del(old(Contents()), key)
      ensures result <==> Get(old(Contents()), key).Some?
      ensures nnodes == old(nnodes) - if result then 1 else 0
      ensures !result ==> store.log == old(store.log)
      ensures result ==> exists freed ::
        && freed in old(store.cells) && store.cells.Keys == old(store.cells.Keys) - {freed}
        && Locate(old(tree), key).Node?
        && store.log == old(store.log) + store.Destroyed(PairOf(Victim(Locate(old(tree), key)))) + [NodeFreed(freed)]
    {
      DelSorted(Contents(), key);
      DelIsRemoval(Contents(), key);
      if store.root == NULL {
        ReprIds(store.cells, tree, NULL, store.linked);
        return false;
      }
      ghost var freed;
      match kind {
        case Binary => result, tree, freed := BstTree.Remove(store, key, tree);
        case RedBlack => result, tree, freed := RbTree.Remove(store, key, tree);
        case AVL => result, tree, freed := AvlTree.Remove(store, key, tree);
      }
      if result {
        nnodes := nnodes - 1;
      }
    }

    /** Returns the value (NULL when absent) and how many keys were compared. */
    method Lookup(key: Key) returns (value: Value, comparisons: nat)
      requires Valid()
      ensures value == if Get(Contents(), key).Some? then Get(Contents(), key).value.value else 0
      ensures comparisons == Compared(tree, key) <= Height(tree)
      ensures kind == RedBlack ==> Heights.Pow2(comparisons) <= (nnodes + 1) * (nnodes + 1)
      ensures kind == AVL ==> Heights.Fib(comparisons + 2) <= nnodes + 1
    {
      value, comparisons := Search(key);
      HeightBounds(comparisons);
    }

    lemma {:induction false} HeightBounds(n: nat)
      requires Valid() && n <= Height(tree)
      ensures kind == RedBlack ==> Heights.Pow2(n) <= (nnodes + 1) * (nnodes + 1)
      ensures kind == AVL ==> Heights.Fib(n + 2) <= nnodes + 1
    {
      SizeIsInorder(tree);
      if kind == RedBlack {
        Heights.RbHeight(tree);
        Heights.Pow2Monotone(n, Height(tree));
      } else if kind == AVL {
        Heights.AvlHeight(tree);
        Heights.FibMonotone(n + 2, Height(tree) + 2);
      }
    }

    method Search(key: Key) returns (value: Value, comparisons: nat)
      requires Valid()
      ensures value == if Get(Contents(), key).Some? then Get(Contents(), key).value.value else 0
      ensures comparisons == Compared(tree, key) <= Height(tree)
    {
      var cur := store.root;
      comparisons := 0;
      ghost var c, t := Top, tree;
      while cur != NULL
        invariant store.At(c, t) && Plug(c, t) == tree && cur == Root(t)
        invariant Below(Before(c), key) && Above(After(c), key)
        invariant comparisons + Height(t) <= Height(tree) && comparisons + Compared(t, key) == Compared(tree, key)
        decreases t
      {
        var cmp := Compare(key, store.cells[cur].key);
        comparisons := comparisons + 1;
        if cmp < 0 {
          NarrowLeft(c, t, key);
          store.ZipLeft(c, t.n, t.left, t.right);
          cur := store.cells[cur].left;
          c, t := InLeft(t.n, t.right, c), t.left;
        } else if cmp > 0 {
          NarrowRight(c, t, key);
          store.ZipRight(c, t.n, t.left, t.right);
          cur := store.cells[cur].right;
          c, t := InRight(t.n, t.left, c), t.right;
        } else {
          FoundIs(c, t, key, 0);
          return store.cells[cur].value, comparisons;
        }
      }
      ReprIds(store.cells, t, Up(c), store.linked);
      PlugInorder(c, Leaf);
      Narrow(Before(c), [], After(c), key, 0);
      value := 0;
    }

    method Foreach(f: Traversal.Callback) returns (calls: seq<Pair>)
      requires Valid()
      modifies store
      ensures Valid() && store.cells == old(store.cells) && store.root == old(store.root) && store.log == old(store.log)
      ensures calls == Traversal.Calls(Contents(), f)
    {
      calls := Traversal.Foreach(store, f, tree);
    }

    method Clear()
      requires Valid()
      modifies this, store
      ensures Valid() && Contents() == [] && nnodes == 0 && store.cells == map[]
      ensures store.log == old(store.log) + Traversal.Cleared(store, Traversal.Labels(old(tree)))
    {
      SizeIsInorder(tree);
      nnodes := Traversal.Clear(store, nnodes, tree);
      tree := Leaf;
    }
  }

  // ---- the ledger of a run ----

  datatype Tally = Tally(keys: int, values: int, nodes: int)

  /** How many keys and values the callbacks have destroyed and how many nodes are freed. */
  function TallyOf(log: seq<Event>): Tally {
    if log == [] then Tally(0, 0, 0)
    else Plus(TallyOf(log[..|log| - 1]), One(log[|log| - 1]))
  }

  function One(e: Event): Tally {
    match e
    case KeyDestroyed(_) => Tally(1, 0, 0)
    case ValueDestroyed(_) => Tally(0, 1, 0)
    case NodeFreed(_) => Tally(0, 0, 1)
  }

  function Plus(a: Tally, b: Tally): Tally {
    Tally(a.keys + b.keys, a.values + b.values, a.nodes + b.nodes)
  }

  lemma {:induction false} PlusAssoc(a: Tally, b: Tally, c: Tally)
    ensures Plus(Plus(a, b), c) == Plus(a, Plus(b, c)) && Plus(a, Tally(0, 0, 0)) == a
  {
  }

  lemma {:induction false} TallyAppend(a: seq<Event>, b: seq<Event>)
    ensures TallyOf(a + b) == Plus(TallyOf(a), TallyOf(b))
  {
    hide One, Plus;
    if b == [] {
      assert a + b == a;
      PlusAssoc(TallyOf(a), TallyOf(b), TallyOf(b));
    } else {
      var n := |b| - 1;
      TallyAppend(a, b[..n]);
      assert (a + b)[..|a + b| - 1] == a + b[..n] && (a + b)[|a + b| - 1] == b[n];
      PlusAssoc(TallyOf(a), TallyOf(b[..n]), One(b[n]));
    }
  }

  /** The callbacks' share of n destroyed pairs, and m freed nodes. */
  function Share(store: Store, n: int, m: int): Tally {
    Tally(if store.destroysKeys then n else 0, if store.destroysValues then n else 0, m)
  }

  lemma {:induction false} TallyOne(store: Store, pair: Pair)
    ensures TallyOf(store.Destroyed(pair)) == Share(store, 1, 0)
  {
    var k: seq<Event> := if store.destroysKeys then [KeyDestroyed(pair.key)] else [];
    var v: seq<Event> := if store.destroysValues then [ValueDestroyed(pair.value)] else [];
    TallyAppend(k, v);
    TallySingle(KeyDestroyed(pair.key));
    TallySingle(ValueDestroyed(pair.value));
  }

  lemma {:induction false} TallySingle(e: Event)
    ensures TallyOf([e]) == One(e)
  {
    assert [e][..0] == [];
  }

  /** A pair destroyed and its node freed. */
  lemma {:induction false} TallyFreed(store: Store, pair: Pair, p: Ptr)
    ensures TallyOf(store.Destroyed(pair) + [NodeFreed(p)]) == Share(store, 1, 1)
  {
    hide TallyOf;
    TallyAppend(store.Destroyed(pair), [NodeFreed(p)]);
    TallyOne(store, pair);
    TallySingle(NodeFreed(p));
  }

  lemma {:induction false} TallyCleared(store: Store, labels: seq<Label>)
    ensures TallyOf(Traversal.Cleared(store, labels)) == Share(store, |labels|, |labels|)
  {
    hide TallyOf;
    if labels == [] {
      TallyNone();
    } else {
      var first := store.Destroyed(PairOf(labels[0])) + [NodeFreed(labels[0].id)];
      TallyCleared(store, labels[1..]);
      TallyFreed(store, PairOf(labels[0]), labels[0].id);
      TallyAppend(first, Traversal.Cleared(store, labels[1..]));
    }
  }

  lemma {:induction false} TallyNone()
    ensures TallyOf([]) == Tally(0, 0, 0)
  {
  }

  /** Pairs handed to insert, and nodes that the inserts created, over a run. */
  function Handed(ops: seq<Op>): nat {
    if ops == [] then 0 else Handed(ops[..|ops| - 1]) + if ops[|ops| - 1].Inserting? then 1 else 0
  }

  function Created(ops: seq<Op>): nat {
    if ops == [] then 0
    else
      var before, op := ops[..|ops| - 1], ops[|ops| - 1];
      Created(before) + if op.Inserting? && Get(RunEffect([], before), op.key).None? then 1 else 0
  }

  /** Every pair handed to insert is in the tree or has been given to the callbacks, and
      every node created is in the tree or has been freed: by number. */
  ghost predicate Squared(t: SearchTree, ops: seq<Op>)
    reads t, t.store
  {
    TallyOf(t.store.log) == Share(t.store, Handed(ops) - t.nnodes, Created(ops) - t.nnodes)
  }

  lemma {:induction false} LabelsCount(t: Tree)
    ensures |Traversal.Labels(t)| == |Inorder(t)|
  {
    if t.Leaf? {
    } else {
      LabelsCount(t.left);
      LabelsCount(t.right);
    }
  }

  lemma {:induction false} OneMoreOp(before: seq<Op>, op: Op)
    ensures RunEffect([], before + [op]) == Effect(RunEffect([], before), op)
    ensures RunAnswers([], before + [op]) == RunAnswers([], before) + [Answer(RunEffect([], before), op)]
    ensures Handed(before + [op]) == Handed(before) + if op.Inserting? then 1 else 0
    ensures Created(before + [op]) ==
      Created(before) + if op.Inserting? && Get(RunEffect([], before), op.key).None? then 1 else 0
  {
    assert (before + [op])[..|before|] == before;
  }

  /** One operation: the reference's effect and answer, and a squared ledger. */
  method Do(t: SearchTree, op: Op, ghost before: seq<Op>) returns (answer: Outcome)
    requires t.Valid() && t.Contents() == RunEffect([], before) && Squared(t, before)
    modifies t, t.store
    ensures t.Valid() && t.Contents() == RunEffect([], before + [op]) && Squared(t, before + [op])
    ensures answer == Answer(RunEffect([], before), op)
  {
    hide TallyOf, RunEffect, Handed, Created, Put, Del, Traversal.Calls, Traversal.Cleared, Inorder;
    OneMoreOp(before, op);
    ghost var log := t.store.log;
    match op
    case Inserting(k, v) =>
      ghost var found := Get(t.Contents(), k);
      t.Insert(k, v);
      if found.Some? {
        TallyAppend(log, t.store.Destroyed(found.value));
        TallyOne(t.store, found.value);
      } else {
        assert log + [] == log;
      }
      answer := Done;
    case Removing(k) =>
      ghost var x := Locate(t.tree, k);
      var r := t.Remove(k);
      if r {
        ghost var freed :| t.store.log == log + t.store.Destroyed(PairOf(Victim(x))) + [NodeFreed(freed)];
        TallyFreed(t.store, PairOf(Victim(x)), freed);
        assert t.store.log == log + (t.store.Destroyed(PairOf(Victim(x))) + [NodeFreed(freed)]);
        TallyAppend(log, t.store.Destroyed(PairOf(Victim(x))) + [NodeFreed(freed)]);
      }
      answer := Removed(r);
    case LookingUp(k) =>
      var v, _ := t.Lookup(k);
      answer := Found(v);
    case Traversing(f) =>
      var calls := t.Foreach(f);
      answer := Called(calls);
    case Clearing =>
      ghost var labels := Traversal.Labels(t.tree);
      LabelsCount(t.tree);
      t.Clear();
      TallyCleared(t.store, labels);
      TallyAppend(log, Traversal.Cleared(t.store, labels));
      answer := Done;
  }

  /** Any run of operations on a fresh tree of any variant, with or without destroy
      callbacks: the answers are those of the reference, and so do not depend on the
      variant; at the end the tree is balanced, holds what the reference holds, and its
      ledger is squared. */
  method Run(kind: TreeType, destroysKeys: bool, destroysValues: bool, ops: seq<Op>)
    returns (t: SearchTree, answers: seq<Outcome>)
    ensures fresh(t) && t.Valid() && t.kind == kind
    ensures t.store.destroysKeys == destroysKeys && t.store.destroysValues == destroysValues
    ensures t.Contents() == RunEffect([], ops) && answers == RunAnswers([], ops)
    ensures t.nnodes == |ToMap(t.Contents())| && Squared(t, ops)
  {
    hide Effect, Answer;
    t := new SearchTree(kind, destroysKeys, destroysValues);
    answers := [];
    assert ops[..0] == [];
    for i := 0 to |ops|
      invariant fresh(t) && fresh(t.store) && t.Valid() && t.kind == kind
      invariant t.store.destroysKeys == destroysKeys && t.store.destroysValues == destroysValues
      invariant t.Contents() == RunEffect([], ops[..i]) && answers == RunAnswers([], ops[..i])
      invariant Squared(t, ops[..i])
    {
      var answer := Do(t, ops[i], ops[..i]);
      OneMoreOp(ops[..i], ops[i]);
      assert ops[..i] + [ops[i]] == ops[..i + 1];
      answers := answers + [answer];
    }
    assert ops[..|ops|] == ops;
    LengthIsSize(t.Contents());
  }

  // ---- remove gives the callbacks a pair that stays in the tree ----

  lemma {:induction false} NoBlackNodes(t: Tree)
    requires RbTree.Rb(t) && RbTree.BlackHeight(t) == 0
    ensures |Inorder(t)| <= 1 && (RbTree.Color(t) == RbTree.BLACK ==> t.Leaf?)
  {
    if t.Leaf? {
    } else {
      NoBlackNodes(t.left);
      NoBlackNodes(t.right);
    }
  }

  lemma {:induction false} LowTree(t: Tree)
    requires Height(t) <= 1
    ensures |Inorder(t)| <= 1
  {
    if t.Leaf? {
    } else {
      assert t.left.Leaf? && t.right.Leaf?;
    }
  }

  /** A balanced tree of three pairs has the middle one on top. */
  lemma {:induction false} MiddleIsTop(kind: TreeType, t: Tree, a: Pair, b: Pair, c: Pair)
    requires kind != Binary && Balanced(kind, t) && Inorder(t) == [a, b, c]
    ensures t.Node? && PairOf(t.n) == b && Inorder(t.left) == [a] && Inorder(t.right) == [c]
  {
    var l, r := Inorder(t.left), Inorder(t.right);
    assert [a, b, c] == l + [PairOf(t.n)] + r;
    if kind == RedBlack {
      if |l| == 0 {
        NoBlackNodes(t.right);
      } else if |r| == 0 {
        NoBlackNodes(t.left);
      }
    } else {
      if |l| == 0 {
        LowTree(t.right);
      } else if |r| == 0 {
        LowTree(t.left);
      }
    }
    assert |l| == 1 && |r| == 1;
    assert [a, b, c][0] == l[0] && [a, b, c][1] == PairOf(t.n) && [a, b, c][2] == r[0];
  }

  lemma {:induction false} OnlyNode(t: Tree, a: Pair)
    requires Inorder(t) == [a]
    ensures t.Node? && PairOf(Last(t)) == a
  {
    LastIsLast(t);
  }

  lemma {:induction false} ThreePuts(a: Pair, b: Pair, c: Pair)
    requires a.key.rank < b.key.rank < c.key.rank
    ensures Put([], b.key, b.value) == [b] && Put([b], a.key, a.value) == [a, b]
    ensures Put([a, b], c.key, c.value) == [a, b, c] && Del([a, b, c], b.key) == [a, c]
    ensures Get([], b.key).None? && Get([b], a.key).None? && Get([a, b], c.key).None?
    ensures Get([a, b, c], b.key) == Some(b)
  {
    assert [b][1..] == [] && [a, b][1..] == [b] && [a, b, c][1..] == [b, c] && [b, c][1..] == [c];
    assert Put([], c.key, c.value) == [c] && Put([b], c.key, c.value) == [b, c];
    assert Get([], c.key).None? && Get([b], c.key).None? && Get([], a.key).None?;
    assert Get([b, c], b.key) == Some(b);
  }

  /** In a balanced tree of three pairs the search for the middle key ends on top, and what
      is unlinked is the first node. */
  lemma {:induction false} FirstIsVictim(kind: TreeType, t: Tree, a: Pair, b: Pair, c: Pair)
    requires kind != Binary && Balanced(kind, t) && Inorder(t) == [a, b, c]
    ensures Locate(t, b.key).Node? && PairOf(Victim(Locate(t, b.key))) == a
  {
    hide Inorder;
    MiddleIsTop(kind, t, a, b, c);
    OnlyNode(t.left, a);
    assert t.right.Node? by { LeafIsEmpty(t.right); }
  }

  lemma {:induction false} LeafIsEmpty(t: Tree)
    ensures t.Leaf? <==> Inorder(t) == []
  {
  }

  /** A run of either balanced variant: three pairs go in, the middle key is removed, and the
      callbacks get the first pair, which the tree still holds. */
  method DestroyLivePair(kind: TreeType, a: Pair, b: Pair, c: Pair) returns (t: SearchTree)
    requires kind != Binary && a.key.rank < b.key.rank < c.key.rank
    ensures fresh(t) && t.Valid() && t.kind == kind && t.Contents() == [a, c]
    ensures exists freed :: t.store.log == [KeyDestroyed(a.key), ValueDestroyed(a.value), NodeFreed(freed)]
  {
    hide Put, Del, Get, Inorder, Locate, Victim, Balanced;
    ThreePuts(a, b, c);
    t := new SearchTree(kind, true, true);
    t.Insert(b.key, b.value);
    t.Insert(a.key, a.value);
    t.Insert(c.key, c.value);
    FirstIsVictim(kind, t.tree, a, b, c);
    var found := t.Remove(b.key);
  }
}
