/** The plain variant: no parent links, no balancing. */
module BstTree {
  import opened Trees
  import opened SortedList
  import opened TreeStore

  method Insert(s: Store, key: Key, value: Value, ghost t: Tree) returns (inserted: bool, ghost t': Tree)
    requires !s.linked && s.At(Top, t) && Sorted(Inorder(t))
    modifies s`cells, s`root, s`log
    ensures s.At(Top, t')
    ensures Inorder(t') == Put(Inorder(t), key, value)
    ensures inserted <==> Get(Inorder(t), key).None?
    ensures s.log == old(s.log) + if inserted then [] else s.Destroyed(Get(Inorder(t), key).value)
  {
    var slot, parent, cur;
    ghost var c, x;
    slot, parent, cur, c, x := s.Find(key, t);
    if cur == NULL {
      var node := s.Graft(slot, key, value, NULL, 0, c);
      ghost var n := Label(node, key, value, 0);
      GraftIsPut(c, n);
      s.ZipTop(c, Node(n, Leaf, Leaf));
      return true, Plug(c, Node(n, Leaf, Leaf));
    }
    FoundIs(c, x, key, value);
    s.Overwrite(cur, key, value, c, x);
    ghost var x' := Node(x.n.(key := key, value := value), x.left, x.right);
    s.ZipTop(c, x');
    return false, Plug(c, x');
  }

  method Remove(s: Store, key: Key, ghost t: Tree)
    returns (removed: bool, ghost t': Tree, ghost freed: Ptr)
    requires !s.linked && s.At(Top, t) && Sorted(Inorder(t))
    modifies s`cells, s`root, s`log, s`loose
    ensures s.At(Top, t') && s.loose == old(s.loose)
    ensures Inorder(t') == Del(Inorder(t), key)
    ensures removed <==> Get(Inorder(t), key).Some?
    ensures !removed ==> s.log == old(s.log)
    ensures removed ==>
      && freed in old(s.cells) && s.cells.Keys == old(s.cells.Keys) - {freed} && Locate(t, key).Node?
      && s.log == old(s.log) + s.Destroyed(PairOf(Victim(Locate(t, key)))) + [NodeFreed(freed)]
  {
    var slot, parent, cur;
    ghost var c, x;
    slot, parent, cur, c, x := s.Find(key, t);
    if cur == NULL {
      PlugInorder(c, Leaf);
      Narrow(Before(c), [], After(c), key, 0);
      return false, t, NULL;
    }
    FoundIs(c, x, key, 0);
    ghost var c', x';
    cur, slot, c', x' := s.Select(cur, slot, c, x);
    t' := RemoveSelected(s, cur, slot, c', x');
    removed, freed := true, cur;
  }

  /** The selected node, with at most one child, is taken out and freed. */
  method RemoveSelected(s: Store, cur: Ptr, slot: Slot, ghost c: Ctx, ghost x: Tree) returns (ghost t': Tree)
    requires !s.linked && s.At(c, x) && x.Node? && cur == x.n.id && (x.left.Leaf? || x.right.Leaf?)
    requires slot == SlotOf(c)
    modifies s`cells, s`root, s`log, s`loose
    ensures s.At(Top, t') && s.loose == old(s.loose)
    ensures Inorder(t') == Before(c) + Inorder(x.left) + Inorder(x.right) + After(c)
    ensures cur in old(s.cells) && s.cells.Keys == old(s.cells.Keys) - {cur}
    ensures s.log == old(s.log) + s.Destroyed(PairOf(x.n)) + [NodeFreed(cur)]
  {
    ReprIds(s.cells, x.left, cur, false);
    ReprIds(s.cells, x.right, cur, false);
    ghost var y := OnlyChild(x);
    s.UnlinkAt(slot, cur, if s.cells[cur].left == NULL then s.cells[cur].right else s.cells[cur].left, c, x);
    s.Discard(cur, c, y);
    PlugInorder(c, y);
    OnlyChildInorder(Before(c), x, After(c));
    s.ZipTop(c, y);
    t' := Plug(c, y);
  }
}
