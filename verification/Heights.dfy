/** How high the balanced trees can get. */
module Heights {
  import opened Trees
  import RbTree
  import AvlTree

  function Pow2(n: nat): nat {
    if n == 0 then 1 else 2 * Pow2(n - 1)
  }

  function Fib(n: nat): nat {
    if n < 2 then n else Fib(n - 1) + Fib(n - 2)
  }

  lemma {:induction false} Pow2Monotone(m: nat, n: nat)
    requires m <= n
    ensures Pow2(m) <= Pow2(n)
  {
    if m < n {
      Pow2Monotone(m, n - 1);
    }
  }

  lemma {:induction false} Pow2Twice(n: nat)
    ensures Pow2(2 * n) == Pow2(n) * Pow2(n)
  {
    if n > 0 {
      Pow2Twice(n - 1);
      assert Pow2(2 * n) == 4 * Pow2(2 * (n - 1));
    }
  }

  lemma {:induction false} SquareMonotone(a: nat, b: nat)
    requires a <= b
    ensures a * a <= b * b
  {
    assert b * b - a * a == (b - a) * (b + a);
  }

  lemma {:induction false} BlackHeightBounds(t: Tree)
    requires RbTree.Rb(t)
    ensures Pow2(RbTree.BlackHeight(t)) <= Size(t) + 1
    ensures Height(t) <= 2 * RbTree.BlackHeight(t) + if RbTree.Color(t) == RbTree.RED then 1 else 0
  {
    if t.Node? {
      BlackHeightBounds(t.left);
      BlackHeightBounds(t.right);
    }
  }

  /** A red-black tree of n nodes has height at most 2 log2(n + 1). */
  lemma {:induction false} RbHeight(t: Tree)
    requires RbTree.RbTree(t)
    ensures Pow2(Height(t)) <= (Size(t) + 1) * (Size(t) + 1)
  {
    var b, n := RbTree.BlackHeight(t), Size(t) + 1;
    BlackHeightBounds(t);
    Pow2Monotone(Height(t), 2 * b);
    Pow2Twice(b);
    SquareMonotone(Pow2(b), n);
  }

  lemma {:induction false} FibMonotone(m: nat, n: nat)
    requires m <= n
    ensures Fib(m) <= Fib(n)
  {
    if m < n {
      FibMonotone(m, n - 1);
    }
  }

  /** Two subtrees that differ in height by at most one, under a new root. */
  lemma {:induction false} FibStep(lo: nat, hi: nat, sizeLo: nat, sizeHi: nat)
    requires lo <= hi <= lo + 1
    requires Fib(lo + 2) <= sizeLo + 1 && Fib(hi + 2) <= sizeHi + 1
    ensures Fib(hi + 3) <= sizeLo + sizeHi + 2
  {
    FibMonotone(hi + 1, lo + 2);
  }

  /** An AVL tree of height h has at least Fib(h + 2) - 1 nodes. */
  lemma {:induction false} AvlHeight(t: Tree)
    requires AvlTree.Avl(t)
    ensures Fib(Height(t) + 2) <= Size(t) + 1
  {
    if t.Node? {
      AvlHeight(t.left);
      AvlHeight(t.right);
      if Height(t.left) <= Height(t.right) {
        FibStep(Height(t.left), Height(t.right), Size(t.left), Size(t.right));
      } else {
        FibStep(Height(t.right), Height(t.left), Size(t.right), Size(t.left));
      }
    }
  }
}
