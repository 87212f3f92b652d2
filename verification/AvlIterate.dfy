/** Lookup, in-order iteration, counting, and the height bound. */
module AvlIterate {
  import opened AvlShape
  import opened AvlPath
  import opened AvlTrees
  import opened AvlErase

  // ---- Lookup ----

  /** At most `Height` comparisons; with a comparator that fits the order, nothing equal is missed. */
  method Find<E>(tree: AvlTree<E>, cmp: E -> int) returns (i: Hook?<E>, ghost comparisons: nat)
    requires tree.Valid()
    ensures i != null ==> i in InOrder(tree.t) && cmp(i.item) == 0
    ensures Fits(cmp, InOrder(tree.t)) ==> (i == null <==> forall x | x in InOrder(tree.t) :: cmp(x.item) != 0)
    ensures comparisons <= Height(tree.t)
  {
    ghost var h, all := HeapOf(Nodes(tree.t)), Nodes(tree.t);
    ghost var c, s := Top, tree.t;
    if Fits(cmp, InOrder(tree.t)) {
      FoundIff(tree.t, cmp);
    }
    InOrderNodes(tree.t);
    AtPlug(h, Top, tree.t, all);
    comparisons := 0;
    i := tree.root;
    while i != null
      invariant i == Root(s) && At(h, c, s, all) && Found(tree.t, cmp) == Found(s, cmp)
      invariant comparisons + Height(s) <= Height(tree.t)
      decreases s
    {
      AtNode(h, c, s, all);
      assert h[i] == Fields(i);
      var r := cmp(i.item);
      assert r == Sign(cmp, s.n);
      comparisons := comparisons + 1;
      if r < 0 {
        StepDown(h, h, c, s, s.b, true, all);
        i := i.left;
        c, s := Lt(c, s.n, s.b, s.r), s.l;
      } else if r > 0 {
        StepDown(h, h, c, s, s.b, false, all);
        i := i.right;
        c, s := Rt(c, s.l, s.n, s.b), s.r;
      } else {
        return;
      }
    }
  }

  // ---- How high a tree can be ----

  function Fib(n: nat): nat {
    if n < 2 then n else Fib(n - 1) + Fib(n - 2)
  }

  function Pow2(n: nat): nat {
    if n == 0 then 1 else 2 * Pow2(n - 1)
  }

  lemma {:induction false} FibGrows(n: nat)
    ensures Fib(n) <= Fib(n + 1)
  {
    if n >= 2 {
      FibGrows(n - 1);
      FibGrows(n - 2);
    }
  }

  lemma {:induction false} FibExponential(n: nat)
    ensures Fib(n + 2) >= Pow2(n / 2)
  {
    if n >= 2 {
      FibExponential(n - 2);
      FibGrows(n);
    }
  }

  /** Two subtrees whose heights differ by at most one. */
  lemma FibJoins(hl: nat, hr: nat, nl: nat, nr: nat)
    requires nl + 1 >= Fib(hl + 2) && nr + 1 >= Fib(hr + 2) && -1 <= hl - hr <= 1
    ensures nl + 1 + nr + 1 >= Fib((if hl < hr then hr else hl) + 3)
  {
    FibGrows(hl + 1);
    FibGrows(hr + 1);
  }

  /** A valid tree of height `h` has at least Fib(h+2)-1 hooks. */
  lemma {:induction false} FibBound<E>(t: Tree<E>)
    requires Avl(t)
    ensures |InOrder(t)| + 1 >= Fib(Height(t) + 2)
  {
    if t.Node? {
      FibBound(t.l);
      FibBound(t.r);
      FibJoins(Height(t.l), Height(t.r), |InOrder(t.l)|, |InOrder(t.r)|);
      assert |InOrder(t)| == |InOrder(t.l)| + 1 + |InOrder(t.r)|;
    }
  }

  /** Hence a search makes at most 2*log2(n+1)+1 comparisons: 2^(h/2) <= n+1. */
  lemma LogarithmicHeight<E>(t: Tree<E>)
    requires Avl(t)
    ensures Pow2(Height(t) / 2) <= |InOrder(t)| + 1
  {
    FibBound(t);
    FibExponential(Height(t));
  }

  // ---- Iteration ----

  lemma {:induction false} NoDuplicates<E>(t: Tree<E>)
    requires Distinct(t)
    ensures forall i, j | 0 <= i < j < |InOrder(t)| :: InOrder(t)[i] != InOrder(t)[j]
  {
    if t.Node? {
      var s, m := InOrder(t), |InOrder(t.l)|;
      NoDuplicates(t.l);
      NoDuplicates(t.r);
      forall i, j | 0 <= i < j < |s|
        ensures s[i] != s[j]
      {
        if i < m { InOrderAt(t.l, i); }
        if m < j { InOrderAt(t.r, j - m - 1); }
      }
    }
  }

  ghost function First<E>(s: seq<Hook<E>>): Hook?<E> {
    if s == [] then null else s[0]
  }

  /** Down to the leftmost hook of a subtree. */
  method LeftmostOf<E>(start: Hook<E>, ghost c0: Ctx<E>, ghost s0: Tree<E>, ghost all: set<Hook<E>>) returns (x: Hook<E>)
    requires At(HeapOf(all), c0, s0, all) && s0.Node? && s0.n == start
    ensures InOrder(s0) != [] && x == InOrder(s0)[0]
  {
    ghost var h := HeapOf(all);
    ghost var c, s := c0, s0;
    x := start;
    AtNode(h, c, s, all);
    FirstOfLeft(s);
    assert h[x] == Fields(x);
    while x.left != null
      invariant At(h, c, s, all) && s.Node? && s.n == x && x in all && x.left == Root(s.l)
      invariant InOrder(s) != [] && InOrder(s)[0] == InOrder(s0)[0]
      decreases s
    {
      FirstOfLeft(s);
      AtNode(h, c, s, all);
      StepDown(h, h, c, s, s.b, true, all);
      x := x.left;
      c, s := Lt(c, s.n, s.b, s.r), s.l;
      AtNode(h, c, s, all);
      assert h[x] == Fields(x);
    }
    FirstOfLeft(s);
  }

  lemma FirstOfLeft<E>(s: Tree<E>)
    requires s.Node?
    ensures InOrder(s) != [] && InOrder(s)[0] == if s.l.Leaf? then s.n else InOrder(s.l)[0]
    ensures s.l.Node? ==> InOrder(s.l) != []
  {
    if s.l.Node? {
      assert |InOrder(s.l)| > 0;
    }
  }

  method Begin<E>(tree: AvlTree<E>) returns (it: Hook?<E>)
    requires tree.Valid()
    ensures it == First(InOrder(tree.t))
  {
    it := tree.root;
    if it != null {
      AtPlug(HeapOf(Nodes(tree.t)), Top, tree.t, Nodes(tree.t));
      it := LeftmostOf(it, Top, tree.t, Nodes(tree.t));
    }
  }

  /** Up while coming from the right. */
  method ClimbFromRight<E>(start: Hook<E>, ghost c0: Ctx<E>, ghost s0: Tree<E>, ghost all: set<Hook<E>>)
    returns (next: Hook?<E>)
    requires At(HeapOf(all), c0, s0, all) && s0.Node? && s0.n == start
    ensures next == First(After(c0))
  {
    ghost var h := HeapOf(all);
    ghost var c, s := c0, s0;
    var x := start;
    AtLinks(h, c, s, all);
    assert h[x] == Fields(x);
    assert x.parent != null ==> h[x.parent] == Fields(x.parent);
    while x.parent != null && x.parent.right == x
      invariant At(h, c, s, all) && s.Node? && s.n == x && After(c) == After(c0) && x in all
      invariant x.parent == Above(c, null) && (c.Top? || c.n in all) && (!c.Top? ==> (c.n.right == x <==> c.Rt?))
      decreases c
    {
      AtLinks(h, c, s, all);
      StepUp(h, h, c, s, c.b, all);
      x := x.parent;
      c, s := c.up, Node(c.l, c.n, c.b, s);
      AtLinks(h, c, s, all);
      assert h[x] == Fields(x);
      assert x.parent != null ==> h[x.parent] == Fields(x.parent);
    }
    next := x.parent;
  }

  lemma AtLinks<E>(h: Heap<E>, c: Ctx<E>, s: Tree<E>, all: set<Hook<E>>)
    requires At(h, c, s, all) && s.Node?
    ensures s.n in all && s.n in h && h[s.n].parent == Above(c, null)
    ensures !c.Top? ==> c.n in all && c.n in h && h[c.n].bal == c.b && (h[c.n].right == s.n <==> c.Rt?)
  {
    AtNode(h, c, s, all);
    CtxShrink(c, Nodes(s), {});
    if c.Lt? {
      RepLt(h, c, Root(s), null);
    } else if c.Rt? {
      RepRt(h, c, Root(s), null);
    }
  }

  /** The hook after the `k`-th in order, or null after the last. */
  method Next<E>(x: Hook<E>, ghost tree: AvlTree<E>, ghost k: nat) returns (next: Hook?<E>)
    requires tree.Valid() && k < |InOrder(tree.t)| && InOrder(tree.t)[k] == x
    ensures next == if k + 1 < |InOrder(tree.t)| then InOrder(tree.t)[k + 1] else null
  {
    ghost var h, all := HeapOf(Nodes(tree.t)), Nodes(tree.t);
    InOrderAt(tree.t, k);
    ghost var c, s := Focus(tree.t, x);
    AtPlug(h, Top, tree.t, all);
    AtPlug(h, c, s, all);
    AtNode(h, c, s, all);
    assert h[x] == Fields(x);
    WhatFollows(tree.t, c, s, k);
    if x.right != null {
      StepDown(h, h, c, s, s.b, false, all);
      next := LeftmostOf(x.right, Rt(c, s.l, s.n, s.b), s.r, all);
    } else {
      next := ClimbFromRight(x, c, s, all);
    }
  }

  /** What follows position `k` in order: the right subtree, then what follows the context. */
  lemma WhatFollows<E>(t: Tree<E>, c: Ctx<E>, s: Tree<E>, k: nat)
    requires Distinct(t) && Plug(c, s) == t && s.Node? && k < |InOrder(t)| && InOrder(t)[k] == s.n
    ensures InOrder(t)[k + 1..] == InOrder(s.r) + After(c)
  {
    var m := RemainingIs(c, s);
    NoDuplicates(t);
    assert m == k;
    assert Remaining(c, s)[k..] == InOrder(s.r) + After(c);
    assert Remaining(c, s)[k..] == InOrder(t)[k + 1..];
  }

  /** Counting by iteration, for trees that do not store their size. */
  method Count<E>(tree: AvlTree<E>) returns (n: nat)
    requires tree.Valid()
    ensures n == |InOrder(tree.t)| == tree.size
  {
    n := 0;
    assert allocated(Nodes(tree.t));
    var it := Begin(tree);
    while it != null
      invariant tree.Valid() && n <= |InOrder(tree.t)|
      invariant it == if n < |InOrder(tree.t)| then InOrder(tree.t)[n] else null
      decreases |InOrder(tree.t)| - n
    {
      assert allocated(Nodes(tree.t));
      it := Next(it, tree, n);
      n := n + 1;
    }
  }
}
