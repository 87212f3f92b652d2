/** Erasing a hook: three ways to splice it out, then climbing by parent links. */
module AvlErase {
  import opened Common
  import opened AvlShape
  import opened AvlRotate
  import opened AvlTrees

  // ---- Climbing ----

  /** The focus moves up: `s` together with its parent, whose balance is now `b`. */
  ghost function Up<E>(c: Ctx<E>, s: Tree<E>, b: int): Tree<E>
    requires !c.Top?
  {
    if c.Lt? then Node(s, c.n, b, c.r) else Node(c.l, c.n, b, s)
  }

  lemma StepUp<E>(h: Heap<E>, h': Heap<E>, c: Ctx<E>, s: Tree<E>, b: int, all: set<Hook<E>>)
    requires At(h, c, s, all) && !c.Top? && c.n in h && c.n in h' && h'[c.n] == h[c.n].(bal := b)
    requires Agree(h, h', all - {c.n})
    ensures At(h', c.up, Up(c, s, b), all)
  {
    var u := Up(c, s, b);
    CtxShrink(c, Nodes(s), {});
    if c.Lt? {
      RepLt(h, c, Root(s), null);
    } else {
      RepRt(h, c, Root(s), null);
    }
    AgreeCtx(h, h', c.up, c.n, null);
    AgreeRep(h, h', s, c.n);
    AgreeRep(h, h', if c.Lt? then c.r else c.l, c.n);
    assert Nodes(u) == Nodes(s) + {c.n} + Nodes(if c.Lt? then c.r else c.l);
    RepNode(h', u, Above(c.up, null));
  }

  /** What the climbing code reads about the parent of the subtree in focus. */
  lemma AtParent<E>(h: Heap<E>, c: Ctx<E>, s: Tree<E>, all: set<Hook<E>>)
    requires At(h, c, s, all) && !c.Top?
    ensures c.n in all && c.n in h && h[c.n].bal == c.b && h[c.n].parent == Above(c.up, null)
    ensures s.Node? ==> (h[c.n].left == s.n <==> c.Lt?)
  {
    CtxShrink(c, Nodes(s), {});
    if c.Lt? {
      RepLt(h, c, Root(s), null);
    } else {
      RepRt(h, c, Root(s), null);
    }
  }

  /** The balance of the parent once the subtree below it is one shorter. */
  ghost function Shifted<E>(c: Ctx<E>): int
    requires !c.Top?
  {
    c.b - Dir(c)
  }

  /** `s` is AVL; it is as high as the balances above it say, or, when `short`, one less. */
  ghost predicate Fitting<E>(c: Ctx<E>, s: Tree<E>, short: bool) {
    Avl(s) && CtxAvl(c, if short then Height(s) + 1 else Height(s))
  }

  /** `s` is off by two and as high as the balances above it say. */
  ghost predicate Off<E>(c: Ctx<E>, s: Tree<E>) {
    Unbalanced(s) && CtxAvl(c, Height(s))
  }

  /** A subtree one shorter than the balances above say: the parent's corrected balance tells
      whether the parent's height is kept (odd), has shrunk by one (zero), or needs a rotation. */
  lemma Shortened<E>(c: Ctx<E>, s: Tree<E>)
    requires !c.Top? && Fitting(c, s, true)
    ensures var u := Up(c, s, Shifted(c));
      && -1 <= c.b <= 1
      && (u.b == 1 || u.b == -1 ==> Fitting(c.up, u, false))
      && (u.b == 0 ==> Fitting(c.up, u, true))
      && (u.b == 2 || u.b == -2 ==> Off(c.up, u))
      && (u.b > 0 ==> c.Lt?) && (u.b < 0 ==> c.Rt?)
  {
    hide Avl;
    var u := Up(c, s, Shifted(c));
    HeightNode(u);
    if c.Lt? {
      assert CtxAvl(c.up, 1 + Max(Height(s) + 1, Height(c.r)));
    } else {
      assert CtxAvl(c.up, 1 + Max(Height(c.l), Height(s) + 1));
    }
  }

  lemma UpInOrder<E>(c: Ctx<E>, s: Tree<E>, b: int)
    requires !c.Top?
    ensures InOrder(Plug(c.up, Up(c, s, b))) == InOrder(Plug(c, s))
  {
    PlugInOrder(c.up, Up(c, s, b));
    PlugInOrder(c.up, Up(c, s, c.b));
    assert Plug(c, s) == Plug(c.up, Up(c, s, c.b));
  }

  /** The body of the climbing loop up to the step to the parent: correct the balance of
      `prime`, rotate if it is off by two, and tell whether the height was kept. */
  method Adjust<E>(tree: AvlTree<E>, prime: Hook<E>, eraseDirection: int,
                   ghost c: Ctx<E>, ghost s: Tree<E>, ghost all: set<Hook<E>>)
    returns (x: Hook<E>, stop: bool, ghost u: Tree<E>)
    requires At(HeapOf(all), c, s, all) && !c.Top? && prime == c.n && eraseDirection == Dir(c)
    requires Fitting(c, s, true) && tree.root == TopOf(c, Root(s))
    modifies tree`root, all
    ensures At(HeapOf(all), c.up, u, all) && Root(u) == x && tree.root == TopOf(c.up, x) && Fitting(c.up, u, !stop)
    ensures InOrder(Plug(c.up, u)) == InOrder(Plug(c, s))
  {
    hide At, Plug, InOrder, Fitting, Off, Distinct, Nodes;
    AtParent(HeapOf(all), c, s, all);
    Shortened(c, s);
    UpInOrder(c, s, Shifted(c));
    u := Up(c, s, Shifted(c));
    if eraseDirection == -1 {
      ShiftUp(prime, 1, c, s, all);
      x, stop, u := Settle(tree, prime, prime.bal == 1, prime.bal == 2, c.up, u, all);
    } else {
      ShiftUp(prime, -1, c, s, all);
      x, stop, u := Settle(tree, prime, prime.bal == -1, prime.bal == -2, c.up, u, all);
    }
  }

  method ShiftUp<E>(prime: Hook<E>, d: SignedChar, ghost c: Ctx<E>, ghost s: Tree<E>, ghost all: set<Hook<E>>)
    requires At(HeapOf(all), c, s, all) && !c.Top? && prime == c.n && -1 <= d <= 1 && -1 <= c.b <= 1
    modifies prime`bal
    ensures At(HeapOf(all), c.up, Up(c, s, c.b + d as int), all) && prime.bal as int == c.b + d as int
  {
    ghost var h := HeapOf(all);
    AtParent(h, c, s, all);
    assert h[prime] == Fields(prime);
    prime.bal := prime.bal + d;
    StepUp(h, HeapOf(all), c, s, c.b + d as int, all);
  }

  /** Stop when the height of `prime` was kept; rotate when it is off by two. */
  method Settle<E>(tree: AvlTree<E>, prime: Hook<E>, kept: bool, off: bool,
                   ghost c: Ctx<E>, ghost s: Tree<E>, ghost all: set<Hook<E>>)
    returns (x: Hook<E>, stop: bool, ghost u: Tree<E>)
    requires At(HeapOf(all), c, s, all) && s.Node? && s.n == prime && tree.root == TopOf(c, prime)
    requires if off then Off(c, s) else Fitting(c, s, !kept)
    modifies tree`root, all
    ensures At(HeapOf(all), c, u, all) && Root(u) == x && tree.root == TopOf(c, x) && Fitting(c, u, !stop)
    ensures InOrder(Plug(c, u)) == InOrder(Plug(c, s))
  {
    if off {
      x, stop, u := RotateUp(tree, prime, c, s, all);
    } else {
      x, stop, u := prime, kept, s;
    }
  }

  /** The rotation of the climbing loop; the height is kept exactly when the tall child was even. */
  method RotateUp<E>(tree: AvlTree<E>, prime: Hook<E>, ghost c: Ctx<E>, ghost s: Tree<E>, ghost all: set<Hook<E>>)
    returns (x: Hook<E>, stop: bool, ghost u: Tree<E>)
    requires At(HeapOf(all), c, s, all) && Off(c, s) && s.n == prime
    requires tree.root == TopOf(c, prime)
    modifies tree`root, all
    ensures At(HeapOf(all), c, u, all) && Root(u) == x && tree.root == TopOf(c, x) && Fitting(c, u, !stop)
    ensures InOrder(Plug(c, u)) == InOrder(Plug(c, s))
  {
    ghost var h := HeapOf(all);
    AtTall(h, c, s, all);
    assert h[prime] == Fields(prime) && h[Tall(s).n] == Fields(Tall(s).n);
    var parent := prime.parent;
    var dir := Direction(prime, c, s, all);
    var tallbal := if prime.bal == 2 then prime.right.bal else prime.left.bal;
    var double := if prime.bal == 2 then tallbal == -1 else tallbal == 1;
    RotatedFits(c, s);
    u := Rebalanced(s);
    stop := tallbal == 0;
    x := tree.RotateAndPromote(prime, double, parent, dir, c, s, all);
  }

  /** Which child of its parent `x` is; 0 for the root. */
  method Direction<E>(x: Hook<E>, ghost c: Ctx<E>, ghost s: Tree<E>, ghost all: set<Hook<E>>) returns (dir: int)
    requires At(HeapOf(all), c, s, all) && s.Node? && s.n == x
    ensures dir == Dir(c) && x.parent == Above(c, null)
  {
    ghost var h := HeapOf(all);
    AtNode(h, c, s, all);
    assert h[x] == Fields(x);
    if x.parent == null {
      return 0;
    }
    AtParent(h, c, s, all);
    assert h[x.parent] == Fields(x.parent);
    return if x.parent.left == x then -1 else 1;
  }

  lemma RotatedFits<E>(c: Ctx<E>, s: Tree<E>)
    requires Off(c, s)
    ensures Fitting(c, Rebalanced(s), Tall(s).b != 0) && InOrder(Plug(c, Rebalanced(s))) == InOrder(Plug(c, s))
  {
    RebalancedIsAvl(s);
    RotatedInOrder(c, s);
  }

  lemma RotatedInOrder<E>(c: Ctx<E>, s: Tree<E>)
    requires Unbalanced(s)
    ensures InOrder(Plug(c, Rebalanced(s))) == InOrder(Plug(c, s))
  {
    RebalancedInOrder(s);
    PlugInOrder(c, s);
    PlugInOrder(c, Rebalanced(s));
  }

  /** The climbing loop: `s` is one shorter than the balances above it say. */
  method Climb<E>(tree: AvlTree<E>, start: Hook?<E>, direction: int,
                  ghost c0: Ctx<E>, ghost s0: Tree<E>, ghost all: set<Hook<E>>)
    returns (ghost t: Tree<E>)
    requires At(HeapOf(all), c0, s0, all) && start == Above(c0, null) && direction == Dir(c0)
    requires Fitting(c0, s0, true) && tree.root == TopOf(c0, Root(s0))
    modifies tree`root, all
    ensures At(HeapOf(all), Top, t, all) && Avl(t) && tree.root == Root(t) && InOrder(t) == InOrder(Plug(c0, s0))
  {
    var prime, eraseDirection, stop := start, direction, false;
    ghost var c, s := c0, s0;
    while prime != null && !stop
      invariant At(HeapOf(all), c, s, all) && Fitting(c, s, !stop) && tree.root == TopOf(c, Root(s))
      invariant !stop ==> prime == Above(c, null) && eraseDirection == Dir(c)
      invariant InOrder(Plug(c, s)) == InOrder(Plug(c0, s0))
      decreases c
    {
      var x;
      ghost var u;
      x, stop, u := Adjust(tree, prime, eraseDirection, c, s, all);
      c, s := c.up, u;
      if !stop {
        eraseDirection := Direction(x, c, s, all);
        prime := x.parent;
      }
    }
    t := Plug(c, s);
    AtPlug(HeapOf(all), c, s, all);
    AtPlug(HeapOf(all), Top, t, all);
    PlugAvl(c, s);
  }

  // ---- Splicing ----

  /** Hangs `newe`, the root of `s`, into the place of `e`. */
  method Replace<E>(tree: AvlTree<E>, e: Hook<E>, newe: Hook?<E>,
                    ghost c: Ctx<E>, ghost s: Tree<E>, ghost q: Hook?<E>, ghost all: set<Hook<E>>)
    requires Rep(HeapOf(all), s, q) && Root(s) == newe && RepCtx(HeapOf(all), c, e, null) && e !in all
    requires Distinct(s) && CtxDistinct(c, Nodes(s)) && all == Nodes(s) + CtxNodes(c)
    requires e.parent == Above(c, null) && tree.root == TopOf(c, e)
    modifies tree`root, all
    ensures At(HeapOf(all), c, s, all) && tree.root == TopOf(c, newe)
  {
    hide Rep, RepCtx, Nodes, CtxDistinct;
    ghost var h := HeapOf(all);
    CtxShrink(c, Nodes(s), {});
    if c.Lt? {
      RepLt(h, c, e, null);
    } else if c.Rt? {
      RepRt(h, c, e, null);
    }
    if e.parent != null {
      assert h[e.parent] == Fields(e.parent);
      if e.parent.left == e {
        e.parent.left := newe;
      } else {
        e.parent.right := newe;
      }
    } else {
      tree.root := newe;
    }
    if newe != null {
      newe.parent := e.parent;
    }
    Relink(h, HeapOf(all), c, e, newe, null);
    Reparent(h, HeapOf(all), s, q, Above(c, null));
  }

  /** The tree is split at `e`: `sub` with root `e`, in the context `c`. */
  ghost predicate SplitAt<E>(root: Hook?<E>, h: Heap<E>, c: Ctx<E>, sub: Tree<E>, e: Hook<E>, all: set<Hook<E>>) {
    At(h, c, sub, all) && sub.Node? && sub.n == e && Fitting(c, sub, false) && root == TopOf(c, e)
  }

  /** `e` is gone; the climb starts above the subtree `s`, which has lost one level. */
  ghost predicate Spliced<E>(root: Hook?<E>, h: Heap<E>, c: Ctx<E>, s: Tree<E>, all: set<Hook<E>>,
                             prime: Hook?<E>, eraseDirection: int) {
    At(h, c, s, all) && Fitting(c, s, true) && root == TopOf(c, Root(s))
    && prime == Above(c, null) && eraseDirection == Dir(c)
  }

  /** Everything but `e`, right after the split. */
  lemma WithoutE<E>(h: Heap<E>, h': Heap<E>, c: Ctx<E>, sub: Tree<E>, all: set<Hook<E>>)
    requires At(h, c, sub, all) && sub.Node? && Agree(h, h', all - {sub.n})
    ensures Rep(h', sub.l, sub.n) && Rep(h', sub.r, sub.n) && RepCtx(h', c, sub.n, null)
    ensures Nodes(sub.l) + Nodes(sub.r) + CtxNodes(c) == all - {sub.n}
    ensures CtxDistinct(c, Nodes(sub.l) + Nodes(sub.r)) && Distinct(sub.l) && Distinct(sub.r) && Nodes(sub.l) !! Nodes(sub.r)
  {
    RepNode(h, sub, Above(c, null));
    assert Nodes(sub) == Nodes(sub.l) + {sub.n} + Nodes(sub.r);
    CtxShrink(c, Nodes(sub), Nodes(sub.l) + Nodes(sub.r));
    AgreeRep(h, h', sub.l, sub.n);
    AgreeRep(h, h', sub.r, sub.n);
    AgreeCtx(h, h', c, sub.n, null);
  }

  /** First case: `e` has no right child; its left subtree takes its place. */
  method SpliceNoRight<E>(tree: AvlTree<E>, e: Hook<E>, ghost c: Ctx<E>, ghost sub: Tree<E>, ghost all: set<Hook<E>>)
    returns (prime: Hook?<E>, eraseDirection: int)
    requires SplitAt(tree.root, HeapOf(all), c, sub, e, all) && sub.r.Leaf?
    modifies tree`root, all - {e}
    ensures Spliced(tree.root, HeapOf(all - {e}), c, sub.l, all - {e}, prime, eraseDirection)
  {
    hide At, Plug, Avl, CtxAvl, Rep, RepCtx;
    ghost var h := HeapOf(all);
    AtNode(h, c, sub, all);
    assert h[e] == Fields(e);
    WithoutE(h, HeapOf(all - {e}), c, sub, all);
    HeightNode(sub);
    CtxShrink(c, Nodes(sub.l) + Nodes(sub.r), Nodes(sub.l));
    var newe := e.left;
    prime := e.parent;
    eraseDirection := Direction(e, c, sub, all);
    Replace(tree, e, newe, c, sub.l, e, all - {e});
  }

  /** `y`, above `r`, adopts the left subtree `a` of `e`; the context of `e` is untouched. */
  lemma TakeOver<E>(h: Heap<E>, h': Heap<E>, c: Ctx<E>, a: Tree<E>, y: Hook<E>, b: int, r: Tree<E>, e: Hook<E>, p: Hook?<E>)
    requires Distinct(Node(a, y, b, r)) && CtxDistinct(c, Nodes(Node(a, y, b, r)))
    requires Rep(h, a, e) && RepCtx(h, c, e, null) && Rep(h', r, y)
    requires y in h' && h'[y] == Cell(Root(a), Root(r), p, b)
    requires a.Node? ==> a.n in h && a.n in h' && h'[a.n] == h[a.n].(parent := y)
    requires Agree(h, h', Nodes(a) + CtxNodes(c) - RootSet(a))
    ensures Rep(h', Node(a, y, b, r), p) && RepCtx(h', c, e, null)
  {
    var s := Node(a, y, b, r);
    assert Nodes(s) == Nodes(a) + {y} + Nodes(r);
    Reparent(h, h', a, e, y);
    RepNode(h', s, p);
    AgreeCtx(h, h', c, e, null);
  }

  /** What the second case reads, and the shape of the tree it builds. */
  lemma OpenRight<E>(root: Hook?<E>, h: Heap<E>, h1: Heap<E>, c: Ctx<E>, sub: Tree<E>, e: Hook<E>, all: set<Hook<E>>)
    requires SplitAt(root, h, c, sub, e, all) && sub.r.Node? && sub.r.l.Leaf? && Agree(h, h1, all - {e})
    ensures e in h && h[e] == Cell(Root(sub.l), sub.r.n, Above(c, null), sub.b)
    ensures sub.r.n in h1 && h1[sub.r.n] == Cell(null, Root(sub.r.r), e, sub.r.b) && Rep(h1, sub.r.r, sub.r.n)
    ensures Rep(h1, sub.l, e) && RepCtx(h1, c, e, null)
    ensures var s := Node(sub.l, sub.r.n, sub.b, sub.r.r);
      Distinct(s) && CtxDistinct(c, Nodes(s)) && Nodes(s) + CtxNodes(c) == all - {e}
  {
    AtNode(h, c, sub, all);
    WithoutE(h, h1, c, sub, all);
    RepNode(h1, sub.r, e);
    assert Nodes(Node(sub.l, sub.r.n, sub.b, sub.r.r)) == Nodes(sub.l) + Nodes(sub.r);
  }

  /** Second case: the right child of `e` has no left child; it takes the place of `e` and
      the left subtree of `e`. */
  method SpliceRight<E>(tree: AvlTree<E>, e: Hook<E>, ghost c: Ctx<E>, ghost sub: Tree<E>, ghost all: set<Hook<E>>)
    returns (prime: Hook?<E>, eraseDirection: int)
    requires SplitAt(tree.root, HeapOf(all), c, sub, e, all) && sub.r.Node? && sub.r.l.Leaf?
    modifies tree`root, all - {e}
    ensures prime == sub.r.n && eraseDirection == 1 && tree.root == TopOf(c, prime)
    ensures At(HeapOf(all - {e}), c, Node(sub.l, prime, sub.b, sub.r.r), all - {e})
  {
    hide Avl, Height, Plug, At, Distinct, CtxDistinct, Rep, RepCtx;
    ghost var h1 := HeapOf(all - {e});
    OpenRight(tree.root, HeapOf(all), h1, c, sub, e, all);
    assert Fields(e) == HeapOf(all)[e];
    assert h1[e.right] == Fields(e.right);
    assert allocated(all);
    var r := TakeLeft(e);
    ghost var h2 := HeapOf(all - {e});
    AgreeRep(h1, h2, sub.r.r, r);
    TakeOver(h1, h2, c, sub.l, r, sub.b, sub.r.r, e, e);
    Replace(tree, e, r, c, Node(sub.l, r, sub.b, sub.r.r), e, all - {e});
    return r, 1;
  }

  /** The right child of `e` adopts the left subtree and the balance of `e`. */
  method TakeLeft<E>(e: Hook<E>) returns (r: Hook<E>)
    requires e.right != null && e.right != e && e.left !in {e, e.right}
    modifies e.right, (if e.left == null then {} else {e.left})`parent
    ensures r == e.right && Fields(r) == Cell(e.left, old(r.right), old(r.parent), e.bal as int)
    ensures e.left != null ==> e.left.parent == r
  {
    r := e.right;
    var a := e.left;
    r.left := a;
    if a != null {
      a.parent := r;
    }
    r.bal := e.bal;
  }

  lemma SplicedRight<E>(root: Hook?<E>, h: Heap<E>, c: Ctx<E>, sub: Tree<E>, all: set<Hook<E>>)
    requires sub.Node? && Fitting(c, sub, false) && sub.r.Node? && sub.r.l.Leaf? && root == TopOf(c, sub.r.n)
    requires At(h, c, Node(sub.l, sub.r.n, sub.b, sub.r.r), all)
    ensures Spliced(root, h, Rt(c, sub.l, sub.r.n, sub.b), sub.r.r, all, sub.r.n, 1)
  {
    hide At, Distinct, Nodes;
    var s := Node(sub.l, sub.r.n, sub.b, sub.r.r);
    AtNode(h, c, s, all);
    FocusDown(h, c, s, false, all);
    HeightNode(sub);
    HeightNode(sub.r);
  }

  /** The leftmost hook `y` below the right child `r` of `e` is the root of `w`, at `ci` in that subtree. */
  ghost predicate Leftmost<E>(sub: Tree<E>, ci: Ctx<E>, w: Tree<E>, x: Hook<E>) {
    sub.Node? && sub.r.Node? && ci.Lt? && ci.n == x && w.Node? && Plug(ci, w) == sub.r && Before(ci) == []
  }

  /** The search for the parent of the leftmost hook of the right subtree. */
  method FindLeftmost<E>(e: Hook<E>, ghost c: Ctx<E>, ghost sub: Tree<E>, ghost all: set<Hook<E>>)
    returns (x: Hook<E>, ghost ci: Ctx<E>, ghost w: Tree<E>)
    requires At(HeapOf(all), c, sub, all) && sub.Node? && sub.n == e && sub.r.Node? && sub.r.l.Node?
    ensures Leftmost(sub, ci, w, x) && w.l.Leaf? && x in all && w.n in all && x.left == w.n
    ensures Fields(w.n) == Cell(null, Root(w.r), x, w.b)
  {
    ghost var h := HeapOf(all);
    ghost var cc := Rt(c, sub.l, sub.n, sub.b);
    AtNode(h, c, sub, all);
    assert h[e] == Fields(e);
    StepDown(h, h, c, sub, sub.b, false, all);
    AtNode(h, cc, sub.r, all);
    assert h[e.right] == Fields(e.right);
    StepDown(h, h, cc, sub.r, sub.r.b, true, all);
    x := e.right;
    ci, w := Lt(Top, sub.r.n, sub.r.b, sub.r.r), sub.r.l;
    cc := Lt(cc, sub.r.n, sub.r.b, sub.r.r);
    AtNode(h, cc, w, all);
    assert h[x.left] == Fields(x.left);
    while x.left.left != null
      invariant Leftmost(sub, ci, w, x) && At(h, cc, w, all) && Above(cc, null) == x
      invariant x in all && x.left == w.n && w.n in all && Fields(w.n) == Cell(Root(w.l), Root(w.r), x, w.b)
      decreases w
    {
      StepDown(h, h, cc, w, w.b, true, all);
      x := x.left;
      cc, ci, w := Lt(cc, w.n, w.b, w.r), Lt(ci, w.n, w.b, w.r), w.l;
      AtNode(h, cc, w, all);
      assert h[w.n] == Fields(w.n);
    }
  }

  /** The right subtree of `e` without its leftmost hook, now below that hook. */
  lemma Unhooked<E>(h: Heap<E>, h': Heap<E>, sub: Tree<E>, ci: Ctx<E>, w: Tree<E>, x: Hook<E>, e: Hook<E>)
    requires Leftmost(sub, ci, w, x) && w.l.Leaf? && Rep(h, sub.r, e) && Distinct(sub.r)
    requires var (r, y, z) := (sub.r.n, w.n, Root(w.r));
      && {r, x} + RootSet(w.r) <= h.Keys && {r, x} + RootSet(w.r) <= h'.Keys
      && (if r == x then h'[r] == h[r].(parent := y, left := z)
          else h'[r] == h[r].(parent := y) && h'[x] == h[x].(left := z))
      && (z != null ==> h'[z] == h[z].(parent := x))
    requires Agree(h, h', Nodes(sub.r) - {sub.r.n, x, w.n} - RootSet(w.r))
    ensures Rep(h', Plug(ci, w.r), w.n) && Distinct(Plug(ci, w.r)) && Root(Plug(ci, w.r)) == sub.r.n
    ensures Nodes(sub.r) == Nodes(Plug(ci, w.r)) + {w.n} && w.n !in Nodes(Plug(ci, w.r))
  {
    UnhookedShape(sub, ci, w, x);
    hide Rep, RepCtx, Distinct, CtxDistinct, Nodes, Plug, Before;
    var m := Bypass(h, x, Root(w.r));
    Bypassed(h, sub, ci, w, x, e);
    BypassAgrees(h, h', m, Nodes(sub.r) - {w.n}, sub.r.n, x, w.n, Root(w.r));
    Reparent(m, h', Plug(ci, w.r), e, w.n);
  }

  /** `z` takes the place of the left child of `x`. */
  ghost function Bypass<E>(h: Heap<E>, x: Hook<E>, z: Hook?<E>): Heap<E>
    requires x in h && (z != null ==> z in h)
  {
    var m := h[x := h[x].(left := z)];
    if z == null then m else m[z := h[z].(parent := x)]
  }

  lemma Bypassed<E>(h: Heap<E>, sub: Tree<E>, ci: Ctx<E>, w: Tree<E>, x: Hook<E>, e: Hook<E>)
    requires Leftmost(sub, ci, w, x) && w.l.Leaf? && Rep(h, sub.r, e) && Distinct(sub.r) && {x} + RootSet(w.r) <= h.Keys
    ensures Rep(Bypass(h, x, Root(w.r)), Plug(ci, w.r), e)
  {
    UnhookedShape(sub, ci, w, x);
    KeptKeys(h, sub.r, e);
    hide Rep, RepCtx, Distinct, CtxDistinct, Nodes, Plug, Before;
    var y, z := w.n, Root(w.r);
    var m := Bypass(h, x, z);
    PlugRep(h, ci, w, e);
    RepNode(h, w, x);
    Relink(h, m, ci, y, z, e);
    Reparent(h, m, w.r, y, x);
    PlugRep(m, ci, w.r, e);
  }

  lemma BypassAgrees<E>(h: Heap<E>, h': Heap<E>, m: Heap<E>, s: set<Hook<E>>,
                        r: Hook<E>, x: Hook<E>, y: Hook<E>, z: Hook?<E>)
    requires {r, x} <= h.Keys && {r, x} <= h'.Keys && (z != null ==> z in h && z in h') && m == Bypass(h, x, z)
    requires if r == x then h'[r] == h[r].(parent := y, left := z)
             else h'[r] == h[r].(parent := y) && h'[x] == h[x].(left := z)
    requires z != null ==> h'[z] == h[z].(parent := x)
    requires z !in {r, x} && Agree(h, h', s - {r, x} - (if z == null then {} else {z}))
    ensures Agree(m, h', s - {r}) && h'[r] == m[r].(parent := y)
  {
  }

  lemma KeptKeys<E>(h: Heap<E>, t: Tree<E>, p: Hook?<E>)
    requires Rep(h, t, p)
    ensures Nodes(t) <= h.Keys
  {
  }

  lemma UnhookedShape<E>(sub: Tree<E>, ci: Ctx<E>, w: Tree<E>, x: Hook<E>)
    requires Leftmost(sub, ci, w, x) && w.l.Leaf? && Distinct(sub.r)
    ensures Distinct(w) && Distinct(w.r) && CtxDistinct(ci, Nodes(w)) && CtxDistinct(ci, Nodes(w.r)) && CtxDistinct(ci, {})
    ensures Nodes(w) == {w.n} + Nodes(w.r) && w.n !in Nodes(w.r)
    ensures Nodes(sub.r) == Nodes(w) + CtxNodes(ci) && Nodes(w) !! CtxNodes(ci) && x in CtxNodes(ci)
    ensures Nodes(Plug(ci, w.r)) == Nodes(w.r) + CtxNodes(ci) && Distinct(Plug(ci, w.r)) && Root(Plug(ci, w.r)) == sub.r.n
  {
    PlugNodes(ci, w);
    PlugNodes(ci, w.r);
    PlugTop(ci, w);
    PlugTop(ci, w.r);
    CtxShrink(ci, Nodes(w), Nodes(w.r));
    CtxShrink(ci, Nodes(w), {});
  }

  ghost predicate Opened<E>(h: Heap<E>, c: Ctx<E>, sub: Tree<E>, e: Hook<E>, all: set<Hook<E>>,
                            ci: Ctx<E>, w: Tree<E>, x: Hook<E>) {
    && Leftmost(sub, ci, w, x) && w.l.Leaf? && sub.l.Node?
    && Rep(h, sub.r, e) && Rep(h, sub.l, e) && RepCtx(h, c, e, null)
    && Distinct(sub.r) && Distinct(sub.l) && Nodes(sub.r) !! Nodes(sub.l)
    && Nodes(sub.l) + Nodes(sub.r) + CtxNodes(c) == all && CtxDistinct(c, Nodes(sub.l) + Nodes(sub.r))
    && {sub.r.n, x, w.n} + RootSet(w.r) <= Nodes(sub.r) && w.n !in {x, sub.r.n} + RootSet(w.r)
    && RootSet(w.r) !! {x, sub.r.n}
  }

  /** What the writes of the third case have done. */
  ghost predicate Swapped<E>(h: Heap<E>, h': Heap<E>, sub: Tree<E>, w: Tree<E>, x: Hook<E>, p: Hook?<E>, all: set<Hook<E>>)
    requires sub.Node? && sub.r.Node? && sub.l.Node? && w.Node?
  {
    var (a, r, y, z) := (sub.l.n, sub.r.n, w.n, Root(w.r));
    && {a, r, x, y} + RootSet(w.r) <= h.Keys && {a, r, x, y} + RootSet(w.r) <= h'.Keys
    && h'[y] == Cell(a, r, p, sub.b) && h'[a] == h[a].(parent := y)
    && (if r == x then h'[r] == h[r].(parent := y, left := z)
        else h'[r] == h[r].(parent := y) && h'[x] == h[x].(left := z))
    && (z != null ==> h'[z] == h[z].(parent := x))
    && Agree(h, h', all - {a, r, x, y} - RootSet(w.r))
  }

  /** What the third case reads, and the shape of the tree it builds. */
  lemma OpenSwap<E>(root: Hook?<E>, h: Heap<E>, h1: Heap<E>, c: Ctx<E>, sub: Tree<E>, e: Hook<E>, all: set<Hook<E>>,
                    ci: Ctx<E>, w: Tree<E>, x: Hook<E>)
    requires SplitAt(root, h, c, sub, e, all) && Agree(h, h1, all - {e}) && Leftmost(sub, ci, w, x) && w.l.Leaf?
    ensures e in h && h[e] == Cell(Root(sub.l), sub.r.n, Above(c, null), sub.b)
    ensures Opened(h1, c, sub, e, all - {e}, ci, w, x)
  {
    AtNode(h, c, sub, all);
    WithoutE(h, h1, c, sub, all);
    PlugNodes(ci, w);
    PlugTop(ci, w);
    TopIn(ci, w.n);
    HeightNode(sub);
    HeightNode(sub.r);
    PlugHeight(ci, w);
    assert Nodes(w) == Nodes(w.l) + {w.n} + Nodes(w.r);
  }

  /** The subtree that takes the place of `e` in the third case. */
  ghost function SwapTree<E>(sub: Tree<E>, ci: Ctx<E>, w: Tree<E>): Tree<E>
    requires sub.Node? && w.Node?
  {
    Node(sub.l, w.n, sub.b, Plug(ci, w.r))
  }

  lemma SwapShape<E>(h: Heap<E>, c: Ctx<E>, sub: Tree<E>, e: Hook<E>, all: set<Hook<E>>, ci: Ctx<E>, w: Tree<E>, x: Hook<E>)
    requires Opened(h, c, sub, e, all, ci, w, x)
    ensures var s := SwapTree(sub, ci, w); Distinct(s) && CtxDistinct(c, Nodes(s)) && all == Nodes(s) + CtxNodes(c)
  {
    hide Rep, RepCtx;
    PlugNodes(ci, w);
    PlugNodes(ci, w.r);
    CtxShrink(ci, Nodes(w), Nodes(w.r));
    assert Nodes(w) == Nodes(w.l) + {w.n} + Nodes(w.r);
    assert Nodes(SwapTree(sub, ci, w)) == Nodes(sub.l) + {w.n} + Nodes(Plug(ci, w.r)) == Nodes(sub.l) + Nodes(sub.r);
  }

  lemma SwapTaken<E>(h: Heap<E>, h': Heap<E>, c: Ctx<E>, sub: Tree<E>, e: Hook<E>, all: set<Hook<E>>,
                     ci: Ctx<E>, w: Tree<E>, x: Hook<E>, p: Hook?<E>)
    requires Opened(h, c, sub, e, all, ci, w, x) && Swapped(h, h', sub, w, x, p, all)
    ensures Rep(h', SwapTree(sub, ci, w), p) && RepCtx(h', c, e, null)
  {
    Unhooked(h, h', sub, ci, w, x, e);
    SwapShape(h, c, sub, e, all, ci, w, x);
    TakeOver(h, h', c, sub.l, w.n, sub.b, Plug(ci, w.r), e, p);
  }

  lemma {:induction false} TopIn<E>(c: Ctx<E>, hole: Hook?<E>)
    requires !c.Top?
    ensures TopOf(c, hole) != null && TopOf(c, hole) in CtxNodes(c)
    decreases c
  {
    if !c.up.Top? {
      TopIn(c.up, c.n);
    }
  }

  lemma {:induction false} PlugHeight<E>(c: Ctx<E>, s: Tree<E>)
    ensures Height(Plug(c, s)) >= Height(s) && (!c.Top? ==> Height(Plug(c, s)) > Height(s))
    decreases c
  {
    match c
    case Top =>
    case Lt(up, n, b, r) => PlugHeight(up, Node(s, n, b, r));
    case Rt(up, l, n, b) => PlugHeight(up, Node(l, n, b, s));
  }

  /** The writes of the third case: `y` takes the fields of `e`; `x` keeps the right child of `y`. */
  method SwapWrites<E>(e: Hook<E>, r: Hook<E>, x: Hook<E>)
    requires e.left != null && e.right == r && x.left != null
    requires var (y, z) := (x.left, x.left.right);
      && y !in {e, r, x, e.left} && e.left !in {e, r, x} && e !in {r, x} && z !in {e, r, x, y, e.left}
    modifies r`parent, e.left`parent, x`left, x.left`left, x.left`right, x.left`bal
    modifies (if x.left.right == null then {} else {x.left.right})`parent
    ensures var (y, z) := (old(x.left), old(x.left.right));
      && Fields(y) == Cell(e.left, r, old(y.parent), e.bal as int) && Fields(e.left) == old(Fields(e.left)).(parent := y)
      && (if r == x then Fields(r) == old(Fields(r)).(parent := y, left := z)
          else Fields(r) == old(Fields(r)).(parent := y) && Fields(x) == old(Fields(x)).(left := z))
    ensures old(x.left.right) != null ==> Fields(old(x.left.right)) == old(Fields(x.left.right)).(parent := x)
  {
    var a := e.left;
    var y := x.left;
    var z := y.right;
    y.left := e.left;
    y.right := e.right;
    y.bal := e.bal;
    r.parent := y;
    a.parent := y;
    x.left := z;
    if z != null {
      z.parent := x;
    }
  }

  /** The hooks that the third case writes are different ones. */
  lemma SwapReads<E>(h: Heap<E>, c: Ctx<E>, sub: Tree<E>, e: Hook<E>, all: set<Hook<E>>, ci: Ctx<E>, w: Tree<E>, x: Hook<E>)
    requires Opened(h, c, sub, e, all, ci, w, x)
    ensures sub.Node? && sub.l.Node? && sub.r.Node? && w.Node?
    ensures var (a, r, y, z) := (sub.l.n, sub.r.n, w.n, Root(w.r));
      && {a, r, x, y} + RootSet(w.r) <= all && y !in {r, x, a} && a !in {r, x} && z !in {r, x, y, a}
  {
    hide Rep, RepCtx, Distinct, CtxDistinct;
    assert {sub.l.n} <= Nodes(sub.l);
  }

  method SwapStep<E>(e: Hook<E>, x: Hook<E>, ghost c: Ctx<E>, ghost sub: Tree<E>,
                     ghost all: set<Hook<E>>, ghost ci: Ctx<E>, ghost w: Tree<E>)
    requires Opened(HeapOf(all), c, sub, e, all, ci, w, x) && e !in all && x.left == w.n
    requires Fields(w.n) == Cell(null, Root(w.r), x, w.b) && Fields(e) == Cell(sub.l.n, sub.r.n, Above(c, null), sub.b)
    modifies all
    ensures Swapped(old(HeapOf(all)), HeapOf(all), sub, w, x, w.n.parent, all)
  {
    hide Rep, RepCtx, Distinct, CtxDistinct;
    SwapReads(HeapOf(all), c, sub, e, all, ci, w, x);
    hide Opened, Nodes;
    ghost var h := HeapOf(all);
    assert forall y | y in all :: h[y] == Fields(y);
    assert allocated(all);
    SwapWrites(e, e.right, x);
    ghost var h' := HeapOf(all);
    assert h'[w.n] == Fields(w.n) && h'[sub.l.n] == Fields(sub.l.n) && h'[sub.r.n] == Fields(sub.r.n) && h'[x] == Fields(x);
    assert w.r.Node? ==> h'[w.r.n] == Fields(w.r.n);
  }

  /** The third case up to hanging `y` into the place of `e`. */
  method SwapIn<E>(e: Hook<E>, x: Hook<E>, ghost root: Hook?<E>, ghost c: Ctx<E>, ghost sub: Tree<E>,
                   ghost all: set<Hook<E>>, ghost ci: Ctx<E>, ghost w: Tree<E>)
    requires SplitAt(root, HeapOf(all), c, sub, e, all) && Leftmost(sub, ci, w, x) && w.l.Leaf? && x in all && w.n in all
    requires x.left == w.n && Fields(w.n) == Cell(null, Root(w.r), x, w.b)
    modifies all - {e}
    ensures Rep(HeapOf(all - {e}), SwapTree(sub, ci, w), w.n.parent) && RepCtx(HeapOf(all - {e}), c, e, null)
    ensures Distinct(SwapTree(sub, ci, w)) && CtxDistinct(c, Nodes(SwapTree(sub, ci, w)))
    ensures all - {e} == Nodes(SwapTree(sub, ci, w)) + CtxNodes(c) && e.parent == Above(c, null)
  {
    ghost var h1 := HeapOf(all - {e});
    assert allocated(all);
    OpenSwap(root, HeapOf(all), h1, c, sub, e, all, ci, w, x);
    assert Fields(e) == HeapOf(all)[e];
    SwapStep(e, x, c, sub, all - {e}, ci, w);
    SwapTaken(h1, HeapOf(all - {e}), c, sub, e, all - {e}, ci, w, x, w.n.parent);
    SwapShape(h1, c, sub, e, all - {e}, ci, w, x);
  }

  /** Third case: the leftmost hook of the right subtree takes the place of `e`. */
  method SpliceSwap<E>(tree: AvlTree<E>, e: Hook<E>, ghost c: Ctx<E>, ghost sub: Tree<E>, ghost all: set<Hook<E>>)
    returns (prime: Hook<E>, eraseDirection: int, ghost ci: Ctx<E>, ghost w: Tree<E>)
    requires SplitAt(tree.root, HeapOf(all), c, sub, e, all) && sub.r.Node? && sub.r.l.Node?
    modifies tree`root, all - {e}
    ensures Leftmost(sub, ci, w, prime) && w.l.Leaf? && eraseDirection == -1 && tree.root == TopOf(c, w.n)
    ensures At(HeapOf(all - {e}), c, SwapTree(sub, ci, w), all - {e})
  {
    assert allocated(all);
    prime, ci, w := FindLeftmost(e, c, sub, all);
    var y := prime.left;
    SwapIn(e, prime, tree.root, c, sub, all, ci, w);
    Replace(tree, e, y, c, SwapTree(sub, ci, w), y.parent, all - {e});
    return prime, -1, ci, w;
  }

  lemma SplicedSwap<E>(root: Hook?<E>, h: Heap<E>, c: Ctx<E>, sub: Tree<E>, all: set<Hook<E>>,
                       ci: Ctx<E>, w: Tree<E>, x: Hook<E>)
    requires sub.Node? && Fitting(c, sub, false) && Leftmost(sub, ci, w, x) && w.l.Leaf? && root == TopOf(c, w.n)
    requires At(h, c, SwapTree(sub, ci, w), all)
    ensures Spliced(root, h, Compose(Rt(c, sub.l, w.n, sub.b), ci), w.r, all, x, -1)
  {
    hide At, Avl, CtxAvl, Height;
    var o := Rt(c, sub.l, w.n, sub.b);
    var c' := Compose(o, ci);
    ComposePlug(o, ci, w.r);
    ComposePlug(o, ci, w);
    AtPlug(h, c, SwapTree(sub, ci, w), all);
    AtPlug(h, c', w.r, all);
    ComposeTop(o, ci, Root(w.r));
    assert Plug(o, sub.r) == Plug(c, Node(sub.l, w.n, sub.b, sub.r));
    HeightNode(sub);
    HeightNode(Node(sub.l, w.n, sub.b, sub.r));
    PlugAvl(c, Node(sub.l, w.n, sub.b, sub.r));
    PlugAvl(c', w);
    HeightNode(w);
    HeightNode(w.l);
  }

  lemma {:induction false} ComposeTop<E>(outer: Ctx<E>, inner: Ctx<E>, hole: Hook?<E>)
    ensures TopOf(Compose(outer, inner), hole) == TopOf(outer, TopOf(inner, hole))
    decreases inner
  {
    if !inner.Top? {
      ComposeTop(outer, inner.up, inner.n);
    }
  }

  // ---- Erasing ----

  /** The in-order sequence once `e`, the root of `sub`, is gone. */
  ghost function Remaining<E>(c: Ctx<E>, sub: Tree<E>): seq<Hook<E>>
    requires sub.Node?
  {
    Before(c) + InOrder(sub.l) + (InOrder(sub.r) + After(c))
  }

  lemma RemainingNoRight<E>(c: Ctx<E>, sub: Tree<E>)
    requires sub.Node? && sub.r.Leaf?
    ensures InOrder(Plug(c, sub.l)) == Remaining(c, sub)
  {
    PlugInOrder(c, sub.l);
    assert InOrder(sub.r) + After(c) == After(c);
  }

  lemma RemainingRight<E>(c: Ctx<E>, sub: Tree<E>)
    requires sub.Node? && sub.r.Node? && sub.r.l.Leaf?
    ensures InOrder(Plug(Rt(c, sub.l, sub.r.n, sub.b), sub.r.r)) == Remaining(c, sub)
  {
    PlugInOrder(Rt(c, sub.l, sub.r.n, sub.b), sub.r.r);
    assert InOrder(sub.r) == [sub.r.n] + InOrder(sub.r.r);
    assert Before(c) + InOrder(sub.l) + [sub.r.n] + InOrder(sub.r.r) + After(c)
        == Before(c) + InOrder(sub.l) + ([sub.r.n] + InOrder(sub.r.r) + After(c));
  }

  lemma RemainingSwap<E>(c: Ctx<E>, sub: Tree<E>, ci: Ctx<E>, w: Tree<E>, x: Hook<E>)
    requires Leftmost(sub, ci, w, x) && w.l.Leaf?
    ensures InOrder(Plug(Compose(Rt(c, sub.l, w.n, sub.b), ci), w.r)) == Remaining(c, sub)
  {
    var o := Rt(c, sub.l, w.n, sub.b);
    ComposePlug(o, ci, w.r);
    PlugInOrder(o, Plug(ci, w.r));
    PlugInOrder(ci, w.r);
    PlugInOrder(ci, w);
    var z, a := InOrder(w.r), After(ci);
    assert InOrder(w) == [w.n] + z;
    assert InOrder(sub.r) == [w.n] + z + a && InOrder(Plug(ci, w.r)) == z + a;
    RegroupSwap(Before(c), InOrder(sub.l), w.n, z, a, After(c));
  }

  lemma RegroupSwap<T>(b: seq<T>, l: seq<T>, y: T, z: seq<T>, a: seq<T>, d: seq<T>)
    ensures b + l + [y] + (z + a) + d == b + l + ([y] + z + a + d)
  {
  }

  lemma RegroupOut<T>(b: seq<T>, l: seq<T>, y: T, r: seq<T>, d: seq<T>)
    ensures b + (l + [y] + r) + d == b + l + [y] + (r + d)
  {
  }

  /** `s'` is `s` without its element `e` at position `k`. */
  ghost predicate RemovedAt<E>(s: seq<Hook<E>>, s': seq<Hook<E>>, e: Hook<E>, k: int) {
    0 <= k < |s| && s[k] == e && s' == s[..k] + s[k + 1..]
  }

  lemma RemainingIs<E>(c: Ctx<E>, sub: Tree<E>) returns (k: int)
    requires sub.Node?
    ensures RemovedAt(InOrder(Plug(c, sub)), Remaining(c, sub), sub.n, k) && k == |Before(c) + InOrder(sub.l)|
  {
    PlugInOrder(c, sub);
    RegroupOut(Before(c), InOrder(sub.l), sub.n, InOrder(sub.r), After(c));
    RemoveMiddle(Before(c) + InOrder(sub.l), sub.n, InOrder(sub.r) + After(c));
    k := |Before(c) + InOrder(sub.l)|;
  }

  lemma RemoveMiddle<E>(l: seq<Hook<E>>, y: Hook<E>, r: seq<Hook<E>>)
    ensures RemovedAt(l + [y] + r, l + r, y, |l|)
  {
  }

  lemma RemovedSorted<E>(cmp: (E, E) -> int, s: seq<Hook<E>>, s': seq<Hook<E>>, e: Hook<E>, k: int)
    requires Sorted(cmp, s) && RemovedAt(s, s', e, k)
    ensures Sorted(cmp, s')
  {
    forall i, j | 0 <= i < j < |s'|
      ensures cmp(s'[i].item, s'[j].item) > 0
    {
      assert s'[i] == s[if i < k then i else i + 1] && s'[j] == s[if j < k then j else j + 1];
    }
  }

  method Erase<E>(tree: AvlTree<E>, e: Hook<E>) returns (ghost k: int)
    requires tree.Valid() && e in Nodes(tree.t)
    modifies tree, Nodes(tree.t) - {e}
    ensures tree.Valid() && RemovedAt(old(InOrder(tree.t)), InOrder(tree.t), e, k)
  {
    ghost var all := Nodes(tree.t);
    ghost var c, sub := Focus(tree.t, e);
    k := RemainingIs(c, sub);
    RemovedSorted(tree.cmp, InOrder(tree.t), Remaining(c, sub), e, k);
    Split(tree.root, HeapOf(all), c, sub, e, all);
    ghost var t := Detach(tree, e, c, sub, all);
    tree.t := t;
    tree.size := tree.size - 1;
  }

  method Detach<E>(tree: AvlTree<E>, e: Hook<E>, ghost c: Ctx<E>, ghost sub: Tree<E>, ghost all: set<Hook<E>>)
    returns (ghost t: Tree<E>)
    requires SplitAt(tree.root, HeapOf(all), c, sub, e, all)
    modifies tree`root, all - {e}
    ensures Nodes(t) == all - {e} && Distinct(t) && Avl(t) && Rep(HeapOf(all - {e}), t, null) && tree.root == Root(t)
    ensures InOrder(t) == Remaining(c, sub)
  {
    var prime, eraseDirection;
    ghost var c', s';
    prime, eraseDirection, c', s' := Splice(tree, e, c, sub, all);
    t := Climb(tree, prime, eraseDirection, c', s', all - {e});
  }

  lemma Split<E>(root: Hook?<E>, h: Heap<E>, c: Ctx<E>, sub: Tree<E>, e: Hook<E>, all: set<Hook<E>>)
    requires var t := Plug(c, sub);
      Rep(h, t, null) && Distinct(t) && Avl(t) && root == Root(t) && all == Nodes(t)
    requires sub.Node? && sub.n == e
    ensures SplitAt(root, h, c, sub, e, all)
  {
    AtPlug(h, c, sub, all);
    PlugAvl(c, sub);
  }

  /** The choice among the three cases. */
  method Splice<E>(tree: AvlTree<E>, e: Hook<E>, ghost c: Ctx<E>, ghost sub: Tree<E>, ghost all: set<Hook<E>>)
    returns (prime: Hook?<E>, eraseDirection: int, ghost c': Ctx<E>, ghost s: Tree<E>)
    requires SplitAt(tree.root, HeapOf(all), c, sub, e, all)
    modifies tree`root, all - {e}
    ensures Spliced(tree.root, HeapOf(all - {e}), c', s, all - {e}, prime, eraseDirection)
    ensures InOrder(Plug(c', s)) == Remaining(c, sub)
  {
    ghost var h := HeapOf(all);
    AtNode(h, c, sub, all);
    assert h[e] == Fields(e);
    if e.right == null {
      c', s := c, sub.l;
      prime, eraseDirection := SpliceNoRight(tree, e, c, sub, all);
      RemainingNoRight(c, sub);
    } else {
      StepDown(h, h, c, sub, sub.b, false, all);
      AtNode(h, Rt(c, sub.l, e, sub.b), sub.r, all);
      assert h[e.right] == Fields(e.right);
      if e.right.left == null {
        c', s := Rt(c, sub.l, sub.r.n, sub.b), sub.r.r;
        prime, eraseDirection := SpliceRight(tree, e, c, sub, all);
        SplicedRight(tree.root, HeapOf(all - {e}), c, sub, all - {e});
        RemainingRight(c, sub);
      } else {
        ghost var ci, w;
        prime, eraseDirection, ci, w := SpliceSwap(tree, e, c, sub, all);
        c', s := Compose(Rt(c, sub.l, w.n, sub.b), ci), w.r;
        SplicedSwap(tree.root, HeapOf(all - {e}), c, sub, all - {e}, ci, w, prime);
        RemainingSwap(c, sub, ci, w, prime);
      }
    }
  }
}
