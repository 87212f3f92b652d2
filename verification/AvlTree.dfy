/** The intrusive AVL tree itself: fields, insertion, lookup. */
module AvlTrees {
  import opened AvlShape
  import opened AvlRotate
  import opened AvlPath

  ghost predicate Mirrored<E>(cmp: (E, E) -> int, x: E, y: E) {
    cmp(x, y) < 0 <==> cmp(y, x) > 0
  }

  ghost predicate Chained<E>(cmp: (E, E) -> int, x: E, y: E, z: E) {
    cmp(x, y) >= 0 && cmp(y, z) >= 0 ==> cmp(x, z) >= 0
  }

  /** A comparator that orders the items of the hooks in `s` (as a strict weak order). */
  ghost predicate Consistent<E>(cmp: (E, E) -> int, s: set<Hook<E>>) {
    && (forall a, b {:trigger Mirrored(cmp, a.item, b.item)} | a in s && b in s :: Mirrored(cmp, a.item, b.item))
    && (forall a, b, c {:trigger Chained(cmp, a.item, b.item, c.item)} | a in s && b in s && c in s ::
          Chained(cmp, a.item, b.item, c.item))
  }

  /** In-order: each hook sends every later one to its right. */
  ghost predicate Sorted<E>(cmp: (E, E) -> int, s: seq<Hook<E>>) {
    forall i, j | 0 <= i < j < |s| :: cmp(s[i].item, s[j].item) > 0
  }

  ghost function Lookup<E>(cmp: (E, E) -> int, item: E): E -> int {
    x => cmp(x, item)
  }

  lemma FitsPair<E>(cmp: (E, E) -> int, s: set<Hook<E>>, x: Hook<E>, y: Hook<E>, e: Hook<E>)
    requires Consistent(cmp, s) && x in s && y in s && e in s && cmp(x.item, y.item) > 0
    ensures cmp(x.item, e.item) <= 0 ==> cmp(y.item, e.item) <= 0
    ensures cmp(x.item, e.item) < 0 ==> cmp(y.item, e.item) < 0
  {
    assert Mirrored(cmp, x.item, e.item) && Mirrored(cmp, e.item, x.item);
    assert Mirrored(cmp, y.item, e.item) && Mirrored(cmp, e.item, y.item) && Mirrored(cmp, y.item, x.item);
    assert Chained(cmp, e.item, x.item, y.item) && Chained(cmp, y.item, e.item, x.item);
  }

  lemma ConsistentFits<E>(cmp: (E, E) -> int, t: Tree<E>, e: Hook<E>)
    requires Consistent(cmp, Nodes(t) + {e}) && Sorted(cmp, InOrder(t))
    ensures Fits(Lookup(cmp, e.item), InOrder(t))
  {
    var s, f := InOrder(t), Lookup(cmp, e.item);
    forall i, j | 0 <= i < j < |s|
      ensures (Sign(f, s[i]) <= 0 ==> Sign(f, s[j]) <= 0) && (Sign(f, s[i]) < 0 ==> Sign(f, s[j]) < 0)
    {
      InOrderAt(t, i);
      InOrderAt(t, j);
      FitsPair(cmp, Nodes(t) + {e}, s[i], s[j], e);
    }
  }

  lemma MirrorSign<E>(cmp: (E, E) -> int, s: set<Hook<E>>, x: Hook<E>, e: Hook<E>)
    requires Consistent(cmp, s) && x in s && e in s && Sign(Lookup(cmp, e.item), x) < 0
    ensures cmp(e.item, x.item) > 0
  {
    assert Mirrored(cmp, x.item, e.item);
  }

  lemma AddedElement<E>(s: seq<Hook<E>>, s': seq<Hook<E>>, f: E -> int, e: Hook<E>, k: int, i: int)
    requires AddedAt(s, s', f, e, k) && 0 <= i < |s'|
    ensures |s'| == |s| + 1 && 0 <= k <= |s|
    ensures if i < k then s'[i] == s[i] && Sign(f, s[i]) > 0
            else if i == k then s'[i] == e
            else s'[i] == s[i - 1] && Sign(f, s[i - 1]) < 0
  {
  }

  lemma AddedSorted<E>(cmp: (E, E) -> int, t: Tree<E>, s': seq<Hook<E>>, e: Hook<E>, k: int)
    requires Consistent(cmp, Nodes(t) + {e}) && Sorted(cmp, InOrder(t))
    requires AddedAt(InOrder(t), s', Lookup(cmp, e.item), e, k)
    ensures Sorted(cmp, s')
  {
    hide AddedAt, Consistent;
    var s, f := InOrder(t), Lookup(cmp, e.item);
    forall i, j | 0 <= i < j < |s'|
      ensures cmp(s'[i].item, s'[j].item) > 0
    {
      AddedElement(s, s', f, e, k, i);
      AddedElement(s, s', f, e, k, j);
      if i == k {
        InOrderAt(t, j - 1);
        MirrorSign(cmp, Nodes(t) + {e}, s[j - 1], e);
      } else if j == k {
        assert Sign(f, s[i]) > 0;
      } else {
        assert cmp(s[if i < k then i else i - 1].item, s[if j < k then j else j - 1].item) > 0;
      }
    }
  }

  /** Where `e` goes: the last hook `i` of its path, at `sub` in `c`; and the deepest hook `prime`
      on the path that leans (or the root), at `sp` in `cp`. */
  ghost predicate Place<E>(t: Tree<E>, f: E -> int, e: Hook<E>, i: Hook<E>, goLeft: bool,
                           prime: Hook<E>, primeParent: Hook?<E>, primeParentDir: int,
                           c: Ctx<E>, sub: Tree<E>, cp: Ctx<E>, sp: Tree<E>) {
    && Plug(c, sub) == t && Plug(cp, sp) == t
    && sub.Node? && sub.n == i && Next(sub, f).Leaf? && goLeft == (Sign(f, i) < 0)
    && sp.Node? && sp.n == prime && primeParent == Above(cp, null) && primeParentDir == Dir(cp)
    && (cp.Top? || sp.b != 0) && ZeroBelow(sp, f) && !Found(sp, f)
    && Link(t, f, e) == Plug(c, Link(sub, f, e)) == Plug(cp, Link(sp, f, e))
  }

  class AvlTree<E> {
    var root: Hook?<E>
    var size: nat
    const cmp: (E, E) -> int
    /** The tree the hooks form. */
    ghost var t: Tree<E>

    ghost predicate Valid()
      reads this, Nodes(t)
    {
      && Rep(HeapOf(Nodes(t)), t, null) && root == Root(t)
      && Distinct(t) && Avl(t)
      && Sorted(cmp, InOrder(t)) && size == |InOrder(t)|
    }

    constructor (cmp: (E, E) -> int)
      ensures Valid() && InOrder(t) == [] && this.cmp == cmp
    {
      this.cmp := cmp;
      root, size, t := null, 0, Leaf;
    }

    /** Where insertion goes: down the search path, remembering the deepest hook whose balance
        is not zero (or the root). Returns `i == null` when an equal hook is met. */
    method Descend(e: Hook<E>)
      returns (i: Hook?<E>, goLeft: bool, prime: Hook<E>, primeParent: Hook?<E>, primeParentDir: int,
               ghost c: Ctx<E>, ghost sub: Tree<E>, ghost cp: Ctx<E>, ghost sp: Tree<E>, ghost comparisons: nat)
      requires Valid() && root != null
      ensures i == null <==> Found(t, Lookup(cmp, e.item))
      ensures i != null ==> Place(t, Lookup(cmp, e.item), e, i, goLeft, prime, primeParent, primeParentDir, c, sub, cp, sp)
      ensures Valid() && At(HeapOf(Nodes(t)), c, sub, Nodes(t)) && comparisons <= Height(t)
    {
      hide At, Avl, Distinct, Sorted, Rep;
      ghost var f := Lookup(cmp, e.item);
      ghost var h := HeapOf(Nodes(t));
      i, prime, primeParent, primeParentDir, goLeft := root, root, null, 0, false;
      c, sub, cp, sp, comparisons := Top, t, Top, t, 0;
      AtPlug(h, Top, t, Nodes(t));
      while true
        invariant comparisons + Height(sub) <= Height(t)
        invariant sub.Node? && sub.n == i && Plug(c, sub) == t && At(h, c, sub, Nodes(t))
        invariant sp.Node? && sp.n == prime && Plug(cp, sp) == t && (cp.Top? || sp.b != 0)
        invariant primeParent == Above(cp, null) && primeParentDir == Dir(cp)
        invariant Found(t, f) == Found(sub, f) == Found(sp, f)
        invariant ZeroBelow(sub, f) ==> ZeroBelow(sp, f)
        invariant Link(t, f, e) == Plug(c, Link(sub, f, e)) == Plug(cp, Link(sp, f, e))
        decreases sub
      {
        AtNode(h, c, sub, Nodes(t));
        assert h[i] == Fields(i);
        var r := cmp(i.item, e.item);
        comparisons := comparisons + 1;
        if r < 0 {
          if i.left != null {
            ghost var down := Lt(c, sub.n, sub.b, sub.r);
            assert Plug(down, sub.l) == t;
            StepDown(h, h, c, sub, sub.b, true, Nodes(t));
            AtNode(h, down, sub.l, Nodes(t));
            assert h[i.left] == Fields(i.left);
            if i.left.bal != 0 {
              prime, primeParent, primeParentDir := i.left, i, -1;
              cp, sp := down, sub.l;
            }
            i := i.left;
            c, sub := down, sub.l;
          } else {
            goLeft := true;
            return;
          }
        } else if r > 0 {
          if i.right != null {
            ghost var down := Rt(c, sub.l, sub.n, sub.b);
            assert Plug(down, sub.r) == t;
            StepDown(h, h, c, sub, sub.b, false, Nodes(t));
            AtNode(h, down, sub.r, Nodes(t));
            assert h[i.right] == Fields(i.right);
            if i.right.bal != 0 {
              prime, primeParent, primeParentDir := i.right, i, 1;
              cp, sp := down, sub.r;
            }
            i := i.right;
            c, sub := down, sub.r;
          } else {
            goLeft := false;
            return;
          }
        } else {
          i := null;
          return;
        }
      }
    }

    /** Shifts one balance, towards the side the focus moves to. */
    static method Shift(i: Hook<E>, d: SignedChar, ghost c: Ctx<E>, ghost s: Tree<E>, ghost all: set<Hook<E>>)
      requires At(HeapOf(all), c, s, all) && s.Node? && s.n == i && (d == -1 || d == 1) && -2 <= s.b <= 2
      modifies i`bal
      ensures d == -1 ==> At(HeapOf(all), Lt(c, s.n, s.b - 1, s.r), s.l, all)
      ensures d == 1 ==> At(HeapOf(all), Rt(c, s.l, s.n, s.b + 1), s.r, all)
      ensures i.left == Root(s.l) && i.right == Root(s.r)
    {
      hide At, Distinct;
      ghost var h := HeapOf(all);
      AtNode(h, c, s, all);
      assert h[i] == Fields(i);
      i.bal := i.bal + d;
      StepDown(h, HeapOf(all), c, s, s.b + d as int, d < 0, all);
    }

    /** Shifts the balances on the path from `prime` down to the new hook `e`. */
    method Retrace(prime: Hook<E>, e: Hook<E>, ghost cp: Ctx<E>, ghost sp: Tree<E>, ghost all: set<Hook<E>>)
      requires sp.Node? && sp.n == prime && Avl(sp) && e !in Nodes(sp) && !Found(sp, Lookup(cmp, e.item))
      requires At(HeapOf(all), cp, Link(sp, Lookup(cmp, e.item), e), all)
      modifies Nodes(sp)`bal
      ensures At(HeapOf(all), cp, Grow(sp, Lookup(cmp, e.item), e), all)
    {
      hide At, Avl, Distinct, Found, OnPath;
      ghost var f := Lookup(cmp, e.item);
      OnPathStart(sp, f, e);
      ghost var c, rest, s := cp, sp, Link(sp, f, e);
      ghost var grown := Plug(cp, Grow(sp, f, e));
      var i := prime;
      while i != e
        invariant Plug(c, Grow(rest, f, e)) == grown
        invariant OnPath(rest, sp, f, e)
        invariant s == Link(rest, f, e) && Root(s) == i
        invariant At(HeapOf(all), c, s, all)
        decreases rest
      {
        PlugGrow(c, rest, f, e);
        OnPathNext(rest, sp, f, e);
        var r := cmp(i.item, e.item);
        assert r == Sign(f, rest.n);
        if r < 0 {
          Shift(i, -1, c, s, all);
          i := i.left;
          c, s, rest := Lt(c, s.n, s.b - 1, s.r), s.l, rest.l;
        } else {
          Shift(i, 1, c, s, all);
          i := i.right;
          c, s, rest := Rt(c, s.l, s.n, s.b + 1), s.r, rest.r;
        }
      }
      OnPathEnd(rest, sp, f, e);
      AtPlug(HeapOf(all), c, Grow(rest, f, e), all);
      AtPlug(HeapOf(all), cp, Grow(sp, f, e), all);
    }

    /** Hangs the rotated subtree `s` with root `prime` into the place of the old one. */
    method PromotePrime(primeParentDir: int, prime: Hook<E>, primeParent: Hook?<E>,
                        ghost c: Ctx<E>, ghost s: Tree<E>, ghost hole: Hook?<E>, ghost all: set<Hook<E>>)
      requires primeParentDir == Dir(c) && primeParent == Above(c, null)
      requires s.Node? && s.n == prime && Distinct(s) && CtxDistinct(c, Nodes(s)) && Nodes(s) + CtxNodes(c) == all
      requires Rep(HeapOf(all), s, prime.parent) && RepCtx(HeapOf(all), c, hole, null) && root == TopOf(c, hole)
      modifies this`root, prime`parent, (if primeParent == null then {} else {primeParent})
      ensures At(HeapOf(all), c, s, all) && root == TopOf(c, Root(s))
    {
      ghost var h := HeapOf(all);
      if primeParentDir == 0 {
        root := prime;
        root.parent := null;
      } else {
        if primeParentDir == 1 {
          primeParent.right := prime;
        } else {
          primeParent.left := prime;
        }
        prime.parent := primeParent;
      }
      ghost var h' := HeapOf(all);
      CtxShrink(c, Nodes(s), {});
      Relink(h, h', c, hole, prime, null);
      Reparent(h, h', s, h[prime].parent, Above(c, null));
    }

    /** One rotation at `prime`, a double one when the tall child leans the other way. */
    static method Rotate(prime: Hook<E>, double: bool, ghost c: Ctx<E>, ghost s: Tree<E>, ghost all: set<Hook<E>>)
      returns (x: Hook<E>)
      requires At(HeapOf(all), c, s, all) && Unbalanced(s) && s.n == prime && double == NeedsDouble(s)
      modifies Nodes(s)
      ensures x == Rebalanced(s).n && Rep(HeapOf(all), Rebalanced(s), x.parent) && RepCtx(HeapOf(all), c, prime, null)
    {
      ghost var h := HeapOf(all);
      AgreeRep(h, HeapOf(Nodes(s)), s, Above(c, null));
      if double {
        NeedsDoubleMid(s);
        x := DoubleRot(prime, s, Above(c, null));
      } else {
        HeightNode(Tall(s));
        x := SingleRot(prime, s, Above(c, null));
      }
      assert allocated(all);
      ghost var h' := HeapOf(all);
      AgreeCtx(h, h', c, prime, null);
      RebalancedDistinct(s);
      AgreeRep(HeapOf(Nodes(s)), h', Rebalanced(s), x.parent);
    }

    /** A rotation, and its result hung into the place of the old subtree. */
    method RotateAndPromote(prime: Hook<E>, double: bool, primeParent: Hook?<E>, primeParentDir: int,
                            ghost c: Ctx<E>, ghost s: Tree<E>, ghost all: set<Hook<E>>)
      returns (newPrime: Hook<E>)
      requires At(HeapOf(all), c, s, all) && Unbalanced(s) && s.n == prime && double == NeedsDouble(s)
      requires primeParent == Above(c, null) && primeParentDir == Dir(c) && root == TopOf(c, prime)
      modifies this`root, all
      ensures newPrime == Rebalanced(s).n && At(HeapOf(all), c, Rebalanced(s), all) && root == TopOf(c, newPrime)
    {
      newPrime := Rotate(prime, double, c, s, all);
      RebalancedDistinct(s);
      PromotePrime(primeParentDir, newPrime, primeParent, c, Rebalanced(s), prime, all);
    }

    method Insert(e: Hook<E>) returns (r: Hook?<E>, ghost k: int)
      requires Valid() && Consistent(cmp, Nodes(t) + {e})
      requires e.left == null && e.right == null && e.parent == null && e.bal == 0
      modifies this, Nodes(t), e
      ensures Valid()
      ensures r == null <==> exists x | x in old(InOrder(t)) :: cmp(x.item, e.item) == 0
      ensures r == null ==> t == old(t) && size == old(size)
      ensures r == null ==> forall x | x in old(Nodes(t)) + {e} :: Fields(x) == old(Fields(x))
      ensures r != null ==> r == e && AddedAt(old(InOrder(t)), InOrder(t), Lookup(cmp, e.item), e, k)
    {
      hide Avl, Sorted, Distinct, Rep, Consistent, Place;
      DuplicateIff(cmp, t, e);
      assert allocated(Nodes(t));
      if root == null {
        InsertFirst(e);
        return e, 0;
      }
      var i, goLeft, prime, primeParent, primeParentDir;
      ghost var c, sub, cp, sp, comparisons;
      i, goLeft, prime, primeParent, primeParentDir, c, sub, cp, sp, comparisons := Descend(e);
      if i == null {
        return null, 0;
      }
      k := InsertAt(e, i, goLeft, prime, primeParent, primeParentDir, c, sub, cp, sp);
      r := e;
    }

    method InsertAt(e: Hook<E>, i: Hook<E>, goLeft: bool, prime: Hook<E>, primeParent: Hook?<E>, primeParentDir: int,
                    ghost c: Ctx<E>, ghost sub: Tree<E>, ghost cp: Ctx<E>, ghost sp: Tree<E>) returns (ghost k: int)
      requires Valid() && Consistent(cmp, Nodes(t) + {e}) && At(HeapOf(Nodes(t)), c, sub, Nodes(t))
      requires e.left == null && e.right == null && e.parent == null && e.bal == 0
      requires !Found(t, Lookup(cmp, e.item))
      requires Place(t, Lookup(cmp, e.item), e, i, goLeft, prime, primeParent, primeParentDir, c, sub, cp, sp)
      modifies this, Nodes(t), e
      ensures Valid() && AddedAt(old(InOrder(t)), InOrder(t), Lookup(cmp, e.item), e, k)
    {
      hide At, Consistent, AddedAt, Found, Rep;
      k := InsertPlan(cmp, t, e, cp, sp);
      LinkLeaf(e, i, goLeft, c, sub, cp, sp);
      Restore(e, prime, primeParent, primeParentDir, cp, sp, Nodes(t) + {e});
    }

    method InsertFirst(e: Hook<E>)
      requires Valid() && root == null && e.left == null && e.right == null && e.parent == null && e.bal == 0
      modifies this
      ensures Valid() && InOrder(t) == [e]
    {
      root := e;
      size := 1;
      t := Node(Leaf, e, 0, Leaf);
      assert Nodes(t) == {e};
      RepNode(HeapOf(Nodes(t)), t, null);
    }

    /** The rest of an insertion, once `e` hangs at the end of its search path. */
    method Restore(e: Hook<E>, prime: Hook<E>, primeParent: Hook?<E>, primeParentDir: int,
                   ghost cp: Ctx<E>, ghost sp: Tree<E>, ghost all: set<Hook<E>>)
      requires sp.Node? && sp.n == prime && Avl(sp) && CtxAvl(cp, Height(sp)) && ZeroBelow(sp, Lookup(cmp, e.item))
      requires (cp.Top? || sp.b != 0) && !Found(sp, Lookup(cmp, e.item)) && e !in Nodes(sp)
      requires primeParent == Above(cp, null) && primeParentDir == Dir(cp) && root == TopOf(cp, prime)
      requires At(HeapOf(all), cp, Link(sp, Lookup(cmp, e.item), e), all)
      modifies this, all
      ensures Nodes(t) == all && Distinct(t) && Rep(HeapOf(all), t, null) && Avl(t) && root == Root(t)
      ensures InOrder(t) == InOrder(Plug(cp, Link(sp, Lookup(cmp, e.item), e))) && size == old(size) + 1
    {
      GrowInOrder(sp, Lookup(cmp, e.item), e);
      Retrace(prime, e, cp, sp, all);
      ghost var g := Rebalance(prime, primeParent, primeParentDir, cp, sp, e, all);
      InsertedTree(cp, sp, g, Lookup(cmp, e.item), e);
      Adopt(cp, g, all);
    }

    /** The insertion is complete: the tree is what the hooks form. */
    method Adopt(ghost cp: Ctx<E>, ghost g: Tree<E>, ghost all: set<Hook<E>>)
      requires At(HeapOf(all), cp, g, all) && root == TopOf(cp, Root(g))
      modifies `t, `size
      ensures t == Plug(cp, g) && size == old(size) + 1
      ensures Nodes(t) == all && Distinct(t) && Rep(HeapOf(all), t, null) && root == Root(t)
    {
      AtPlug(HeapOf(all), cp, g, all);
      PlugTop(cp, g);
      t := Plug(cp, g);
      size := size + 1;
    }

    method LinkLeaf(e: Hook<E>, i: Hook<E>, goLeft: bool,
                    ghost c: Ctx<E>, ghost sub: Tree<E>, ghost cp: Ctx<E>, ghost sp: Tree<E>)
      requires At(HeapOf(Nodes(t)), c, sub, Nodes(t)) && e !in Nodes(t)
      requires e.left == null && e.right == null && e.parent == null && e.bal == 0
      requires var f := Lookup(cmp, e.item);
        && sub.Node? && sub.n == i && Next(sub, f).Leaf? && goLeft == (Sign(f, i) < 0)
        && Plug(c, Link(sub, f, e)) == Plug(cp, Link(sp, f, e))
      modifies Nodes(t), e
      ensures At(HeapOf(Nodes(t) + {e}), cp, Link(sp, Lookup(cmp, e.item), e), Nodes(t) + {e})
    {
      hide At, Plug, Distinct;
      ghost var f := Lookup(cmp, e.item);
      ghost var h, all := HeapOf(Nodes(t)), Nodes(t) + {e};
      AtNode(h, c, sub, Nodes(t));
      assert h[i] == Fields(i);
      if goLeft {
        i.left := e;
      } else {
        i.right := e;
      }
      e.parent := i;
      LinkStep(h, HeapOf(all), c, sub, f, e, Nodes(t));
      AtPlug(HeapOf(all), c, Link(sub, f, e), all);
      AtPlug(HeapOf(all), cp, Link(sp, f, e), all);
    }

    /** At most one rotation, at `prime`, after which the whole tree is AVL. */
    method Rebalance(prime: Hook<E>, primeParent: Hook?<E>, primeParentDir: int,
                     ghost cp: Ctx<E>, ghost sp: Tree<E>, ghost e: Hook<E>, ghost all: set<Hook<E>>)
      returns (ghost g: Tree<E>)
      requires sp.Node? && sp.n == prime && Avl(sp) && CtxAvl(cp, Height(sp)) && ZeroBelow(sp, Lookup(cmp, e.item))
      requires (cp.Top? || sp.b != 0) && primeParent == Above(cp, null) && primeParentDir == Dir(cp)
      requires At(HeapOf(all), cp, Grow(sp, Lookup(cmp, e.item), e), all) && root == TopOf(cp, prime)
      modifies this`root, all
      ensures At(HeapOf(all), cp, g, all) && Avl(g) && CtxAvl(cp, Height(g)) && root == TopOf(cp, Root(g))
      ensures InOrder(g) == InOrder(Grow(sp, Lookup(cmp, e.item), e))
    {
      g := Grow(sp, Lookup(cmp, e.item), e);
      GrownPrime(cp, sp, Lookup(cmp, e.item), e);
      ghost var h := HeapOf(all);
      AtNode(h, cp, g, all);
      assert h[prime] == Fields(prime);
      if prime.bal == 2 || prime.bal == -2 {
        AtTall(h, cp, g, all);
        assert h[Tall(g).n] == Fields(Tall(g).n);
        var double := (prime.bal == 2 && prime.right.bal == -1) || (prime.bal == -2 && prime.left.bal == 1);
        var newPrime := RotateAndPromote(prime, double, primeParent, primeParentDir, cp, g, all);
        g := Rebalanced(g);
      }
    }
  }

  /** The grown subtree either is in order already, or one rotation puts it in order. */
  lemma GrownPrime<E>(cp: Ctx<E>, sp: Tree<E>, f: E -> int, e: Hook<E>)
    requires sp.Node? && Avl(sp) && CtxAvl(cp, Height(sp)) && ZeroBelow(sp, f) && (cp.Top? || sp.b != 0)
    ensures var g := Grow(sp, f, e);
      if g.b == 2 || g.b == -2 then Unbalanced(g) && CtxAvl(cp, Height(Rebalanced(g))) && Avl(Rebalanced(g))
                                    && InOrder(Rebalanced(g)) == InOrder(g)
      else Avl(g) && CtxAvl(cp, Height(g))
  {
    hide Avl, Height, InOrder;
    var g := Grow(sp, f, e);
    GrowBalances(sp, f, e);
    HeightNode(g);
    if g.b == 2 || g.b == -2 {
      RebalancedIsAvl(g);
      RebalancedInOrder(g);
    }
  }

  /** The tree after an insertion: AVL, and in order that of the linked tree. */
  lemma InsertedTree<E>(cp: Ctx<E>, sp: Tree<E>, g: Tree<E>, f: E -> int, e: Hook<E>)
    requires InOrder(g) == InOrder(Grow(sp, f, e))
    requires Avl(g) && CtxAvl(cp, Height(g))
    ensures InOrder(Plug(cp, g)) == InOrder(Plug(cp, Link(sp, f, e))) && Avl(Plug(cp, g))
  {
    PlugAvl(cp, g);
    PlugInOrder(cp, g);
    PlugInOrder(cp, Link(sp, f, e));
    GrowInOrder(sp, f, e);
  }

  /** The search path of `e` meets an equal hook exactly when the tree holds one. */
  lemma DuplicateIff<E>(cmp: (E, E) -> int, t: Tree<E>, e: Hook<E>)
    requires Sorted(cmp, InOrder(t)) && Consistent(cmp, Nodes(t) + {e})
    ensures Found(t, Lookup(cmp, e.item)) <==> exists x | x in InOrder(t) :: cmp(x.item, e.item) == 0
  {
    var f := Lookup(cmp, e.item);
    ConsistentFits(cmp, t, e);
    FoundIff(t, f);
    assert forall x: Hook<E> :: Sign(f, x) == cmp(x.item, e.item);
  }

  /** Where the new hook will be in order, and what the tree is like around the prime hook. */
  lemma InsertPlan<E>(cmp: (E, E) -> int, t: Tree<E>, e: Hook<E>, cp: Ctx<E>, sp: Tree<E>) returns (k: nat)
    requires Sorted(cmp, InOrder(t)) && Consistent(cmp, Nodes(t) + {e}) && Avl(t)
    requires !Found(t, Lookup(cmp, e.item)) && Plug(cp, sp) == t
    ensures var s' := InOrder(Link(t, Lookup(cmp, e.item), e));
      AddedAt(InOrder(t), s', Lookup(cmp, e.item), e, k) && Sorted(cmp, s')
    ensures Avl(sp) && CtxAvl(cp, Height(sp)) && e !in Nodes(t) && Nodes(sp) <= Nodes(t) && Root(t) == TopOf(cp, Root(sp))
  {
    ConsistentFits(cmp, t, e);
    k := LinkInOrder(t, Lookup(cmp, e.item), e);
    NotInTree(cmp, t, e);
    AddedSorted(cmp, t, InOrder(Link(t, Lookup(cmp, e.item), e)), e, k);
    PlugAvl(cp, sp);
    PlugNodes(cp, sp);
    PlugTop(cp, sp);
  }

  lemma NotInTree<E>(cmp: (E, E) -> int, t: Tree<E>, e: Hook<E>)
    requires Consistent(cmp, Nodes(t) + {e}) && Fits(Lookup(cmp, e.item), InOrder(t)) && !Found(t, Lookup(cmp, e.item))
    ensures e !in Nodes(t)
  {
    FoundIff(t, Lookup(cmp, e.item));
    InOrderNodes(t);
    assert Mirrored(cmp, e.item, e.item);
    assert Sign(Lookup(cmp, e.item), e) == 0;
  }
}
