/** The single and double rotations: on ghost trees, and on the heap. */
module AvlRotate {
  import opened Common
  import opened AvlShape

  ghost function SingleRotated<E>(t: Tree<E>): Tree<E>
    requires t.Node? && (if t.b == 2 then t.r.Node? else t.l.Node?)
  {
    if t.b == 2 then
      var x := t.r;
      Node(Node(t.l, t.n, 1 - x.b, x.l), x.n, x.b - 1, x.r)
    else
      var x := t.l;
      Node(x.l, x.n, x.b + 1, Node(x.r, t.n, -1 - x.b, t.r))
  }

  ghost function DoubleRotated<E>(t: Tree<E>): Tree<E>
    requires CanDouble(t)
  {
    if t.b == 2 then
      var x := t.r.l;
      Node(Node(t.l, t.n, if x.b == 1 then -1 else 0, x.l), x.n, 0,
           Node(x.r, t.r.n, if x.b == -1 then 1 else 0, t.r.r))
    else
      var x := t.l.r;
      Node(Node(t.l.l, t.l.n, if x.b == 1 then -1 else 0, x.l), x.n, 0,
           Node(x.r, t.n, if x.b == -1 then 1 else 0, t.r))
  }

  /** Exact balances everywhere, AVL below the root, and a root that is off by two. */
  ghost predicate Unbalanced<E>(t: Tree<E>) {
    t.Node? && t.b == Height(t.r) - Height(t.l) && (t.b == 2 || t.b == -2) && Avl(t.l) && Avl(t.r)
  }

  /** The child on the tall side of an unbalanced tree. */
  ghost function Tall<E>(t: Tree<E>): (r: Tree<E>)
    requires Unbalanced(t)
    ensures r.Node? && Height(r) == Height(t) - 1
  {
    if t.b == 2 then t.r else t.l
  }

  /** Which rotation is due: a double one exactly when the tall child leans the other way. */
  ghost predicate NeedsDouble<E>(t: Tree<E>)
    requires Unbalanced(t)
  {
    t.b == -2 * Tall(t).b
  }

  ghost function Rebalanced<E>(t: Tree<E>): Tree<E>
    requires Unbalanced(t)
  {
    if NeedsDouble(t) then DoubleRotated(t) else SingleRotated(t)
  }

  /** A rotation restores the AVL property, keeps the in-order sequence, and lowers the tree by
      one, except that the height stays when the tall child was even. */
  lemma RebalancedIsAvl<E>(t: Tree<E>)
    requires Unbalanced(t)
    ensures Avl(Rebalanced(t))
    ensures Height(Rebalanced(t)) == Height(t) - (if Tall(t).b == 0 then 0 else 1)
  {
    hide Avl, Height;
    var u := Rebalanced(t);
    HeightNode(t);
    HeightNode(Tall(t));
    HeightNode(u);
    HeightNode(u.l);
    HeightNode(u.r);
    if NeedsDouble(t) {
      DoubleHeights(t);
    }
  }

  lemma DoubleHeights<E>(t: Tree<E>)
    requires Unbalanced(t) && NeedsDouble(t)
    ensures CanDouble(t) && var x := if t.b == 2 then t.r.l else t.l.r;
      && Height(x) == 1 + Max(Height(x.l), Height(x.r)) && x.b == Height(x.r) - Height(x.l)
      && -1 <= x.b <= 1 && Avl(x.l) && Avl(x.r)
  {
    hide Avl, Height;
    HeightNode(Tall(t));
    HeightNode(Tall(t).l);
    HeightNode(Tall(t).r);
  }

  lemma RotateInOrder<T>(a: seq<T>, p: T, b: seq<T>, q: T, c: seq<T>)
    ensures (a + [p] + b) + [q] + c == a + [p] + (b + [q] + c)
  {
  }

  lemma RebalancedInOrder<E>(t: Tree<E>)
    requires Unbalanced(t)
    ensures InOrder(Rebalanced(t)) == InOrder(t)
  {
    if t.b == 2 {
      if NeedsDouble(t) {
        var x := t.r.l;
        assert InOrder(x) == InOrder(x.l) + [x.n] + InOrder(x.r);
        RotateInOrder(InOrder(x.l), x.n, InOrder(x.r), t.r.n, InOrder(t.r.r));
        RotateInOrder(InOrder(t.l), t.n, InOrder(x.l), x.n, InOrder(x.r) + [t.r.n] + InOrder(t.r.r));
      } else {
        RotateInOrder(InOrder(t.l), t.n, InOrder(t.r.l), t.r.n, InOrder(t.r.r));
      }
    } else {
      if NeedsDouble(t) {
        var x := t.l.r;
        assert InOrder(x) == InOrder(x.l) + [x.n] + InOrder(x.r);
        RotateInOrder(InOrder(t.l.l), t.l.n, InOrder(x.l), x.n, InOrder(x.r));
        RotateInOrder(InOrder(t.l.l) + [t.l.n] + InOrder(x.l), x.n, InOrder(x.r), t.n, InOrder(t.r));
      } else {
        RotateInOrder(InOrder(t.l.l), t.l.n, InOrder(t.l.r), t.n, InOrder(t.r));
      }
    }
  }

  lemma RebalancedDistinct<E>(t: Tree<E>)
    requires Unbalanced(t)
    ensures Nodes(Rebalanced(t)) == Nodes(t)
    ensures Distinct(t) ==> Distinct(Rebalanced(t))
  {
    var u := Rebalanced(t);
    assert Nodes(t) == Nodes(t.l) + {t.n} + Nodes(t.r);
    assert Nodes(u) == Nodes(u.l) + {u.n} + Nodes(u.r);
    assert Distinct(t) ==> Distinct(Tall(t));
    if NeedsDouble(t) {
      var x := if t.b == 2 then t.r.l else t.l.r;
      assert Nodes(x) == Nodes(x.l) + {x.n} + Nodes(x.r);
      assert Nodes(u.l) == Nodes(u.l.l) + {u.l.n} + Nodes(u.l.r);
      assert Nodes(u.r) == Nodes(u.r.l) + {u.r.n} + Nodes(u.r.r);
      if Distinct(t) {
        assert Distinct(x);
        assert Distinct(u.l) && Distinct(u.r);
      }
    } else if t.b == 2 {
      assert Nodes(u.l) == Nodes(u.l.l) + {u.l.n} + Nodes(u.l.r);
      assert Distinct(t) ==> Distinct(u.l);
    } else {
      assert Nodes(u.r) == Nodes(u.r.l) + {u.r.n} + Nodes(u.r.r);
      assert Distinct(t) ==> Distinct(u.r);
    }
  }

  /** What the code reads before a rotation: the balance of the tall child. */
  lemma AtTall<E>(h: Heap<E>, c: Ctx<E>, s: Tree<E>, all: set<Hook<E>>)
    requires At(h, c, s, all) && Unbalanced(s)
    ensures s.n in all && s.n in h && h[s.n].bal == s.b && h[s.n].parent == Above(c, null)
    ensures (if s.b == 2 then h[s.n].right else h[s.n].left) == Tall(s).n
    ensures Tall(s).n in all && Tall(s).n in h && h[Tall(s).n].bal == Tall(s).b && -1 <= Tall(s).b <= 1
  {
    AtNode(h, c, s, all);
    StepDown(h, h, c, s, s.b, s.b == -2, all);
    AtNode(h, Down(c, s, s.b, s.b == -2).0, Tall(s), all);
    HeightNode(Tall(s));
  }

  lemma NeedsDoubleMid<E>(t: Tree<E>)
    requires Unbalanced(t) && NeedsDouble(t)
    ensures CanDouble(t) && var x := if t.b == 2 then t.r.l else t.l.r; -1 <= x.b <= 1
  {
    HeightNode(Tall(t));
    HeightNode(if t.b == 2 then t.r.l else t.l.r);
  }

  ghost function RootSet<E>(t: Tree<E>): set<Hook<E>> {
    if t.Leaf? then {} else {t.n}
  }

  lemma SingleRotatedRep<E>(h: Heap<E>, h': Heap<E>, t: Tree<E>, p: Hook?<E>, q: Hook?<E>)
    requires Rep(h, t, p) && Distinct(t) && t.Node?
    requires if t.b == 2 then t.r.Node? else t.b == -2 && t.l.Node?
    requires var u := SingleRotated(t);
      var (low, moved) := if t.b == 2 then (u.l, t.r.l) else (u.r, t.l.r);
      && u.n in h' && h'[u.n] == Cell(Root(u.l), Root(u.r), q, u.b)
      && t.n in h' && h'[t.n] == Cell(Root(low.l), Root(low.r), u.n, low.b)
      && (moved.Node? ==> moved.n in h && moved.n in h' && h'[moved.n] == h[moved.n].(parent := t.n))
      && Agree(h, h', Nodes(t) - {t.n, u.n} - RootSet(moved))
    ensures Rep(h', SingleRotated(t), q)
  {
    hide Rep, CellAt;
    var u := SingleRotated(t);
    RepNode(h, t, p);
    if t.b == 2 {
      RepNode(h, t.r, t.n);
      Reparent(h, h', t.r.l, u.n, t.n);
      AgreeRep(h, h', t.l, t.n);
      AgreeRep(h, h', t.r.r, u.n);
      RepNode(h', u.l, u.n);
    } else {
      RepNode(h, t.l, t.n);
      Reparent(h, h', t.l.r, u.n, t.n);
      AgreeRep(h, h', t.r, t.n);
      AgreeRep(h, h', t.l.l, u.n);
      RepNode(h', u.r, u.n);
    }
    RepNode(h', u, q);
  }

  /** Rotates at `prime`. The new root's parent link is left stale for `PromotePrime` to set. */
  method SingleRot<E>(prime: Hook<E>, ghost t: Tree<E>, ghost p: Hook?<E>) returns (x: Hook<E>)
    requires Rep(HeapOf(Nodes(t)), t, p) && Distinct(t) && t.Node? && t.n == prime
    requires if t.b == 2 then t.r.Node? && 0 <= t.r.b <= 1 else t.b == -2 && t.l.Node? && -1 <= t.l.b <= 0
    modifies Nodes(t)
    ensures x == SingleRotated(t).n && Rep(HeapOf(Nodes(t)), SingleRotated(t), x.parent)
  {
    ghost var h := HeapOf(Nodes(t));
    ghost var tall := if t.b == 2 then t.r else t.l;
    RepNode(h, t, p);
    RepNode(h, tall, prime);
    assert h[prime] == Fields(prime) && h[tall.n] == Fields(tall.n);
    if prime.bal == 2 {
      x := SingleRotLeft(prime);
    } else {
      x := SingleRotRight(prime);
    }
    assert allocated(Nodes(t));
    SingleRotatedRep(h, HeapOf(Nodes(t)), t, p, x.parent);
  }

  /** The first branch: the right child is taller and does not lean left. */
  method SingleRotLeft<E>(prime: Hook<E>) returns (x: Hook<E>)
    requires prime.right != null && prime.right != prime && prime.right.left !in {prime, prime.right}
    requires 0 <= prime.right.bal <= 1
    modifies prime, prime.right, (if prime.right.left == null then {} else {prime.right.left})`parent
    ensures x == old(prime.right)
    ensures var y := old(prime.right.left);
      && Fields(x) == Cell(prime, old(x.right), old(x.parent), old(x.bal) as int - 1)
      && Fields(prime) == Cell(old(prime.left), y, x, 1 - old(x.bal) as int)
      && (y != null ==> y.parent == prime)
  {
    x := prime.right;
    prime.right := x.left;
    if x.left != null {
      x.left.parent := prime;
    }
    x.left := prime;
    prime.parent := x;
    prime.bal := 1 - x.bal;
    x.bal := x.bal - 1;
  }

  /** The second branch: the left child is taller and does not lean right. */
  method SingleRotRight<E>(prime: Hook<E>) returns (x: Hook<E>)
    requires prime.left != null && prime.left != prime && prime.left.right !in {prime, prime.left}
    requires -1 <= prime.left.bal <= 0
    modifies prime, prime.left, (if prime.left.right == null then {} else {prime.left.right})`parent
    ensures x == old(prime.left)
    ensures var y := old(prime.left.right);
      && Fields(x) == Cell(old(x.left), prime, old(x.parent), old(x.bal) as int + 1)
      && Fields(prime) == Cell(y, old(prime.right), x, -1 - old(x.bal) as int)
      && (y != null ==> y.parent == prime)
  {
    x := prime.left;
    prime.left := x.right;
    if x.right != null {
      x.right.parent := prime;
    }
    x.right := prime;
    prime.parent := x;
    prime.bal := -1 - x.bal;
    x.bal := x.bal + 1;
  }

  /** A root with two children, put together from its four grandchildren. */
  lemma RepJoin<E>(h: Heap<E>, u: Tree<E>, q: Hook?<E>)
    requires u.Node? && u.l.Node? && u.r.Node? && Distinct(u)
    requires u.n in h && h[u.n] == Cell(u.l.n, u.r.n, q, u.b)
    requires u.l.n in h && h[u.l.n] == Cell(Root(u.l.l), Root(u.l.r), u.n, u.l.b)
    requires u.r.n in h && h[u.r.n] == Cell(Root(u.r.l), Root(u.r.r), u.n, u.r.b)
    requires Rep(h, u.l.l, u.l.n) && Rep(h, u.l.r, u.l.n) && Rep(h, u.r.l, u.r.n) && Rep(h, u.r.r, u.r.n)
    ensures Rep(h, u, q)
  {
    RepNode(h, u.l, u.n);
    RepNode(h, u.r, u.n);
    RepNode(h, u, q);
  }

  lemma RebalancedShape<E>(t: Tree<E>)
    requires t.Node? && Distinct(t)
    requires CanDouble(t)
    ensures Distinct(DoubleRotated(t)) && Nodes(DoubleRotated(t)) == Nodes(t)
  {
    var u, tall := DoubleRotated(t), if t.b == 2 then t.r else t.l;
    var x := if t.b == 2 then tall.l else tall.r;
    assert Distinct(tall) && Distinct(x);
    assert Nodes(x) == Nodes(x.l) + {x.n} + Nodes(x.r) && Nodes(tall) == Nodes(tall.l) + {tall.n} + Nodes(tall.r);
    assert Nodes(u.l) == Nodes(u.l.l) + {u.l.n} + Nodes(u.l.r);
    assert Nodes(u.r) == Nodes(u.r.l) + {u.r.n} + Nodes(u.r.r);
    assert Distinct(u.l) && Distinct(u.r);
  }

  ghost predicate CanDouble<E>(t: Tree<E>) {
    t.Node? && if t.b == 2 then t.r.Node? && t.r.l.Node? else t.b == -2 && t.l.Node? && t.l.r.Node?
  }

  /** What the double rotation has written, hook by hook: `h` before, `h'` after. */
  ghost predicate DoubleWritten<E>(h: Heap<E>, h': Heap<E>, t: Tree<E>, q: Hook?<E>)
    requires CanDouble(t)
  {
    var u, x := DoubleRotated(t), if t.b == 2 then t.r.l else t.l.r;
    && x.n in h' && h'[x.n] == Cell(u.l.n, u.r.n, q, 0)
    && u.l.n in h' && h'[u.l.n] == Cell(Root(u.l.l), Root(x.l), x.n, u.l.b)
    && u.r.n in h' && h'[u.r.n] == Cell(Root(x.r), Root(u.r.r), x.n, u.r.b)
    && (x.l.Node? ==> x.l.n in h && x.l.n in h' && h'[x.l.n] == h[x.l.n].(parent := u.l.n))
    && (x.r.Node? ==> x.r.n in h && x.r.n in h' && h'[x.r.n] == h[x.r.n].(parent := u.r.n))
    && Agree(h, h', Nodes(t) - {x.n, u.l.n, u.r.n} - RootSet(x.l) - RootSet(x.r))
  }

  lemma DoubleRotatedRep<E>(h: Heap<E>, h': Heap<E>, t: Tree<E>, p: Hook?<E>, q: Hook?<E>)
    requires Rep(h, t, p) && Distinct(t) && CanDouble(t) && DoubleWritten(h, h', t, q)
    ensures Rep(h', DoubleRotated(t), q)
  {
    hide Rep, CellAt;
    var u, tall := DoubleRotated(t), if t.b == 2 then t.r else t.l;
    var x := if t.b == 2 then tall.l else tall.r;
    RepNode(h, t, p);
    RepNode(h, tall, t.n);
    RepNode(h, x, tall.n);
    assert Nodes(x) == Nodes(x.l) + {x.n} + Nodes(x.r) && Nodes(tall) == Nodes(tall.l) + {tall.n} + Nodes(tall.r);
    Reparent(h, h', x.l, x.n, u.l.n);
    Reparent(h, h', x.r, x.n, u.r.n);
    AgreeRep(h, h', if t.b == 2 then t.l else tall.l, u.l.n);
    AgreeRep(h, h', if t.b == 2 then tall.r else t.r, u.r.n);
    RebalancedShape(t);
    RepJoin(h', u, q);
  }

  /** What the double rotation reads: three hooks, their fields, and two more roots, all different. */
  ghost predicate DoubleReady<E>(h: Heap<E>, t: Tree<E>, p: Hook?<E>)
    requires CanDouble(t)
  {
    var tall := if t.b == 2 then t.r else t.l;
    var x := if t.b == 2 then tall.l else tall.r;
    && AllDistinct(t.n, tall.n, x.n, Root(x.l), Root(x.r))
    && {t.n, tall.n, x.n} + RootSet(x.l) + RootSet(x.r) <= Nodes(t) <= h.Keys
    && h[t.n] == Cell(Root(t.l), Root(t.r), p, t.b)
    && h[tall.n] == Cell(Root(tall.l), Root(tall.r), t.n, tall.b)
    && h[x.n] == Cell(Root(x.l), Root(x.r), tall.n, x.b)
    && -1 <= x.b <= 1
  }

  lemma DoubleCells<E>(h: Heap<E>, t: Tree<E>, p: Hook?<E>)
    requires Rep(h, t, p) && Distinct(t) && CanDouble(t)
    requires var x := if t.b == 2 then t.r.l else t.l.r; -1 <= x.b <= 1
    ensures DoubleReady(h, t, p)
  {
    var tall := if t.b == 2 then t.r else t.l;
    var x := if t.b == 2 then tall.l else tall.r;
    RepNode(h, t, p);
    RepNode(h, tall, t.n);
    RepNode(h, x, tall.n);
    assert Nodes(x) == Nodes(x.l) + {x.n} + Nodes(x.r);
  }

  method DoubleRot<E>(prime: Hook<E>, ghost t: Tree<E>, ghost p: Hook?<E>) returns (x: Hook<E>)
    requires Rep(HeapOf(Nodes(t)), t, p) && Distinct(t) && CanDouble(t) && t.n == prime
    requires var x := if t.b == 2 then t.r.l else t.l.r; -1 <= x.b <= 1
    modifies Nodes(t)
    ensures x == DoubleRotated(t).n && Rep(HeapOf(Nodes(t)), DoubleRotated(t), x.parent)
  {
    ghost var h := HeapOf(Nodes(t));
    DoubleCells(h, t, p);
    x := DoubleRotWrites(prime, t, p);
    DoubleRotatedRep(h, HeapOf(Nodes(t)), t, p, x.parent);
  }

  method DoubleRotWrites<E>(prime: Hook<E>, ghost t: Tree<E>, ghost p: Hook?<E>) returns (x: Hook<E>)
    requires CanDouble(t) && t.n == prime && DoubleReady(HeapOf(Nodes(t)), t, p)
    modifies Nodes(t)
    ensures x == DoubleRotated(t).n && DoubleWritten(old(HeapOf(Nodes(t))), HeapOf(Nodes(t)), t, x.parent)
  {
    hide Distinct, Nodes;
    ghost var h := HeapOf(Nodes(t));
    assert forall y | y in Nodes(t) :: h[y] == Fields(y);
    assert allocated(Nodes(t));
    if prime.bal == 2 {
      x := DoubleRotLeft(prime);
    } else {
      x := DoubleRotRight(prime);
    }
  }

  ghost predicate AllDistinct<E>(p: Hook<E>, b: Hook<E>, x: Hook<E>, y: Hook?<E>, z: Hook?<E>) {
    p != b && p != x && b != x && y !in {p, b, x} && z !in {p, b, x} && (y != null ==> y != z)
  }

  /** The first branch: the right child leans left. */
  method DoubleRotLeft<E>(prime: Hook<E>) returns (x: Hook<E>)
    requires prime.right != null && prime.right.left != null
    requires AllDistinct(prime, prime.right, prime.right.left, prime.right.left.left, prime.right.left.right)
    requires -1 <= prime.right.left.bal <= 1
    modifies prime, prime.right, prime.right.left
    modifies (if prime.right.left.left == null then {} else {prime.right.left.left})`parent
    modifies (if prime.right.left.right == null then {} else {prime.right.left.right})`parent
    ensures x == old(prime.right.left)
    ensures var b, y, z := old(prime.right), old(prime.right.left.left), old(prime.right.left.right);
      var d := old(prime.right.left.bal) as int;
      && Fields(x) == Cell(prime, b, old(x.parent), 0)
      && Fields(prime) == Cell(old(prime.left), y, x, if d == 1 then -1 else 0)
      && Fields(b) == Cell(z, old(b.right), x, if d == -1 then 1 else 0)
      && (y != null ==> y.parent == prime)
      && (z != null ==> z.parent == b)
  {
    var b := prime.right;
    x := prime.right.left;
    prime.right := x.left;
    if x.left != null {
      x.left.parent := prime;
    }
    x.left := prime;
    prime.parent := x;
    b.left := x.right;
    if x.right != null {
      x.right.parent := b;
    }
    x.right := b;
    b.parent := x;
    b.bal := if x.bal + 1 == 0 then 1 else 0;
    prime.bal := 0 - if x.bal - 1 == 0 then 1 else 0;
    x.bal := 0;
  }

  /** The second branch: the left child leans right. */
  method DoubleRotRight<E>(prime: Hook<E>) returns (x: Hook<E>)
    requires prime.left != null && prime.left.right != null
    requires AllDistinct(prime, prime.left, prime.left.right, prime.left.right.left, prime.left.right.right)
    requires -1 <= prime.left.right.bal <= 1
    modifies prime, prime.left, prime.left.right
    modifies (if prime.left.right.left == null then {} else {prime.left.right.left})`parent
    modifies (if prime.left.right.right == null then {} else {prime.left.right.right})`parent
    ensures x == old(prime.left.right)
    ensures var b, y, z := old(prime.left), old(prime.left.right.left), old(prime.left.right.right);
      var d := old(prime.left.right.bal) as int;
      && Fields(x) == Cell(b, prime, old(x.parent), 0)
      && Fields(b) == Cell(old(b.left), y, x, if d == 1 then -1 else 0)
      && Fields(prime) == Cell(z, old(prime.right), x, if d == -1 then 1 else 0)
      && (y != null ==> y.parent == b)
      && (z != null ==> z.parent == prime)
  {
    var b := prime.left;
    x := prime.left.right;
    prime.left := x.right;
    if x.right != null {
      x.right.parent := prime;
    }
    x.right := prime;
    prime.parent := x;
    b.right := x.left;
    if x.left != null {
      x.left.parent := b;
    }
    x.left := b;
    b.parent := x;
    b.bal := 0 - if x.bal - 1 == 0 then 1 else 0;
    prime.bal := if x.bal + 1 == 0 then 1 else 0;
    x.bal := 0;
  }
}
