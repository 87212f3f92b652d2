/** The mathematical side of the AVL tree: ghost trees over hooks, trees with a hole
    (the ancestors of a node, innermost first), and what plugging a hole preserves. */
module AvlShape {
  import opened Common

  /** The C type `signed char`, in which a hook stores its balance factor. */
  newtype SignedChar = x: int | -128 <= x < 128

  /** An intrusive hook; `item` stands for the structure the hook is embedded in. */
  class Hook<E> {
    var left: Hook?<E>
    var right: Hook?<E>
    var parent: Hook?<E>
    var bal: SignedChar
    const item: E

    constructor (item: E)
      ensures left == null && right == null && parent == null && bal == 0
      ensures this.item == item
    {
      left, right, parent, bal := null, null, null, 0;
      this.item := item;
    }
  }

  /** A tree of hooks; `b` is what the hook's `bal` field holds. */
  datatype Tree<E> = Leaf | Node(l: Tree<E>, n: Hook<E>, b: int, r: Tree<E>)

  /** A tree with one subtree cut out: `Lt` when the hole is a left child, `Rt` when it is a right child. */
  datatype Ctx<E> =
    | Top
    | Lt(up: Ctx<E>, n: Hook<E>, b: int, r: Tree<E>)
    | Rt(up: Ctx<E>, l: Tree<E>, n: Hook<E>, b: int)

  ghost function Root<E>(t: Tree<E>): Hook?<E> {
    if t.Leaf? then null else t.n
  }

  ghost function Nodes<E>(t: Tree<E>): (s: set<Hook<E>>)
    ensures Root(t) != null ==> Root(t) in s
  {
    match t
    case Leaf => {}
    case Node(l, n, _, r) => Nodes(l) + {n} + Nodes(r)
  }

  /** The in-order sequence of hooks. */
  ghost function InOrder<E>(t: Tree<E>): seq<Hook<E>> {
    match t
    case Leaf => []
    case Node(l, n, _, r) => InOrder(l) + [n] + InOrder(r)
  }

  ghost predicate Distinct<E>(t: Tree<E>) {
    match t
    case Leaf => true
    case Node(l, n, _, r) => n !in Nodes(l) && n !in Nodes(r) && Nodes(l) !! Nodes(r) && Distinct(l) && Distinct(r)
  }


  ghost function Height<E>(t: Tree<E>): nat {
    match t
    case Leaf => 0
    case Node(l, _, _, r) => 1 + Max(Height(l), Height(r))
  }

  /** Every stored balance is exactly right height minus left height, and within -1..1. */
  ghost predicate Avl<E>(t: Tree<E>) {
    match t
    case Leaf => true
    case Node(l, _, b, r) => b == Height(r) - Height(l) && -1 <= b <= 1 && Avl(l) && Avl(r)
  }

  ghost function Plug<E>(c: Ctx<E>, t: Tree<E>): Tree<E>
    decreases c
  {
    match c
    case Top => t
    case Lt(up, n, b, r) => Plug(up, Node(t, n, b, r))
    case Rt(up, l, n, b) => Plug(up, Node(l, n, b, t))
  }

  ghost function CtxNodes<E>(c: Ctx<E>): set<Hook<E>> {
    match c
    case Top => {}
    case Lt(up, n, _, r) => CtxNodes(up) + {n} + Nodes(r)
    case Rt(up, l, n, _) => CtxNodes(up) + {n} + Nodes(l)
  }

  /** The parent of the hole; `p0` is the parent of the whole tree. */
  ghost function Above<E>(c: Ctx<E>, p0: Hook?<E>): Hook?<E> {
    if c.Top? then p0 else c.n
  }

  /** -1 when the hole is a left child, 1 when it is a right child, 0 at the top. */
  ghost function Dir<E>(c: Ctx<E>): int {
    match c
    case Top => 0
    case Lt(_, _, _, _) => -1
    case Rt(_, _, _, _) => 1
  }

  ghost function Before<E>(c: Ctx<E>): seq<Hook<E>> {
    match c
    case Top => []
    case Lt(up, _, _, _) => Before(up)
    case Rt(up, l, n, _) => Before(up) + InOrder(l) + [n]
  }

  ghost function After<E>(c: Ctx<E>): seq<Hook<E>> {
    match c
    case Top => []
    case Lt(up, n, _, r) => [n] + InOrder(r) + After(up)
    case Rt(up, _, _, _) => After(up)
  }

  /** The hooks of `c` are distinct, and none is in `s`, the hooks of the hole. */
  ghost predicate CtxDistinct<E>(c: Ctx<E>, s: set<Hook<E>>)
    ensures CtxDistinct(c, s) ==> s !! CtxNodes(c)
    decreases c
  {
    match c
    case Top => true
    case Lt(up, n, _, r) =>
      n !in s && n !in Nodes(r) && Nodes(r) !! s && Distinct(r) && CtxDistinct(up, s + {n} + Nodes(r))
    case Rt(up, l, n, _) =>
      n !in s && n !in Nodes(l) && Nodes(l) !! s && Distinct(l) && CtxDistinct(up, s + {n} + Nodes(l))
  }

  /** Plugging an AVL tree of height `h` into the hole gives an AVL tree. */
  ghost predicate CtxAvl<E>(c: Ctx<E>, h: int)
    decreases c
  {
    match c
    case Top => true
    case Lt(up, _, b, r) => Avl(r) && b == Height(r) - h && -1 <= b <= 1 && CtxAvl(up, 1 + Max(h, Height(r)))
    case Rt(up, l, _, b) => Avl(l) && b == h - Height(l) && -1 <= b <= 1 && CtxAvl(up, 1 + Max(Height(l), h))
  }

  /** Puts `inner` into the hole of `outer`. */
  ghost function Compose<E>(outer: Ctx<E>, inner: Ctx<E>): Ctx<E>
    decreases inner
  {
    match inner
    case Top => outer
    case Lt(up, n, b, r) => Lt(Compose(outer, up), n, b, r)
    case Rt(up, l, n, b) => Rt(Compose(outer, up), l, n, b)
  }

  lemma {:induction false} InOrderNodes<E>(t: Tree<E>)
    ensures forall x :: x in InOrder(t) <==> x in Nodes(t)
  {
    if t.Node? {
      InOrderNodes(t.l);
      InOrderNodes(t.r);
    }
  }

  lemma {:induction false} InOrderAt<E>(t: Tree<E>, i: int)
    requires 0 <= i < |InOrder(t)|
    ensures InOrder(t)[i] in Nodes(t)
  {
    var m := |InOrder(t.l)|;
    if i < m {
      InOrderAt(t.l, i);
    } else if m < i {
      InOrderAt(t.r, i - m - 1);
    }
  }

  lemma Regroup<T>(a: seq<T>, b: seq<T>, p: T, c: seq<T>, d: seq<T>)
    ensures a + (b + [p] + c) + d == a + b + ([p] + c + d)
    ensures a + (b + [p] + c) + d == (a + b + [p]) + c + d
  {
  }

  lemma {:induction false} PlugInOrder<E>(c: Ctx<E>, t: Tree<E>)
    ensures InOrder(Plug(c, t)) == Before(c) + InOrder(t) + After(c)
    decreases c
  {
    match c
    case Top =>
    case Lt(up, n, b, r) =>
      PlugInOrder(up, Node(t, n, b, r));
      Regroup(Before(up), InOrder(t), n, InOrder(r), After(up));
    case Rt(up, l, n, b) =>
      PlugInOrder(up, Node(l, n, b, t));
      Regroup(Before(up), InOrder(l), n, InOrder(t), After(up));
  }

  lemma {:induction false} PlugNodes<E>(c: Ctx<E>, t: Tree<E>)
    ensures Nodes(Plug(c, t)) == Nodes(t) + CtxNodes(c)
    ensures Distinct(Plug(c, t)) <==> Distinct(t) && CtxDistinct(c, Nodes(t))
    decreases c
  {
    match c
    case Top =>
    case Lt(up, n, b, r) =>
      PlugNodes(up, Node(t, n, b, r));
      assert Nodes(Node(t, n, b, r)) == Nodes(t) + {n} + Nodes(r);
    case Rt(up, l, n, b) =>
      PlugNodes(up, Node(l, n, b, t));
      assert Nodes(Node(l, n, b, t)) == Nodes(t) + {n} + Nodes(l);
  }

  lemma HeightNode<E>(t: Tree<E>)
    ensures t.Leaf? ==> Height(t) == 0 && Avl(t)
    ensures t.Node? ==> Height(t) == 1 + Max(Height(t.l), Height(t.r))
    ensures t.Node? ==> (Avl(t) <==> t.b == Height(t.r) - Height(t.l) && -1 <= t.b <= 1 && Avl(t.l) && Avl(t.r))
  {
  }

  lemma {:induction false} PlugAvl<E>(c: Ctx<E>, t: Tree<E>)
    ensures Avl(Plug(c, t)) <==> Avl(t) && CtxAvl(c, Height(t))
    decreases c
  {
    match c
    case Top =>
    case Lt(up, n, b, r) =>
      var s := Node(t, n, b, r);
      HeightNode(s);
      PlugAvl(up, s);
      assert CtxAvl(c, Height(t)) <==> Avl(r) && b == Height(r) - Height(t) && -1 <= b <= 1 && CtxAvl(up, Height(s));
    case Rt(up, l, n, b) =>
      var s := Node(l, n, b, t);
      HeightNode(s);
      PlugAvl(up, s);
      assert CtxAvl(c, Height(t)) <==> Avl(l) && b == Height(t) - Height(l) && -1 <= b <= 1 && CtxAvl(up, Height(s));
  }

  lemma {:induction false} CtxShrink<E>(c: Ctx<E>, s: set<Hook<E>>, s': set<Hook<E>>)
    requires CtxDistinct(c, s) && s' <= s
    ensures CtxDistinct(c, s')
    decreases c
  {
    match c
    case Top =>
    case Lt(up, n, _, r) => CtxShrink(up, s + {n} + Nodes(r), s' + {n} + Nodes(r));
    case Rt(up, l, n, _) => CtxShrink(up, s + {n} + Nodes(l), s' + {n} + Nodes(l));
  }

  lemma {:induction false} ComposePlug<E>(outer: Ctx<E>, inner: Ctx<E>, t: Tree<E>)
    ensures Plug(Compose(outer, inner), t) == Plug(outer, Plug(inner, t))
    decreases inner
  {
    match inner
    case Top =>
    case Lt(up, n, b, r) => ComposePlug(outer, up, Node(t, n, b, r));
    case Rt(up, l, n, b) => ComposePlug(outer, up, Node(l, n, b, t));
  }

  /** Every hook of a tree sits at the root of some subtree. */
  lemma {:induction false} Focus<E>(t: Tree<E>, e: Hook<E>) returns (c: Ctx<E>, s: Tree<E>)
    requires e in Nodes(t)
    ensures s.Node? && s.n == e && Plug(c, s) == t
  {
    c, s := FocusFrom(Top, t, e);
  }

  lemma {:induction false} FocusFrom<E>(c0: Ctx<E>, t: Tree<E>, e: Hook<E>) returns (c: Ctx<E>, s: Tree<E>)
    requires e in Nodes(t)
    ensures s.Node? && s.n == e && Plug(c, s) == Plug(c0, t)
    decreases t
  {
    if t.n == e {
      c, s := c0, t;
    } else if e in Nodes(t.l) {
      c, s := FocusFrom(Lt(c0, t.n, t.b, t.r), t.l, e);
    } else {
      c, s := FocusFrom(Rt(c0, t.l, t.n, t.b), t.r, e);
    }
  }

  // ---- The heap represents a tree ----

  /** The four fields of a hook, as a value. */
  datatype Cell<E> = Cell(left: Hook?<E>, right: Hook?<E>, parent: Hook?<E>, bal: int)

  type Heap<E> = map<Hook<E>, Cell<E>>

  ghost function Fields<E>(x: Hook<E>): Cell<E>
    reads x
  {
    Cell(x.left, x.right, x.parent, x.bal as int)
  }

  /** A snapshot of the fields of the hooks in `s`. */
  ghost function HeapOf<E>(s: set<Hook<E>>): Heap<E>
    reads s
  {
    map x | x in s :: Fields(x)
  }

  /** What the fields of `x` must be when `t` hangs below `p`: child links lead to the
      children's roots, parent links are mutual, and the balance is the one in the tree. */
  ghost function CellAt<E>(t: Tree<E>, p: Hook?<E>, x: Hook<E>): Cell<E>
    requires x in Nodes(t)
  {
    if x == t.n then Cell(Root(t.l), Root(t.r), p, t.b)
    else if x in Nodes(t.l) then CellAt(t.l, t.n, x)
    else CellAt(t.r, t.n, x)
  }

  ghost predicate Rep<E>(h: Heap<E>, t: Tree<E>, p: Hook?<E>) {
    Nodes(t) <= h.Keys && forall x {:trigger CellAt(t, p, x)} | x in Nodes(t) :: h[x] == CellAt(t, p, x)
  }

  /** The same for a tree with a hole: `hole` is the link into the hole. */
  ghost function CtxCellAt<E>(c: Ctx<E>, hole: Hook?<E>, p0: Hook?<E>, x: Hook<E>): Cell<E>
    requires x in CtxNodes(c)
    decreases c
  {
    match c
    case Lt(up, n, b, r) =>
      if x == n then Cell(hole, Root(r), Above(up, p0), b)
      else if x in Nodes(r) then CellAt(r, n, x)
      else CtxCellAt(up, n, p0, x)
    case Rt(up, l, n, b) =>
      if x == n then Cell(Root(l), hole, Above(up, p0), b)
      else if x in Nodes(l) then CellAt(l, n, x)
      else CtxCellAt(up, n, p0, x)
  }

  ghost predicate RepCtx<E>(h: Heap<E>, c: Ctx<E>, hole: Hook?<E>, p0: Hook?<E>) {
    CtxNodes(c) <= h.Keys && forall x {:trigger CtxCellAt(c, hole, p0, x)} | x in CtxNodes(c) :: h[x] == CtxCellAt(c, hole, p0, x)
  }

  /** The root of the whole tree. */
  ghost function TopOf<E>(c: Ctx<E>, hole: Hook?<E>): Hook?<E>
    decreases c
  {
    if c.Top? then hole else TopOf(c.up, c.n)
  }

  /** `h` and `h'` hold the same fields for every hook in `s`. */
  ghost predicate Agree<E>(h: Heap<E>, h': Heap<E>, s: set<Hook<E>>) {
    forall x | x in s :: x in h && x in h' && h[x] == h'[x]
  }

  lemma RepNode<E>(h: Heap<E>, t: Tree<E>, p: Hook?<E>)
    requires t.Node? && Distinct(t)
    ensures Rep(h, t, p)
       <==> t.n in h && h[t.n] == Cell(Root(t.l), Root(t.r), p, t.b) && Rep(h, t.l, t.n) && Rep(h, t.r, t.n)
  {
    assert forall x | x in Nodes(t.l) :: CellAt(t, p, x) == CellAt(t.l, t.n, x);
    assert forall x | x in Nodes(t.r) :: CellAt(t, p, x) == CellAt(t.r, t.n, x);
    assert CellAt(t, p, t.n) == Cell(Root(t.l), Root(t.r), p, t.b);
    assert Nodes(t) == Nodes(t.l) + {t.n} + Nodes(t.r);
  }

  /** A tree whose hooks kept their fields, except that its root now hangs below `q`. */
  lemma Reparent<E>(h: Heap<E>, h': Heap<E>, t: Tree<E>, p: Hook?<E>, q: Hook?<E>)
    requires Rep(h, t, p)
    requires t.Node? ==> t.n in h' && h'[t.n] == h[t.n].(parent := q) && Agree(h, h', Nodes(t) - {t.n})
    ensures Rep(h', t, q)
  {
    forall x | x in Nodes(t)
      ensures x in h' && h'[x] == CellAt(t, q, x)
    {
      assert h[x] == CellAt(t, p, x);
    }
  }

  lemma AgreeRep<E>(h: Heap<E>, h': Heap<E>, t: Tree<E>, p: Hook?<E>)
    requires Rep(h, t, p) && Agree(h, h', Nodes(t))
    ensures Rep(h', t, p)
  {
    forall x | x in Nodes(t)
      ensures x in h' && h'[x] == CellAt(t, p, x)
    {
      assert h[x] == CellAt(t, p, x);
    }
  }

  lemma AgreeCtx<E>(h: Heap<E>, h': Heap<E>, c: Ctx<E>, hole: Hook?<E>, p0: Hook?<E>)
    requires RepCtx(h, c, hole, p0) && Agree(h, h', CtxNodes(c))
    ensures RepCtx(h', c, hole, p0)
  {
    forall x | x in CtxNodes(c)
      ensures x in h' && h'[x] == CtxCellAt(c, hole, p0, x)
    {
      assert h[x] == CtxCellAt(c, hole, p0, x);
    }
  }

  /** Replacing the link into the hole. */
  lemma Relink<E>(h: Heap<E>, h': Heap<E>, c: Ctx<E>, hole: Hook?<E>, hole': Hook?<E>, p0: Hook?<E>)
    requires RepCtx(h, c, hole, p0) && CtxDistinct(c, {})
    requires !c.Top? ==> c.n in h && c.n in h' && Agree(h, h', CtxNodes(c) - {c.n})
    requires !c.Top? ==> h'[c.n] == if c.Lt? then h[c.n].(left := hole') else h[c.n].(right := hole')
    ensures RepCtx(h', c, hole', p0)
    ensures !c.Top? ==> TopOf(c, hole') == TopOf(c, hole)
  {
    forall x | x in CtxNodes(c)
      ensures x in h' && h'[x] == CtxCellAt(c, hole', p0, x)
    {
      assert h[x] == CtxCellAt(c, hole, p0, x);
    }
  }

  lemma RepLt<E>(h: Heap<E>, c: Ctx<E>, hole: Hook?<E>, p0: Hook?<E>)
    requires c.Lt? && CtxDistinct(c, {})
    ensures RepCtx(h, c, hole, p0)
       <==> c.n in h && h[c.n] == Cell(hole, Root(c.r), Above(c.up, p0), c.b) && Rep(h, c.r, c.n) && RepCtx(h, c.up, c.n, p0)
  {
    assert forall x | x in Nodes(c.r) :: CtxCellAt(c, hole, p0, x) == CellAt(c.r, c.n, x);
    assert forall x | x in CtxNodes(c.up) :: CtxCellAt(c, hole, p0, x) == CtxCellAt(c.up, c.n, p0, x);
    assert c.n in CtxNodes(c) && CtxCellAt(c, hole, p0, c.n).bal == c.b;
  }

  lemma RepRt<E>(h: Heap<E>, c: Ctx<E>, hole: Hook?<E>, p0: Hook?<E>)
    requires c.Rt? && CtxDistinct(c, {})
    ensures RepCtx(h, c, hole, p0)
       <==> c.n in h && h[c.n] == Cell(Root(c.l), hole, Above(c.up, p0), c.b) && Rep(h, c.l, c.n) && RepCtx(h, c.up, c.n, p0)
  {
    assert forall x | x in Nodes(c.l) :: CtxCellAt(c, hole, p0, x) == CellAt(c.l, c.n, x);
    assert forall x | x in CtxNodes(c.up) :: CtxCellAt(c, hole, p0, x) == CtxCellAt(c.up, c.n, p0, x);
    assert c.n in CtxNodes(c) && CtxCellAt(c, hole, p0, c.n).bal == c.b;
  }

  /** Moving the hole to a child of `s`, whose root's balance has become `b`. */
  ghost function Down<E>(c: Ctx<E>, s: Tree<E>, b: int, left: bool): (Ctx<E>, Tree<E>)
    requires s.Node?
  {
    if left then (Lt(c, s.n, b, s.r), s.l) else (Rt(c, s.l, s.n, b), s.r)
  }

  lemma {:induction false} PlugRep<E>(h: Heap<E>, c: Ctx<E>, t: Tree<E>, p0: Hook?<E>)
    requires Distinct(t) && CtxDistinct(c, Nodes(t))
    ensures Rep(h, Plug(c, t), p0) <==> Rep(h, t, Above(c, p0)) && RepCtx(h, c, Root(t), p0)
    ensures TopOf(c, Root(t)) == Root(Plug(c, t))
    decreases c
  {
    match c
    case Top =>
    case Lt(up, n, b, r) =>
      var s := Node(t, n, b, r);
      assert Nodes(s) == Nodes(t) + {n} + Nodes(r);
      PlugRep(h, up, s, p0);
      RepNode(h, s, Above(up, p0));
      CtxShrink(c, Nodes(t), {});
      RepLt(h, c, Root(t), p0);
    case Rt(up, l, n, b) =>
      var s := Node(l, n, b, t);
      assert Nodes(s) == Nodes(t) + {n} + Nodes(l);
      PlugRep(h, up, s, p0);
      RepNode(h, s, Above(up, p0));
      CtxShrink(c, Nodes(t), {});
      RepRt(h, c, Root(t), p0);
  }

  /** The hooks in `all` form `s` plugged into `c`: `s` and `c` are both represented in `h`. */
  ghost predicate At<E>(h: Heap<E>, c: Ctx<E>, s: Tree<E>, all: set<Hook<E>>) {
    && Distinct(s) && CtxDistinct(c, Nodes(s)) && Nodes(s) + CtxNodes(c) == all
    && Rep(h, s, Above(c, null)) && RepCtx(h, c, Root(s), null)
  }

  lemma AtPlug<E>(h: Heap<E>, c: Ctx<E>, s: Tree<E>, all: set<Hook<E>>)
    ensures At(h, c, s, all)
       <==> Distinct(Plug(c, s)) && Nodes(Plug(c, s)) == all && Rep(h, Plug(c, s), null)
    ensures TopOf(c, Root(s)) == Root(Plug(c, s))
  {
    PlugNodes(c, s);
    if Distinct(s) && CtxDistinct(c, Nodes(s)) {
      PlugRep(h, c, s, null);
    }
    PlugTop(c, s);
  }

  lemma {:induction false} PlugTop<E>(c: Ctx<E>, s: Tree<E>)
    ensures TopOf(c, Root(s)) == Root(Plug(c, s))
    decreases c
  {
    match c
    case Top =>
    case Lt(up, n, b, r) => PlugTop(up, Node(s, n, b, r));
    case Rt(up, l, n, b) => PlugTop(up, Node(l, n, b, s));
  }

  /** The fields of the hook in focus. */
  lemma AtNode<E>(h: Heap<E>, c: Ctx<E>, s: Tree<E>, all: set<Hook<E>>)
    requires At(h, c, s, all) && s.Node?
    ensures s.n in all && s.n in h && h[s.n] == Cell(Root(s.l), Root(s.r), Above(c, null), s.b)
  {
    RepNode(h, s, Above(c, null));
  }

  /** Moving the focus to a child, after the balance of the hook in focus has become `b`. */
  lemma StepDown<E>(h: Heap<E>, h': Heap<E>, c: Ctx<E>, s: Tree<E>, b: int, left: bool, all: set<Hook<E>>)
    requires At(h, c, s, all) && s.Node?
    requires s.n in h && s.n in h' && h'[s.n] == h[s.n].(bal := b) && Agree(h, h', all - {s.n})
    ensures At(h', Down(c, s, b, left).0, Down(c, s, b, left).1, all)
  {
    hide CellAt, CtxCellAt;
    var (c', s') := Down(c, s, b, left);
    RepNode(h, s, Above(c, null));
    AgreeCtx(h, h', c, s.n, null);
    AgreeRep(h, h', s.l, s.n);
    AgreeRep(h, h', s.r, s.n);
    assert Nodes(s) == Nodes(s.l) + {s.n} + Nodes(s.r);
    assert CtxDistinct(c', Nodes(s')) by {
      CtxShrink(c, Nodes(s), Nodes(s') + {s.n} + Nodes(if left then s.r else s.l));
    }
    CtxShrink(c', Nodes(s'), {});
    if left {
      RepLt(h', c', Root(s'), null);
    } else {
      RepRt(h', c', Root(s'), null);
    }
  }

  /** Moving the focus to a child when nothing has changed. */
  lemma FocusDown<E>(h: Heap<E>, c: Ctx<E>, s: Tree<E>, left: bool, all: set<Hook<E>>)
    requires At(h, c, s, all) && s.Node?
    ensures At(h, Down(c, s, s.b, left).0, Down(c, s, s.b, left).1, all)
  {
    AtNode(h, c, s, all);
    StepDown(h, h, c, s, s.b, left, all);
  }
}
