/** Search paths in a tree: which hook a comparator leads to, where insertion links a new
    hook, and what updating balances along part of the path achieves. */
module AvlPath {
  import opened Common
  import opened AvlShape

  /** What the lookup comparator `f` says about a hook: negative sends the search left. */
  ghost function Sign<E>(f: E -> int, x: Hook<E>): int {
    f(x.item)
  }

  /** A lookup comparator fits the order of `s`: positive values, then zeros, then negative ones. */
  ghost predicate Fits<E>(f: E -> int, s: seq<Hook<E>>) {
    forall i, j | 0 <= i < j < |s| ::
      (Sign(f, s[i]) <= 0 ==> Sign(f, s[j]) <= 0) && (Sign(f, s[i]) < 0 ==> Sign(f, s[j]) < 0)
  }

  /** Descending meets a hook that compares equal. */
  ghost predicate Found<E>(t: Tree<E>, f: E -> int) {
    t.Node? && (Sign(f, t.n) == 0 || (if Sign(f, t.n) < 0 then Found(t.l, f) else Found(t.r, f)))
  }

  /** Hangs `e` below the last hook of the path, leaving all balances alone. */
  ghost function Link<E>(t: Tree<E>, f: E -> int, e: Hook<E>): Tree<E> {
    match t
    case Leaf => Node(Leaf, e, 0, Leaf)
    case Node(l, n, b, r) => if Sign(f, n) < 0 then Node(Link(l, f, e), n, b, r) else Node(l, n, b, Link(r, f, e))
  }

  /** Hangs `e` below the last hook of the path and shifts every balance on the path. */
  ghost function Grow<E>(t: Tree<E>, f: E -> int, e: Hook<E>): Tree<E> {
    match t
    case Leaf => Node(Leaf, e, 0, Leaf)
    case Node(l, n, b, r) => if Sign(f, n) < 0 then Node(Grow(l, f, e), n, b - 1, r) else Node(l, n, b + 1, Grow(r, f, e))
  }

  ghost function Next<E>(t: Tree<E>, f: E -> int): Tree<E>
    requires t.Node?
  {
    if Sign(f, t.n) < 0 then t.l else t.r
  }

  /** Every hook on the path strictly below the root has balance zero. */
  ghost predicate ZeroBelow<E>(t: Tree<E>, f: E -> int)
    requires t.Node?
  {
    var s := Next(t, f);
    s.Leaf? || (s.b == 0 && ZeroBelow(s, f))
  }

  /** What fitting means on the two sides of the root. */
  lemma FitsSides<E>(t: Tree<E>, f: E -> int)
    requires t.Node? && Fits(f, InOrder(t))
    ensures Fits(f, InOrder(t.l)) && Fits(f, InOrder(t.r))
    ensures forall x | x in InOrder(t.l) ::
      (Sign(f, t.n) > 0 ==> Sign(f, x) > 0) && (Sign(f, t.n) >= 0 ==> Sign(f, x) >= 0)
    ensures forall x | x in InOrder(t.r) ::
      (Sign(f, t.n) < 0 ==> Sign(f, x) < 0) && (Sign(f, t.n) <= 0 ==> Sign(f, x) <= 0)
  {
    var s, m := InOrder(t), |InOrder(t.l)|;
    assert s[m] == t.n && s[..m] == InOrder(t.l) && s[m + 1..] == InOrder(t.r);
    assert forall i | 0 <= i < m :: s[i] == InOrder(t.l)[i];
    assert forall i | 0 <= i < |InOrder(t.r)| :: s[m + 1 + i] == InOrder(t.r)[i];
  }

  lemma {:induction false} FoundIff<E>(t: Tree<E>, f: E -> int)
    requires Fits(f, InOrder(t))
    ensures Found(t, f) <==> exists x | x in InOrder(t) :: Sign(f, x) == 0
  {
    if t.Node? {
      FitsSides(t, f);
      FoundIff(t.l, f);
      FoundIff(t.r, f);
      assert t.n in InOrder(t);
    }
  }

  /** `s'` is `s` with `e` added at position `k`, after everything positive and before everything negative. */
  ghost predicate AddedAt<E>(s: seq<Hook<E>>, s': seq<Hook<E>>, f: E -> int, e: Hook<E>, k: int) {
    0 <= k <= |s| && s' == s[..k] + [e] + s[k..]
    && (forall i | 0 <= i < k :: Sign(f, s[i]) > 0) && (forall i | k <= i < |s| :: Sign(f, s[i]) < 0)
  }

  lemma {:induction false} LinkInOrder<E>(t: Tree<E>, f: E -> int, e: Hook<E>) returns (k: nat)
    requires Fits(f, InOrder(t)) && !Found(t, f)
    ensures AddedAt(InOrder(t), InOrder(Link(t, f, e)), f, e, k)
  {
    if t.Leaf? {
      k := 0;
    } else {
      FitsSides(t, f);
      if Sign(f, t.n) < 0 {
        k := LinkInOrder(t.l, f, e);
        AddedLeft(InOrder(t.l), InOrder(Link(t.l, f, e)), t.n, InOrder(t.r), f, e, k);
      } else {
        k := LinkInOrder(t.r, f, e);
        AddedRight(InOrder(t.l), t.n, InOrder(t.r), InOrder(Link(t.r, f, e)), f, e, k);
        k := k + |InOrder(t.l)| + 1;
      }
    }
  }

  lemma AddedLeft<E>(s: seq<Hook<E>>, s': seq<Hook<E>>, n: Hook<E>, r: seq<Hook<E>>, f: E -> int, e: Hook<E>, k: int)
    requires AddedAt(s, s', f, e, k) && Sign(f, n) < 0 && forall x | x in r :: Sign(f, x) < 0
    ensures AddedAt(s + [n] + r, s' + [n] + r, f, e, k)
  {
    assert (s + [n] + r)[..k] == s[..k] && (s + [n] + r)[k..] == s[k..] + [n] + r;
  }

  lemma AddedRight<E>(l: seq<Hook<E>>, n: Hook<E>, s: seq<Hook<E>>, s': seq<Hook<E>>, f: E -> int, e: Hook<E>, k: int)
    requires AddedAt(s, s', f, e, k) && Sign(f, n) > 0 && forall x | x in l :: Sign(f, x) > 0
    ensures AddedAt(l + [n] + s, l + [n] + s', f, e, k + |l| + 1)
  {
    assert (l + [n] + s)[..k + |l| + 1] == l + [n] + s[..k] && (l + [n] + s)[k + |l| + 1..] == s[k..];
  }

  lemma {:induction false} GrowInOrder<E>(t: Tree<E>, f: E -> int, e: Hook<E>)
    ensures InOrder(Grow(t, f, e)) == InOrder(Link(t, f, e))
    ensures Nodes(Grow(t, f, e)) == Nodes(t) + {e}
    ensures Nodes(Link(t, f, e)) == Nodes(t) + {e}
    ensures Distinct(t) && e !in Nodes(t) ==> Distinct(Grow(t, f, e)) && Distinct(Link(t, f, e))
  {
    if t.Node? {
      GrowInOrder(t.l, f, e);
      GrowInOrder(t.r, f, e);
    }
  }

  /** When the balances below the root of the path are zero, the shifted balances are exact and
      everything below the root is AVL. An even root then leans and the tree grows; a leaning
      root either evens out at the same height, or is off by two with a leaning tall child. */
  lemma {:induction false} GrowBalances<E>(t: Tree<E>, f: E -> int, e: Hook<E>)
    requires Avl(t) && (t.Node? ==> ZeroBelow(t, f))
    ensures var g := Grow(t, f, e);
      && g.b == Height(g.r) - Height(g.l) && Avl(g.l) && Avl(g.r)
      && if t.Leaf? || t.b == 0 then Avl(g) && Height(g) == Height(t) + 1 && (t.Node? ==> g.b != 0)
         else if g.b == 0 then Height(g) == Height(t)
         else (g.b == 2 || g.b == -2) && Height(g) == Height(t) + 1
              && var tall := if g.b == 2 then g.r else g.l; tall.Node? && (tall.b == 1 || tall.b == -1)
  {
    hide Nodes;
    if t.Node? {
      var s := Next(t, f);
      GrowBalances(s, f, e);
      assert Avl(t.l) && Avl(t.r) && Height(t) == 1 + Max(Height(t.l), Height(t.r));
    }
  }

  /** Shifting the balance at the root and going down, from the linked tree to the grown one. */
  lemma PlugGrow<E>(c: Ctx<E>, t: Tree<E>, f: E -> int, e: Hook<E>)
    requires t.Node?
    ensures Link(t, f, e).Node? && Link(t, f, e).n == t.n && Link(t, f, e).b == t.b
    ensures Sign(f, t.n) < 0 ==> Link(t, f, e) == Node(Link(t.l, f, e), t.n, t.b, t.r)
    ensures Sign(f, t.n) < 0 ==> Plug(Lt(c, t.n, t.b - 1, t.r), Grow(t.l, f, e)) == Plug(c, Grow(t, f, e))
    ensures Sign(f, t.n) >= 0 ==> Link(t, f, e) == Node(t.l, t.n, t.b, Link(t.r, f, e))
    ensures Sign(f, t.n) >= 0 ==> Plug(Rt(c, t.l, t.n, t.b + 1), Grow(t.r, f, e)) == Plug(c, Grow(t, f, e))
  {
  }

  /** Hanging `e` below the last hook of the path: one child link and one parent link. */
  ghost predicate Linked<E>(h: Heap<E>, h': Heap<E>, s: Tree<E>, f: E -> int, e: Hook<E>)
    requires s.Node?
  {
    && s.n in h && s.n in h' && h'[s.n] == (if Sign(f, s.n) < 0 then h[s.n].(left := e) else h[s.n].(right := e))
    && e in h' && h'[e] == Cell(null, null, s.n, 0)
  }

  lemma LinkSub<E>(h: Heap<E>, h': Heap<E>, s: Tree<E>, p: Hook?<E>, f: E -> int, e: Hook<E>)
    requires Rep(h, s, p) && Distinct(s) && s.Node? && Next(s, f).Leaf? && e !in Nodes(s)
    requires Linked(h, h', s, f, e) && Agree(h, h', Nodes(s) - {s.n})
    ensures Rep(h', Link(s, f, e), p) && Distinct(Link(s, f, e)) && Nodes(Link(s, f, e)) == Nodes(s) + {e}
  {
    var s', x := Link(s, f, e), Node(Leaf, e, 0, Leaf);
    RepNode(h, s, p);
    assert Nodes(x) == {e};
    RepNode(h', x, s.n);
    PlugGrow(Top, s, f, e);
    assert Link(Next(s, f), f, e) == x;
    AgreeRep(h, h', if Sign(f, s.n) < 0 then s.r else s.l, s.n);
    RepNode(h', s', p);
  }

  lemma LinkStep<E>(h: Heap<E>, h': Heap<E>, c: Ctx<E>, s: Tree<E>, f: E -> int, e: Hook<E>, all: set<Hook<E>>)
    requires At(h, c, s, all) && s.Node? && Next(s, f).Leaf? && e !in all
    requires Linked(h, h', s, f, e) && Agree(h, h', all - {s.n})
    ensures At(h', c, Link(s, f, e), all + {e})
  {
    LinkSub(h, h', s, Above(c, null), f, e);
    AgreeCtx(h, h', c, s.n, null);
    CtxGrow(c, Nodes(s), Nodes(s) + {e}, e);
  }

  lemma {:induction false} CtxGrow<E>(c: Ctx<E>, s: set<Hook<E>>, s': set<Hook<E>>, e: Hook<E>)
    requires CtxDistinct(c, s) && s' <= s + {e} && e !in CtxNodes(c)
    ensures CtxDistinct(c, s')
    decreases c
  {
    match c
    case Top =>
    case Lt(up, n, _, r) => CtxGrow(up, s + {n} + Nodes(r), s' + {n} + Nodes(r), e);
    case Rt(up, l, n, _) => CtxGrow(up, s + {n} + Nodes(l), s' + {n} + Nodes(l), e);
  }

  /** `rest` is an AVL subtree of `sp`, without `e` and without a hook on the path equal to it. */
  ghost predicate OnPath<E>(rest: Tree<E>, sp: Tree<E>, f: E -> int, e: Hook<E>) {
    Avl(rest) && e !in Nodes(rest) && Nodes(rest) <= Nodes(sp) && !Found(rest, f)
  }

  lemma OnPathStart<E>(sp: Tree<E>, f: E -> int, e: Hook<E>)
    requires Avl(sp) && e !in Nodes(sp) && !Found(sp, f)
    ensures OnPath(sp, sp, f, e)
  {
  }

  lemma OnPathEnd<E>(rest: Tree<E>, sp: Tree<E>, f: E -> int, e: Hook<E>)
    requires OnPath(rest, sp, f, e) && Root(Link(rest, f, e)) == e
    ensures rest.Leaf? && Grow(rest, f, e) == Link(rest, f, e)
  {
  }

  lemma OnPathNext<E>(rest: Tree<E>, sp: Tree<E>, f: E -> int, e: Hook<E>)
    requires OnPath(rest, sp, f, e) && Root(Link(rest, f, e)) != e
    ensures rest.Node? && rest.n in Nodes(sp) && -1 <= rest.b <= 1 && Sign(f, rest.n) != 0
    ensures OnPath(if Sign(f, rest.n) < 0 then rest.l else rest.r, sp, f, e)
  {
    assert Nodes(rest) == Nodes(rest.l) + {rest.n} + Nodes(rest.r);
  }
}
