/** The list layout with two link words per hook. */
module LinkedLists {
  import opened ListSpec

  ghost predicate LinkAt(next: map<Addr, Addr>, prev: map<Addr, Addr>, xs: seq<Addr>, i: int)
    requires 0 <= i < |xs|
  {
    xs[i] in next && next[xs[i]] == At(xs, i + 1) && xs[i] in prev && prev[xs[i]] == At(xs, i - 1)
  }

  ghost predicate Linked(next: map<Addr, Addr>, prev: map<Addr, Addr>, xs: seq<Addr>) {
    Linkable(xs) && forall i {:trigger LinkAt(next, prev, xs, i)} | 0 <= i < |xs| :: LinkAt(next, prev, xs, i)
  }

  /** The word at `h` becomes `hv`, the one at `a` becomes `v` unless `a` is null; no other changes. */
  ghost predicate Written(m: map<Addr, Addr>, m': map<Addr, Addr>, h: Addr, hv: Addr, a: Addr, v: Addr) {
    && m.Keys == m'.Keys && h in m' && m'[h] == hv
    && (a != NULL ==> a in m' && m'[a] == v)
    && forall x | x in m && x != h && (x != a || a == NULL) :: m'[x] == m[x]
  }

  lemma SplicedLinked(next: map<Addr, Addr>, prev: map<Addr, Addr>, next': map<Addr, Addr>, prev': map<Addr, Addr>,
                      xs: seq<Addr>, i: nat, h: Addr)
    requires Linked(next, prev, xs) && i <= |xs| && h !in xs && h != NULL
    requires Written(next, next', h, At(xs, i), At(xs, i - 1), h) && Written(prev, prev', h, At(xs, i - 1), At(xs, i), h)
    ensures Linked(next', prev', Inserted(xs, i, h))
    ensures Elsewhere(next, next', Inserted(xs, i, h)) && Elsewhere(prev, prev', Inserted(xs, i, h))
  {
    var ys := Inserted(xs, i, h);
    InsertedLinkable(xs, i, h);
    forall k | 0 <= k < |ys|
      ensures LinkAt(next', prev', ys, k)
    {
      InsertedAt(xs, i, h, k - 1);
      InsertedAt(xs, i, h, k);
      InsertedAt(xs, i, h, k + 1);
      if k != i {
        var j := if k < i then k else k - 1;
        assert LinkAt(next, prev, xs, j);
        ApartFrom(xs, j, i);
      }
    }
    assert ys[i] == h && (i > 0 ==> ys[i - 1] == xs[i - 1]) && (i < |xs| ==> ys[i + 1] == xs[i]);
  }

  lemma ApartFrom(xs: seq<Addr>, j: nat, i: int)
    requires Linkable(xs) && j < |xs|
    ensures At(xs, j) == xs[j] != NULL
    ensures j != i ==> xs[j] != At(xs, i)
    ensures j != i - 1 ==> xs[j] != At(xs, i - 1)
    ensures j != i + 1 ==> xs[j] != At(xs, i + 1)
  {
    assert xs[j] in xs;
    if j != i {
      Apart(xs, j, i);
    }
    if j != i - 1 {
      Apart(xs, j, i - 1);
    }
    if j != i + 1 {
      Apart(xs, j, i + 1);
    }
  }

  /** Only the word at `a` changes, to `v`; nothing if `a` is null. */
  ghost predicate Reset(m: map<Addr, Addr>, m': map<Addr, Addr>, a: Addr, v: Addr) {
    && m.Keys == m'.Keys && (a != NULL ==> a in m' && m'[a] == v)
    && forall x | x in m && (x != a || a == NULL) :: m'[x] == m[x]
  }

  lemma CutLinked(next: map<Addr, Addr>, prev: map<Addr, Addr>, next': map<Addr, Addr>, prev': map<Addr, Addr>,
                  xs: seq<Addr>, i: nat)
    requires Linked(next, prev, xs) && i < |xs|
    requires Reset(next, next', At(xs, i - 1), At(xs, i + 1)) && Reset(prev, prev', At(xs, i + 1), At(xs, i - 1))
    ensures Linked(next', prev', Removed(xs, i))
    ensures Elsewhere(next, next', xs) && Elsewhere(prev, prev', xs)
  {
    var ys := Removed(xs, i);
    RemovedLinkable(xs, i);
    forall k | 0 <= k < |ys|
      ensures LinkAt(next', prev', ys, k)
    {
      RemovedAt(xs, i, k - 1);
      RemovedAt(xs, i, k);
      RemovedAt(xs, i, k + 1);
      var j := if k < i then k else k + 1;
      assert LinkAt(next, prev, xs, j);
      ApartFrom(xs, j, i);
    }
  }

  /** The words of the hooks: `_next` and `_prev` at each hook's address. */
  class Memory {
    var next: map<Addr, Addr>
    var prev: map<Addr, Addr>

    constructor (hooks: set<Addr>)
      ensures next.Keys == prev.Keys == hooks
    {
      next := map a | a in hooks :: NULL;
      prev := map a | a in hooks :: NULL;
    }
  }

  /** What tells the cases apart, and what the link words there hold. */
  lemma Around(next: map<Addr, Addr>, prev: map<Addr, Addr>, xs: seq<Addr>, i: int)
    requires Linked(next, prev, xs) && 0 <= i <= |xs|
    ensures At(xs, i) == NULL <==> i == |xs|
    ensures At(xs, i - 1) == NULL <==> i == 0
    ensures At(xs, 0) == NULL <==> xs == []
    ensures At(xs, |xs| - 1) == NULL <==> xs == []
    ensures i < |xs| ==> xs[i] in next && xs[i] in prev && next[xs[i]] == At(xs, i + 1) && prev[xs[i]] == At(xs, i - 1)
    ensures i < |xs| ==> xs[i] in xs && (xs[i] == At(xs, 0) <==> i == 0) && (xs[i] == At(xs, |xs| - 1) <==> i == |xs| - 1)
    ensures i > 0 ==> xs[i - 1] in next && xs[i - 1] in prev && xs[i - 1] in xs && next[xs[i - 1]] == At(xs, i)
  {
    if i < |xs| {
      assert LinkAt(next, prev, xs, i);
      ApartFrom(xs, i, 0);
      ApartFrom(xs, i, |xs| - 1);
    }
    if i > 0 {
      assert LinkAt(next, prev, xs, i - 1);
      ApartFrom(xs, i - 1, i);
    }
    assert xs != [] ==> xs[0] in xs && xs[|xs| - 1] in xs;
  }

  /** An iterator is its hook, or null at the end. */
  datatype It = It(value: Addr)

  ghost predicate Stands(it: It, xs: seq<Addr>, i: int) {
    0 <= i <= |xs| && it.value == At(xs, i)
  }

  ghost predicate RStands(rit: It, xs: seq<Addr>, i: int) {
    -1 <= i < |xs| && rit.value == At(xs, i)
  }

  class List {
    const mem: Memory
    var head: Addr
    var tail: Addr
    var size: nat
    ghost var xs: seq<Addr>

    ghost predicate Valid()
      reads this, mem
    {
      Linked(mem.next, mem.prev, xs) && head == At(xs, 0) && tail == At(xs, |xs| - 1) && size == |xs|
    }

    /** The hook exists and is in no position of this list. */
    ghost predicate Free(hook: Addr)
      reads this, mem
    {
      hook in mem.next && hook in mem.prev && hook != NULL && hook !in xs
    }

    constructor (m: Memory)
      ensures Valid() && xs == [] && mem == m
    {
      mem, head, tail, size, xs := m, NULL, NULL, 0, [];
    }

    method Append(hook: Addr)
      requires Valid() && Free(hook)
      modifies this, mem
      ensures Valid() && xs == old(xs) + [hook]
      ensures Elsewhere(old(mem.next), mem.next, xs) && Elsewhere(old(mem.prev), mem.prev, xs)
    {
      hide Linked, LinkAt, Linkable;
      ghost var next, prev := mem.next, mem.prev;
      Around(next, prev, xs, |xs|);
      mem.next := mem.next[hook := NULL];
      mem.prev := mem.prev[hook := tail];
      if tail != NULL {
        mem.next := mem.next[tail := hook];
      }
      if head == NULL {
        head := hook;
      }
      tail := hook;
      size := size + 1;
      assert Inserted(xs, |xs|, hook) == xs + [hook];
      Grown(next, prev, |xs|, hook);
    }

    method Prepend(hook: Addr)
      requires Valid() && Free(hook)
      modifies this, mem
      ensures Valid() && xs == [hook] + old(xs)
      ensures Elsewhere(old(mem.next), mem.next, xs) && Elsewhere(old(mem.prev), mem.prev, xs)
    {
      hide Linked, LinkAt, Linkable;
      ghost var next, prev := mem.next, mem.prev;
      Around(next, prev, xs, 0);
      mem.prev := mem.prev[hook := NULL];
      mem.next := mem.next[hook := head];
      if head != NULL {
        mem.prev := mem.prev[head := hook];
      }
      head := hook;
      if tail == NULL {
        tail := hook;
      }
      size := size + 1;
      assert Inserted(xs, 0, hook) == [hook] + xs;
      Grown(next, prev, 0, hook);
    }

    /** The link words of a new hook and of its two neighbours. */
    method Weave(hook: Addr, left: Addr, right: Addr)
      requires hook in mem.next && hook in mem.prev && left != hook && right != hook
      requires (left != NULL ==> left in mem.next) && (right != NULL ==> right in mem.prev)
      modifies mem
      ensures Written(old(mem.next), mem.next, hook, right, left, hook)
      ensures Written(old(mem.prev), mem.prev, hook, left, right, hook)
    {
      if right != NULL {
        mem.prev := mem.prev[right := hook];
      }
      if left != NULL {
        mem.next := mem.next[left := hook];
      }
      mem.prev := mem.prev[hook := left];
      mem.next := mem.next[hook := right];
    }

    /** A new element in front of the iterator's. */
    method Insert(hook: Addr, it: It, ghost i: int)
      requires Valid() && Free(hook) && Stands(it, xs, i)
      modifies this, mem
      ensures Valid() && xs == Inserted(old(xs), i, hook)
      ensures Elsewhere(old(mem.next), mem.next, xs) && Elsewhere(old(mem.prev), mem.prev, xs)
    {
      hide Linked, LinkAt, Linkable, Written;
      ghost var next, prev := mem.next, mem.prev;
      Around(next, prev, xs, i);
      var before := NULL;
      if it.value != NULL {
        before := mem.prev[it.value];
      } else if tail != NULL {
        before := tail;
      }
      Weave(hook, before, it.value);
      if before == NULL {
        head := hook;
      }
      if it.value == NULL {
        tail := hook;
      }
      size := size + 1;
      Grown(next, prev, i, hook);
    }

    /** A new element in front of the reverse iterator's, that is, behind its element. */
    method Rinsert(hook: Addr, rit: It, ghost i: int)
      requires Valid() && Free(hook) && RStands(rit, xs, i)
      modifies this, mem
      ensures Valid() && xs == Inserted(old(xs), i + 1, hook)
      ensures Elsewhere(old(mem.next), mem.next, xs) && Elsewhere(old(mem.prev), mem.prev, xs)
    {
      hide Linked, LinkAt, Linkable, Written;
      ghost var next, prev := mem.next, mem.prev;
      Around(next, prev, xs, i + 1);
      var before := NULL;
      if rit.value != NULL {
        before := mem.next[rit.value];
      } else if tail != NULL {
        before := head;
      }
      Weave(hook, rit.value, before);
      if rit.value == NULL {
        head := hook;
      }
      if before == NULL {
        tail := hook;
      }
      size := size + 1;
      Grown(next, prev, i + 1, hook);
    }

    /** The abstract list follows, once all the fields are set. */
    ghost method Grown(next: map<Addr, Addr>, prev: map<Addr, Addr>, i: nat, hook: Addr)
      requires Linked(next, prev, xs) && i <= |xs| && hook != NULL && hook !in xs && size == |xs| + 1
      requires Written(next, mem.next, hook, At(xs, i), At(xs, i - 1), hook)
      requires Written(prev, mem.prev, hook, At(xs, i - 1), At(xs, i), hook)
      requires head == (if i == 0 then hook else At(xs, 0)) && tail == (if i == |xs| then hook else At(xs, |xs| - 1))
      modifies `xs
      ensures Valid() && xs == Inserted(old(xs), i, hook)
      ensures Elsewhere(next, mem.next, xs) && Elsewhere(prev, mem.prev, xs)
    {
      SplicedLinked(next, prev, mem.next, mem.prev, xs, i, hook);
      InsertedAt(xs, i, hook, 0);
      InsertedAt(xs, i, hook, |xs|);
      xs := Inserted(xs, i, hook);
    }

    /** Taking out the iterator's element. */
    method Erase(it: It, ghost i: int)
      requires Valid() && Stands(it, xs, i) && i < |xs|
      modifies this, mem
      ensures Valid() && xs == Removed(old(xs), i)
      ensures Elsewhere(old(mem.next), mem.next, old(xs)) && Elsewhere(old(mem.prev), mem.prev, old(xs))
    {
      hide Linked, LinkAt, Linkable;
      ghost var next, prev := mem.next, mem.prev;
      var hook := it.value;
      Distinguish(next, prev, xs, i);
      if head == tail {
        head, tail := NULL, NULL;
      } else if hook == head {
        mem.prev := mem.prev[mem.next[hook] := NULL];
        head := mem.next[hook];
      } else if hook == tail {
        mem.next := mem.next[mem.prev[hook] := NULL];
        tail := mem.prev[hook];
      } else {
        mem.next := mem.next[mem.prev[hook] := mem.next[hook]];
        mem.prev := mem.prev[mem.next[hook] := mem.prev[hook]];
      }
      size := size - 1;
      Shrunk(next, prev, i);
    }

    ghost method Shrunk(next: map<Addr, Addr>, prev: map<Addr, Addr>, i: nat)
      requires Linked(next, prev, xs) && i < |xs| && size == |xs| - 1
      requires Reset(next, mem.next, At(xs, i - 1), At(xs, i + 1)) && Reset(prev, mem.prev, At(xs, i + 1), At(xs, i - 1))
      requires head == At(xs, if i == 0 then 1 else 0)
      requires tail == if |xs| == 1 then NULL else At(xs, if i == |xs| - 1 then |xs| - 2 else |xs| - 1)
      modifies `xs
      ensures Valid() && xs == Removed(old(xs), i)
      ensures Elsewhere(next, mem.next, old(xs)) && Elsewhere(prev, mem.prev, old(xs))
    {
      CutLinked(next, prev, mem.next, mem.prev, xs, i);
      RemovedAt(xs, i, 0);
      RemovedAt(xs, i, |xs| - 2);
      xs := Removed(xs, i);
    }

    /** The reverse iterator's element: this layout converts the iterator without loss. */
    method Rerase(rit: It, ghost i: int)
      requires Valid() && RStands(rit, xs, i) && 0 <= i
      modifies this, mem
      ensures Valid() && xs == Removed(old(xs), i)
      ensures Elsewhere(old(mem.next), mem.next, old(xs)) && Elsewhere(old(mem.prev), mem.prev, old(xs))
    {
      Erase(It(rit.value), i);
    }

    method PopFront()
      requires Valid() && xs != []
      modifies this, mem
      ensures Valid() && xs == old(xs)[1..]
      ensures Elsewhere(old(mem.next), mem.next, old(xs)) && Elsewhere(old(mem.prev), mem.prev, old(xs))
    {
      var begin := Begin();
      Erase(begin, 0);
    }

    method PopBack()
      requires Valid() && xs != []
      modifies this, mem
      ensures Valid() && xs == old(xs)[..|old(xs)| - 1]
      ensures Elsewhere(old(mem.next), mem.next, old(xs)) && Elsewhere(old(mem.prev), mem.prev, old(xs))
    {
      var rbegin := Rbegin();
      Rerase(rbegin, |xs| - 1);
    }

    method Clear()
      requires Valid()
      modifies this
      ensures Valid() && xs == []
    {
      head, tail, size, xs := NULL, NULL, 0, [];
    }

    /** All the hooks of `src` go to this list, whose own hooks are let go. */
    method MoveFrom(src: List)
      requires Valid() && src.Valid() && src != this && src.mem == mem
      modifies this, src
      ensures Valid() && src.Valid() && xs == old(src.xs) && src.xs == []
    {
      head, tail, size, xs := src.head, src.tail, src.size, src.xs;
      src.head, src.tail, src.size, src.xs := NULL, NULL, 0, [];
    }

    method Swap(other: List)
      requires Valid() && other.Valid() && other.mem == mem
      modifies this, other
      ensures Valid() && other.Valid() && xs == old(other.xs) && other.xs == old(xs)
    {
      var h, t, n := head, tail, size;
      ghost var ys := xs;
      head, tail, size, xs := other.head, other.tail, other.size, other.xs;
      other.head, other.tail, other.size, other.xs := h, t, n, ys;
    }

    // ---- Iteration ----

    method Begin() returns (it: It)
      requires Valid()
      ensures Stands(it, xs, 0)
    {
      it := It(head);
    }

    method Rbegin() returns (rit: It)
      requires Valid()
      ensures RStands(rit, xs, |xs| - 1)
    {
      rit := It(tail);
    }

    method Next(it: It, ghost i: int) returns (it': It)
      requires Valid() && Stands(it, xs, i) && i < |xs|
      ensures Stands(it', xs, i + 1)
    {
      Around(mem.next, mem.prev, xs, i);
      it' := It(mem.next[it.value]);
    }

    method Rnext(rit: It, ghost i: int) returns (rit': It)
      requires Valid() && RStands(rit, xs, i) && 0 <= i
      ensures RStands(rit', xs, i - 1)
    {
      Around(mem.next, mem.prev, xs, i);
      rit' := It(mem.prev[rit.value]);
    }

    /** Following the links from the head passes every element, in order, and ends. */
    method Forward() returns (s: seq<Addr>)
      requires Valid()
      ensures s == xs
    {
      hide Linked, LinkAt, Linkable;
      var it := Begin();
      Around(mem.next, mem.prev, xs, 0);
      s := [];
      while it.value != NULL
        invariant |s| <= |xs| && s == xs[..|s|] && Stands(it, xs, |s|)
        invariant it.value == NULL <==> |s| == |xs|
        decreases |xs| - |s|
      {
        var next := Next(it, |s|);
        s := s + [it.value];
        it := next;
        Around(mem.next, mem.prev, xs, |s|);
      }
    }

    /** From the tail, the same elements come in the opposite order. */
    method Backward() returns (s: seq<Addr>)
      requires Valid()
      ensures s == Reversed(xs)
    {
      hide Linked, LinkAt, Linkable;
      var rit := Rbegin();
      Around(mem.next, mem.prev, xs, |xs|);
      s := [];
      while rit.value != NULL
        invariant |s| <= |xs| && (forall k | 0 <= k < |s| :: s[k] == xs[|xs| - 1 - k]) && RStands(rit, xs, |xs| - 1 - |s|)
        invariant rit.value == NULL <==> |s| == |xs|
        decreases |xs| - |s|
      {
        var next := Rnext(rit, |xs| - 1 - |s|);
        s := s + [rit.value];
        rit := next;
        Around(mem.next, mem.prev, xs, |xs| - |s|);
      }
      IsReversed(xs, s);
    }

    /** dfk_list_size where the size is not stored. */
    method Count() returns (n: nat)
      requires Valid()
      ensures n == |xs| == size
    {
      hide Linked, LinkAt, Linkable;
      var it := Begin();
      Around(mem.next, mem.prev, xs, 0);
      n := 0;
      while it.value != NULL
        invariant n <= |xs| && Stands(it, xs, n) && (it.value == NULL <==> n == |xs|)
        decreases |xs| - n
      {
        it := Next(it, n);
        n := n + 1;
        Around(mem.next, mem.prev, xs, n);
      }
    }

    /** dfk_list_it_from_value: the hook is the iterator. */
    method Find(value: Addr) returns (it: It)
      requires Valid() && value in xs
      ensures it.value == value && exists i :: 0 <= i < |xs| && Stands(it, xs, i)
    {
      ghost var i :| 0 <= i < |xs| && xs[i] == value;
      it := It(value);
      assert Stands(it, xs, i);
    }
  }

  /** A list none of whose hooks an operation touches keeps its links. */
  lemma OtherListUntouched(next: map<Addr, Addr>, prev: map<Addr, Addr>, next': map<Addr, Addr>, prev': map<Addr, Addr>,
                           touched: seq<Addr>, ys: seq<Addr>)
    requires Linked(next, prev, ys) && Elsewhere(next, next', touched) && Elsewhere(prev, prev', touched)
    requires forall y | y in ys :: y !in touched
    ensures Linked(next', prev', ys)
  {
    forall i | 0 <= i < |ys|
      ensures LinkAt(next', prev', ys, i)
    {
      assert LinkAt(next, prev, ys, i) && ys[i] in ys;
    }
  }

  /** What tells the cases of dfk_list_erase apart, and what the link words there hold. */
  lemma Distinguish(next: map<Addr, Addr>, prev: map<Addr, Addr>, xs: seq<Addr>, i: int)
    requires Linked(next, prev, xs) && 0 <= i < |xs|
    ensures At(xs, 0) == At(xs, |xs| - 1) <==> |xs| == 1
    ensures xs[i] == At(xs, 0) <==> i == 0
    ensures xs[i] == At(xs, |xs| - 1) <==> i == |xs| - 1
    ensures xs[i] in next && next[xs[i]] == At(xs, i + 1) && xs[i] in prev && prev[xs[i]] == At(xs, i - 1)
    ensures i > 0 ==> At(xs, i - 1) in next && At(xs, i - 1) != NULL && At(xs, i - 1) != xs[i]
    ensures i < |xs| - 1 ==> At(xs, i + 1) in prev && At(xs, i + 1) != NULL && At(xs, i + 1) != xs[i]
    ensures i == 0 ==> At(xs, i - 1) == NULL
    ensures i == |xs| - 1 ==> At(xs, i + 1) == NULL
  {
    Around(next, prev, xs, i);
    ApartFrom(xs, i, i);
    ApartFrom(xs, 0, |xs| - 1);
    if i > 0 {
      Around(next, prev, xs, i - 1);
    }
    if i < |xs| - 1 {
      Around(next, prev, xs, i + 1);
    }
  }
}
