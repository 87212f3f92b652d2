/** The list layout with one link word per hook: the addresses of both neighbours, XORed. */
module XorLists {
  import opened ListSpec

  function Xor(a: Addr, b: Addr): Addr {
    Addr(a.bits ^ b.bits)
  }

  function Xor3(a: Addr, b: Addr, c: Addr): Addr {
    Xor(Xor(a, b), c)
  }

  lemma XorNull(a: Addr)
    ensures Xor(a, NULL) == a && Xor(NULL, a) == a && Xor(a, a) == NULL
  {
  }

  lemma XorSwaps(a: Addr, b: Addr)
    ensures Xor(a, b) == Xor(b, a)
  {
  }

  lemma XorOf(a: Addr, x: Addr, t: bv64)
    requires x == Addr(t)
    ensures Xor(a, x) == Addr(a.bits ^ t)
  {
  }

  lemma XorBits(a: Addr, b: Addr, c: Addr)
    ensures Xor(a, Xor(b, c)) == Addr(a.bits ^ (b.bits ^ c.bits))
  {
    hide Xor;
    XorOf(b, c, c.bits);
    XorOf(a, Xor(b, c), b.bits ^ c.bits);
  }

  lemma AssociativeBits(a: bv64, b: bv64, c: bv64)
    ensures Addr(c ^ (a ^ b)) == Addr(a ^ (b ^ c))
  {
  }

  // From here on, only the laws above are used of XOR.

  lemma XorAssociates(a: Addr, b: Addr, c: Addr)
    ensures Xor(Xor(a, b), c) == Xor(a, Xor(b, c))
  {
    hide Xor;
    XorSwaps(Xor(a, b), c);
    XorBits(c, a, b);
    XorBits(a, b, c);
    AssociativeBits(a.bits, b.bits, c.bits);
  }

  lemma Xor3Null(a: Addr, b: Addr)
    ensures Xor3(a, b, NULL) == Xor(a, b) && Xor3(a, NULL, b) == Xor(a, b)
  {
    hide Xor;
    XorNull(a);
    XorNull(Xor(a, b));
  }

  lemma Xor3Groups(a: Addr, b: Addr, c: Addr)
    ensures Xor3(a, b, c) == Xor(a, Xor(c, b))
  {
    hide Xor;
    XorAssociates(a, b, c);
    XorSwaps(b, c);
  }

  lemma Xor3Swaps(a: Addr, b: Addr, c: Addr)
    ensures Xor3(a, b, c) == Xor3(a, c, b)
  {
    hide Xor;
    XorAssociates(a, b, c);
    XorAssociates(a, c, b);
    XorSwaps(b, c);
  }

  lemma XorCancels(a: Addr, b: Addr)
    ensures Xor(a, Xor(a, b)) == b && Xor(a, Xor(b, a)) == b && Xor(Xor(a, b), a) == b && Xor(Xor(b, a), a) == b
  {
    hide Xor;
    XorAssociates(a, a, b);
    XorNull(a);
    XorNull(b);
    XorSwaps(a, b);
    XorSwaps(a, Xor(a, b));
  }

  lemma Telescopes(a: Addr, b: Addr, c: Addr)
    ensures Xor(Xor(a, b), Xor(b, c)) == Xor(a, c)
  {
    hide Xor;
    XorAssociates(a, b, Xor(b, c));
    XorCancels(b, c);
  }

  /** Replacing the next, or the previous, neighbour in a link word. */
  lemma XorNext(prev: Addr, next: Addr, other: Addr)
    ensures Xor3(Xor(prev, next), next, other) == Xor(prev, other) && Xor3(Xor(prev, next), other, next) == Xor(prev, other)
  {
    hide Xor;
    XorCancels(next, prev);
    Xor3Swaps(Xor(prev, next), next, other);
  }

  lemma XorPrev(prev: Addr, next: Addr, other: Addr)
    ensures Xor3(Xor(prev, next), prev, other) == Xor(other, next) && Xor3(Xor(prev, next), other, prev) == Xor(other, next)
  {
    hide Xor;
    XorSwaps(prev, next);
    XorSwaps(other, next);
    XorNext(next, prev, other);
  }

  /** The link word at position `i` holds the two neighbours. */
  ghost predicate LinkAt(m: map<Addr, Addr>, xs: seq<Addr>, i: int)
    requires 0 <= i < |xs|
  {
    xs[i] in m && m[xs[i]] == Xor(At(xs, i - 1), At(xs, i + 1))
  }

  ghost predicate Linked(m: map<Addr, Addr>, xs: seq<Addr>) {
    Linkable(xs) && forall i {:trigger LinkAt(m, xs, i)} | 0 <= i < |xs| :: LinkAt(m, xs, i)
  }

  /** `h` is linked in between `a` and `b`, either of which may be null. */
  ghost predicate Between(m: map<Addr, Addr>, m': map<Addr, Addr>, a: Addr, h: Addr, b: Addr) {
    && (forall x | x in m && x != h && x != a && x != b :: x in m' && m'[x] == m[x])
    && h in m' && m'[h] == Xor(a, b)
    && (a != NULL ==> a in m && a in m' && m'[a] == Xor3(m[a], h, b))
    && (b != NULL ==> b in m && b in m' && m'[b] == Xor3(m[b], a, h))
  }

  lemma BetweenSwaps(m: map<Addr, Addr>, m': map<Addr, Addr>, a: Addr, h: Addr, b: Addr)
    requires Between(m, m', a, h, b)
    ensures Between(m, m', b, h, a)
  {
    hide Xor, Xor3;
    XorSwaps(a, b);
    if a != NULL {
      Xor3Swaps(m[a], h, b);
    }
    if b != NULL {
      Xor3Swaps(m[b], a, h);
    }
  }

  /** The three writes, each unless its address is null. */
  lemma Woven(m: map<Addr, Addr>, m': map<Addr, Addr>, a: Addr, h: Addr, b: Addr)
    requires (a != NULL ==> a in m) && (b != NULL ==> b in m) && a != h && b != h && (a == b ==> b == NULL)
    requires var m1 := if b != NULL then m[b := Xor3(m[b], a, h)] else m;
      m' == (if a != NULL then m1[a := Xor3(m1[a], h, b)] else m1)[h := Xor(a, b)]
    ensures Between(m, m', a, h, b)
  {
    hide Xor, Xor3;
  }

  /** The links that change when `h` is put in front of position `i`. */
  ghost predicate Spliced(m: map<Addr, Addr>, m': map<Addr, Addr>, xs: seq<Addr>, i: int, h: Addr) {
    Between(m, m', At(xs, i - 1), h, At(xs, i))
  }

  lemma SplicedLinked(m: map<Addr, Addr>, m': map<Addr, Addr>, xs: seq<Addr>, i: nat, h: Addr)
    requires Linked(m, xs) && i <= |xs| && h !in xs && h != NULL && Spliced(m, m', xs, i, h)
    ensures Linked(m', Inserted(xs, i, h))
  {
    hide Xor, Xor3;
    var ys := Inserted(xs, i, h);
    InsertedLinkable(xs, i, h);
    forall k | 0 <= k < |ys|
      ensures LinkAt(m', ys, k)
    {
      InsertedAt(xs, i, h, k - 1);
      InsertedAt(xs, i, h, k);
      InsertedAt(xs, i, h, k + 1);
      if k < i {
        SplicedBefore(m, m', xs, i, h, k);
      } else if k > i {
        SplicedAfter(m, m', xs, i, h, k - 1);
      }
    }
  }

  lemma SplicedBefore(m: map<Addr, Addr>, m': map<Addr, Addr>, xs: seq<Addr>, i: nat, h: Addr, k: nat)
    requires Linked(m, xs) && k < i <= |xs| && h !in xs && Spliced(m, m', xs, i, h)
    ensures xs[k] in m' && m'[xs[k]] == Xor(At(xs, k - 1), if k == i - 1 then h else At(xs, k + 1))
  {
    hide Xor, Xor3;
    assert LinkAt(m, xs, k);
    if k == i - 1 {
      XorNext(At(xs, k - 1), At(xs, i), h);
    } else {
      Apart(xs, k, i - 1);
      Apart(xs, k, i);
    }
  }

  lemma SplicedAfter(m: map<Addr, Addr>, m': map<Addr, Addr>, xs: seq<Addr>, i: nat, h: Addr, k: nat)
    requires Linked(m, xs) && i <= k < |xs| && h !in xs && Spliced(m, m', xs, i, h)
    ensures xs[k] in m' && m'[xs[k]] == Xor(if k == i then h else At(xs, k - 1), At(xs, k + 1))
  {
    hide Xor, Xor3;
    assert LinkAt(m, xs, k);
    if k == i {
      XorPrev(At(xs, i - 1), At(xs, k + 1), h);
    } else {
      Apart(xs, k, i - 1);
      Apart(xs, k, i);
    }
  }

  lemma SplicedElsewhere(m: map<Addr, Addr>, m': map<Addr, Addr>, xs: seq<Addr>, i: nat, h: Addr)
    requires Spliced(m, m', xs, i, h) && i <= |xs| && m.Keys == m'.Keys
    ensures Elsewhere(m, m', Inserted(xs, i, h))
  {
    forall a | a in m && a != NULL && a !in Inserted(xs, i, h)
      ensures m'[a] == m[a]
    {
      var ys := Inserted(xs, i, h);
      assert ys[i] == h && (i > 0 ==> ys[i - 1] == xs[i - 1]) && (i < |xs| ==> ys[i + 1] == xs[i]);
    }
  }

  /** The links that change when position `i` is taken out. */
  ghost predicate Cut(m: map<Addr, Addr>, m': map<Addr, Addr>, xs: seq<Addr>, i: int) {
    var before, h, after := At(xs, i - 1), At(xs, i), At(xs, i + 1);
    && (forall a | a in m && a != before && a != after :: a in m' && m'[a] == m[a])
    && (before != NULL ==> before in m && before in m' && m'[before] == Xor3(m[before], h, after))
    && (after != NULL ==> after in m && after in m' && m'[after] == Xor3(m[after], h, before))
  }

  lemma CutLinked(m: map<Addr, Addr>, m': map<Addr, Addr>, xs: seq<Addr>, i: nat)
    requires Linked(m, xs) && i < |xs| && Cut(m, m', xs, i)
    ensures Linked(m', Removed(xs, i))
  {
    hide Xor, Xor3;
    var ys := Removed(xs, i);
    RemovedLinkable(xs, i);
    forall k | 0 <= k < |ys|
      ensures LinkAt(m', ys, k)
    {
      RemovedAt(xs, i, k - 1);
      RemovedAt(xs, i, k);
      RemovedAt(xs, i, k + 1);
      if k < i {
        CutBefore(m, m', xs, i, k);
      } else {
        CutAfter(m, m', xs, i, k + 1);
      }
    }
  }

  lemma CutElsewhere(m: map<Addr, Addr>, m': map<Addr, Addr>, xs: seq<Addr>, i: nat)
    requires Cut(m, m', xs, i) && i < |xs| && m.Keys == m'.Keys
    ensures Elsewhere(m, m', xs)
  {
  }

  lemma CutBefore(m: map<Addr, Addr>, m': map<Addr, Addr>, xs: seq<Addr>, i: nat, k: nat)
    requires Linked(m, xs) && k < i < |xs| && Cut(m, m', xs, i)
    ensures xs[k] in m' && m'[xs[k]] == Xor(At(xs, k - 1), if k == i - 1 then At(xs, i + 1) else At(xs, k + 1))
  {
    hide Xor, Xor3;
    assert LinkAt(m, xs, k);
    if k == i - 1 {
      assert m[xs[k]] == Xor(At(xs, k - 1), At(xs, i));
      XorNext(At(xs, k - 1), At(xs, i), At(xs, i + 1));
      Apart(xs, k, i + 1);
    } else {
      Apart(xs, k, i - 1);
      Apart(xs, k, i + 1);
    }
  }

  lemma CutAfter(m: map<Addr, Addr>, m': map<Addr, Addr>, xs: seq<Addr>, i: nat, k: nat)
    requires Linked(m, xs) && i < k < |xs| && Cut(m, m', xs, i)
    ensures xs[k] in m' && m'[xs[k]] == Xor(if k == i + 1 then At(xs, i - 1) else At(xs, k - 1), At(xs, k + 1))
  {
    hide Xor, Xor3;
    assert LinkAt(m, xs, k);
    if k == i + 1 {
      XorPrev(At(xs, i), At(xs, k + 1), At(xs, i - 1));
    } else {
      Apart(xs, k, i + 1);
    }
    Apart(xs, k, i - 1);
  }

  // ---- rerase in the middle ----

  /** The predecessor that dfk_list_rerase hands to dfk_list_erase. */
  function GuessedPrev(xs: seq<Addr>, i: int): Addr {
    Xor(At(xs, i + 1), At(xs, i))
  }

  /** Where dfk_list_rerase works: at both ends, and in the middle of three addresses whose XOR is zero. */
  predicate Rerasable(xs: seq<Addr>, i: int) {
    i == 0 || i == |xs| - 1 || Xor3(At(xs, i - 1), At(xs, i), At(xs, i + 1)) == NULL
  }

  /** The two writes of dfk_list_erase in the middle, with the guessed predecessor. What the words
      at the two computed addresses hold is `w` and `v`: they need not be hooks at all. */
  function ReraseMiddle(m: map<Addr, Addr>, xs: seq<Addr>, i: int, w: Addr, v: Addr): map<Addr, Addr>
    requires 0 < i < |xs| - 1 && xs[i] in m
  {
    var next := Xor(m[xs[i]], GuessedPrev(xs, i));
    m[next := Xor3(if next in m then m[next] else w, xs[i], GuessedPrev(xs, i))]
     [GuessedPrev(xs, i) := Xor3(if GuessedPrev(xs, i) in m then m[GuessedPrev(xs, i)] else v, xs[i], next)]
  }

  lemma GuessIff(a: Addr, b: Addr, c: Addr)
    ensures Xor(c, b) == a <==> Xor3(a, b, c) == NULL
  {
    var y := Xor(c, b);
    Xor3Groups(a, b, c);
    XorNull(a);
    XorCancels(a, y);
    hide Xor, Xor3;
    assert Xor(a, y) == NULL ==> y == Xor(a, NULL);
  }

  lemma WrongNext(a: Addr, b: Addr, c: Addr)
    requires b != NULL
    ensures Xor(Xor(a, c), Xor(c, b)) == Xor(a, b) && Xor(a, b) != a
  {
    Telescopes(a, c, b);
    XorNull(a);
    XorCancels(a, b);
    hide Xor, Xor3;
    assert Xor(a, b) == a ==> b == Xor(a, a);
  }

  /** dfk_list_rerase of a middle element leaves the list without it if and only if the XOR of the
      three addresses around it is zero: elsewhere it writes to the wrong words. */
  lemma ReraseMiddleIff(m: map<Addr, Addr>, xs: seq<Addr>, i: int, w: Addr, v: Addr)
    requires Linked(m, xs) && 0 < i < |xs| - 1 && LinkAt(m, xs, i)
    ensures Linked(ReraseMiddle(m, xs, i, w, v), Removed(xs, i)) <==> Rerasable(xs, i)
  {
    hide Xor, Xor3;
    var m' := ReraseMiddle(m, xs, i, w, v);
    var a, b, c := xs[i - 1], xs[i], xs[i + 1];
    assert LinkAt(m, xs, i) && LinkAt(m, xs, i - 1) && LinkAt(m, xs, i + 1);
    GuessIff(a, b, c);
    WrongNext(a, b, c);
    XorCancels(a, c);
    Apart(xs, i - 1, i);
    Apart(xs, i - 1, i + 1);
    Apart(xs, i, i + 1);
    if Rerasable(xs, i) {
      assert Cut(m, m', xs, i);
      CutLinked(m, m', xs, i);
    } else {
      assert m'[a] == m[a] == Xor(At(xs, i - 2), b);
      if Linked(m', Removed(xs, i)) {
        assert LinkAt(m', Removed(xs, i), i - 1);
        RemovedAt(xs, i, i - 2);
        RemovedAt(xs, i, i - 1);
        RemovedAt(xs, i, i);
        assert Xor(At(xs, i - 2), b) == Xor(At(xs, i - 2), c);
        XorCancels(At(xs, i - 2), b);
        XorCancels(At(xs, i - 2), c);
      }
    }
  }

  /** A list of three hooks for which it fails, whatever the wrong words hold. */
  lemma ReraseMiddleFails(w: Addr, v: Addr)
    ensures var xs := [Addr(8), Addr(16), Addr(32)];
      var m := map[Addr(8) := Addr(16), Addr(16) := Addr(40), Addr(32) := Addr(16)];
      Linked(m, xs) && !Linked(ReraseMiddle(m, xs, 1, w, v), Removed(xs, 1))
  {
    var xs := [Addr(8), Addr(16), Addr(32)];
    var m := map[Addr(8) := Addr(16), Addr(16) := Addr(40), Addr(32) := Addr(16)];
    assert (8 as bv64) ^ 32 == 40 && (8 as bv64) ^ 16 ^ 32 == 56;
    assert Xor(Addr(8), Addr(32)) == Addr(40);
    XorNull(Addr(16));
    assert LinkAt(m, xs, 0) && LinkAt(m, xs, 1) && LinkAt(m, xs, 2);
    ReraseMiddleIff(m, xs, 1, w, v);
  }

  // ---- The list itself ----

  /** The words of the hooks: `_p` at each hook's address. */
  class Memory {
    var p: map<Addr, Addr>

    constructor (hooks: set<Addr>)
      ensures p.Keys == hooks
    {
      p := map a | a in hooks :: NULL;
    }
  }

  datatype It = It(prev: Addr, value: Addr)

  /** `it` is at position `i`; at the end its predecessor is not looked at. */
  ghost predicate Stands(it: It, xs: seq<Addr>, i: int) {
    0 <= i <= |xs| && it.value == At(xs, i) && (i < |xs| ==> it.prev == At(xs, i - 1))
  }

  /** The same for a reverse iterator, which ends before the first element. */
  ghost predicate RStands(rit: It, xs: seq<Addr>, i: int) {
    -1 <= i < |xs| && rit.value == At(xs, i) && (i >= 0 ==> rit.prev == At(xs, i + 1))
  }

  /** An end pointer is null only if the list is empty, and points to a hook otherwise. */
  lemma Ends(m: map<Addr, Addr>, xs: seq<Addr>)
    requires Linked(m, xs)
    ensures At(xs, 0) == NULL <==> xs == []
    ensures At(xs, |xs| - 1) == NULL <==> xs == []
    ensures xs != [] ==> At(xs, 0) in m && At(xs, |xs| - 1) in m && At(xs, 0) in xs && At(xs, |xs| - 1) in xs
  {
    hide Xor, Xor3;
    if xs != [] {
      assert LinkAt(m, xs, 0) && LinkAt(m, xs, |xs| - 1);
    }
  }

  /** The same for position `i` and its neighbours. */
  lemma Around(m: map<Addr, Addr>, xs: seq<Addr>, i: int)
    requires Linked(m, xs) && 0 <= i <= |xs|
    ensures At(xs, i) == NULL <==> i == |xs|
    ensures At(xs, i - 1) == NULL <==> i == 0
    ensures i < |xs| ==> xs[i] in m && xs[i] in xs && At(xs, i - 1) != xs[i]
    ensures i > 0 ==> xs[i - 1] in m && xs[i - 1] in xs
  {
    hide Xor, Xor3;
    if i < |xs| {
      assert LinkAt(m, xs, i);
      Apart(xs, i, i - 1);
    }
    if i > 0 {
      assert LinkAt(m, xs, i - 1);
    }
  }

  class List {
    const mem: Memory
    var head: Addr
    var tail: Addr
    var size: nat
    ghost var xs: seq<Addr>

    ghost predicate Valid()
      reads this, mem
    {
      Linked(mem.p, xs) && head == At(xs, 0) && tail == At(xs, |xs| - 1) && size == |xs|
    }

    constructor (m: Memory)
      ensures Valid() && xs == [] && mem == m
    {
      mem, head, tail, size, xs := m, NULL, NULL, 0, [];
    }

    method Append(hook: Addr)
      requires Valid() && hook in mem.p && hook != NULL && hook !in xs
      modifies this, mem
      ensures Valid() && xs == old(xs) + [hook] && Elsewhere(old(mem.p), mem.p, xs)
    {
      hide Xor, Xor3, Linked, LinkAt, Linkable, Between;
      ghost var m := mem.p;
      Ends(m, xs);
      Hang(hook, tail);
      if head == NULL {
        head := hook;
      }
      tail := hook;
      size := size + 1;
      assert Inserted(xs, |xs|, hook) == xs + [hook];
      Grown(m, |xs|, hook);
    }

    method Prepend(hook: Addr)
      requires Valid() && hook in mem.p && hook != NULL && hook !in xs
      modifies this, mem
      ensures Valid() && xs == [hook] + old(xs) && Elsewhere(old(mem.p), mem.p, xs)
    {
      hide Xor, Xor3, Linked, LinkAt, Linkable, Between;
      ghost var m := mem.p;
      Ends(m, xs);
      Hang(hook, head);
      BetweenSwaps(m, mem.p, head, hook, NULL);
      head := hook;
      if tail == NULL {
        tail := hook;
      }
      size := size + 1;
      assert Inserted(xs, 0, hook) == [hook] + xs;
      Grown(m, 0, hook);
    }

    /** The link words of a new hook and of the one at the end it is added to. */
    method Hang(hook: Addr, end: Addr)
      requires (end != NULL ==> end in mem.p) && hook in mem.p && end != hook
      modifies mem
      ensures Between(old(mem.p), mem.p, end, hook, NULL) && mem.p.Keys == old(mem.p.Keys)
    {
      hide Xor, Xor3;
      XorNull(end);
      mem.p := mem.p[hook := end];
      if end != NULL {
        Xor3Null(mem.p[end], hook);
        mem.p := mem.p[end := Xor(mem.p[end], hook)];
      }
    }

    /** The link words of the hooks around a new one: the code is the same in both directions. */
    method Weave(hook: Addr, before: Addr, at: Addr)
      requires before != NULL ==> before in mem.p
      requires at != NULL ==> at in mem.p
      requires hook in mem.p && before != hook && at != hook && (before == at ==> at == NULL)
      modifies mem
      ensures Between(old(mem.p), mem.p, before, hook, at) && mem.p.Keys == old(mem.p.Keys)
    {
      hide Xor, Xor3, Between;
      ghost var m := mem.p;
      if at != NULL {
        mem.p := mem.p[at := Xor3(mem.p[at], before, hook)];
      }
      if before != NULL {
        mem.p := mem.p[before := Xor3(mem.p[before], hook, at)];
      }
      mem.p := mem.p[hook := Xor(before, at)];
      Woven(m, mem.p, before, hook, at);
    }

    /** A new element in front of the iterator's. */
    method Insert(hook: Addr, it: It, ghost i: int)
      requires Valid() && hook in mem.p && hook != NULL && hook !in xs && Stands(it, xs, i)
      modifies this, mem
      ensures Valid() && xs == Inserted(old(xs), i, hook) && Elsewhere(old(mem.p), mem.p, xs)
    {
      hide Xor, Xor3, Linked, LinkAt, Linkable;
      ghost var m := mem.p;
      Around(m, xs, i);
      Ends(m, xs);
      var before := NULL;
      if it.value != NULL {
        before := it.prev;
      } else if tail != NULL {
        before := tail;
      }
      Weave(hook, before, it.value);
      if before == NULL {
        head := hook;
      }
      if it.value == NULL {
        tail := hook;
      }
      size := size + 1;
      Grown(m, i, hook);
    }

    /** A new element in front of the reverse iterator's, that is, behind its element. */
    method Rinsert(hook: Addr, rit: It, ghost i: int)
      requires Valid() && hook in mem.p && hook != NULL && hook !in xs && RStands(rit, xs, i)
      modifies this, mem
      ensures Valid() && xs == Inserted(old(xs), i + 1, hook) && Elsewhere(old(mem.p), mem.p, xs)
    {
      hide Xor, Xor3, Linked, LinkAt, Linkable;
      ghost var m := mem.p;
      Around(m, xs, i + 1);
      Ends(m, xs);
      var before := NULL;
      if rit.value != NULL {
        before := rit.prev;
      } else if tail != NULL {
        before := head;
      }
      Weave(hook, before, rit.value);
      BetweenSwaps(m, mem.p, before, hook, rit.value);
      if rit.value == NULL {
        head := hook;
      }
      if before == NULL {
        tail := hook;
      }
      size := size + 1;
      Grown(m, i + 1, hook);
    }

    /** The abstract list follows, once all the fields are set. */
    ghost method Grown(m: map<Addr, Addr>, i: nat, hook: Addr)
      requires Linked(m, xs) && i <= |xs| && hook != NULL && hook !in xs && Spliced(m, mem.p, xs, i, hook)
      requires m.Keys == mem.p.Keys && size == |xs| + 1
      requires head == (if i == 0 then hook else At(xs, 0)) && tail == (if i == |xs| then hook else At(xs, |xs| - 1))
      modifies `xs
      ensures Valid() && xs == Inserted(old(xs), i, hook) && Elsewhere(m, mem.p, xs)
    {
      hide Xor, Xor3;
      SplicedLinked(m, mem.p, xs, i, hook);
      InsertedAt(xs, i, hook, 0);
      InsertedAt(xs, i, hook, |xs|);
      SplicedElsewhere(m, mem.p, xs, i, hook);
      xs := Inserted(xs, i, hook);
    }

    /** Taking out the iterator's element. Only in the middle is its predecessor looked at. */
    method Erase(it: It, ghost i: int)
      requires Valid() && 0 <= i < |xs| && it.value == xs[i] && (0 < i < |xs| - 1 ==> it.prev == xs[i - 1])
      modifies this, mem
      ensures Valid() && xs == Removed(old(xs), i) && Elsewhere(old(mem.p), mem.p, old(xs))
    {
      hide Xor, Xor3, Linked, LinkAt, Linkable;
      ghost var m := mem.p;
      var hook := it.value;
      Distinguish(m, xs, i);
      if head == tail {
        head, tail := NULL, NULL;
      } else if hook == head {
        head := mem.p[hook];
        mem.p := mem.p[head := Xor(mem.p[head], hook)];
      } else if hook == tail {
        tail := mem.p[hook];
        mem.p := mem.p[tail := Xor(mem.p[tail], hook)];
      } else {
        Bridge(hook, it.prev, i);
      }
      size := size - 1;
      Shrunk(m, i);
    }

    /** The neighbours of a middle element are linked to each other. */
    method Bridge(hook: Addr, prev: Addr, ghost i: int)
      requires Linked(mem.p, xs) && 0 < i < |xs| - 1 && hook == xs[i] && prev == xs[i - 1]
      modifies mem
      ensures Cut(old(mem.p), mem.p, xs, i) && mem.p.Keys == old(mem.p.Keys)
    {
      hide Xor, Xor3;
      Distinguish(mem.p, xs, i);
      Apart(xs, i - 1, i + 1);
      var next := Xor(mem.p[hook], prev);
      mem.p := mem.p[next := Xor3(mem.p[next], hook, prev)];
      mem.p := mem.p[prev := Xor3(mem.p[prev], hook, next)];
    }

    ghost method Shrunk(m: map<Addr, Addr>, i: nat)
      requires Linked(m, xs) && i < |xs| && Cut(m, mem.p, xs, i) && m.Keys == mem.p.Keys && size == |xs| - 1
      requires head == At(xs, if i == 0 then 1 else 0)
      requires tail == if |xs| == 1 then NULL else At(xs, if i == |xs| - 1 then |xs| - 2 else |xs| - 1)
      modifies `xs
      ensures Valid() && xs == Removed(old(xs), i) && Elsewhere(m, mem.p, old(xs))
    {
      hide Xor, Xor3;
      CutLinked(m, mem.p, xs, i);
      RemovedAt(xs, i, 0);
      RemovedAt(xs, i, |xs| - 2);
      CutElsewhere(m, mem.p, xs, i);
      xs := Removed(xs, i);
    }

    /** The reverse iterator's element, through dfk_list_erase with a guessed predecessor. */
    method Rerase(rit: It, ghost i: int)
      requires Valid() && 0 <= i < |xs| && RStands(rit, xs, i) && Rerasable(xs, i)
      modifies this, mem
      ensures Valid() && xs == Removed(old(xs), i) && Elsewhere(old(mem.p), mem.p, old(xs))
    {
      hide Xor, Xor3;
      var it := It(Xor(rit.prev, rit.value), rit.value);
      GuessIff(At(xs, i - 1), At(xs, i), At(xs, i + 1));
      Erase(it, i);
    }

    method PopFront()
      requires Valid() && xs != []
      modifies this, mem
      ensures Valid() && xs == old(xs)[1..] && Elsewhere(old(mem.p), mem.p, old(xs))
    {
      var begin := Begin();
      Erase(begin, 0);
    }

    method PopBack()
      requires Valid() && xs != []
      modifies this, mem
      ensures Valid() && xs == old(xs)[..|old(xs)| - 1] && Elsewhere(old(mem.p), mem.p, old(xs))
    {
      var rbegin := Rbegin();
      Rerase(rbegin, |xs| - 1);
    }

    method Clear()
      requires Valid()
      modifies this
      ensures Valid() && xs == []
    {
      head, tail, size, xs := NULL, NULL, 0, [];
    }

    /** All the hooks of `src` go to this list, whose own hooks are let go. */
    method MoveFrom(src: List)
      requires Valid() && src.Valid() && src != this && src.mem == mem
      modifies this, src
      ensures Valid() && src.Valid() && xs == old(src.xs) && src.xs == []
    {
      head, tail, size, xs := src.head, src.tail, src.size, src.xs;
      src.head, src.tail, src.size, src.xs := NULL, NULL, 0, [];
    }

    method Swap(other: List)
      requires Valid() && other.Valid() && other.mem == mem
      modifies this, other
      ensures Valid() && other.Valid() && xs == old(other.xs) && other.xs == old(xs)
    {
      var h, t, n := head, tail, size;
      ghost var ys := xs;
      head, tail, size, xs := other.head, other.tail, other.size, other.xs;
      other.head, other.tail, other.size, other.xs := h, t, n, ys;
    }

    // ---- Iteration ----

    method Begin() returns (it: It)
      requires Valid()
      ensures Stands(it, xs, 0)
    {
      it := It(NULL, head);
    }

    method Rbegin() returns (rit: It)
      requires Valid()
      ensures RStands(rit, xs, |xs| - 1)
    {
      rit := It(NULL, tail);
    }

    method Next(it: It, ghost i: int) returns (it': It)
      requires Valid() && Stands(it, xs, i) && i < |xs|
      ensures Stands(it', xs, i + 1)
    {
      hide Xor, Xor3;
      Distinguish(mem.p, xs, i);
      XorSwaps(it.prev, mem.p[it.value]);
      it' := It(it.value, Xor(it.prev, mem.p[it.value]));
    }

    method Rnext(rit: It, ghost i: int) returns (rit': It)
      requires Valid() && RStands(rit, xs, i) && 0 <= i
      ensures RStands(rit', xs, i - 1)
    {
      hide Xor, Xor3;
      assert LinkAt(mem.p, xs, i);
      XorCancels(At(xs, i + 1), At(xs, i - 1));
      rit' := It(rit.value, Xor(rit.prev, mem.p[rit.value]));
    }

    /** Following the links from the head passes every element, in order, and ends. */
    method Forward() returns (s: seq<Addr>)
      requires Valid()
      ensures s == xs
    {
      hide Xor, Xor3, Linked, LinkAt, Linkable;
      var it := Begin();
      Around(mem.p, xs, 0);
      s := [];
      while it.value != NULL
        invariant |s| <= |xs| && s == xs[..|s|] && Stands(it, xs, |s|)
        invariant it.value == NULL <==> |s| == |xs|
        decreases |xs| - |s|
      {
        var next := Next(it, |s|);
        s := s + [it.value];
        it := next;
        Around(mem.p, xs, |s|);
      }
    }

    /** From the tail, the same elements come in the opposite order. */
    method Backward() returns (s: seq<Addr>)
      requires Valid()
      ensures s == Reversed(xs)
    {
      hide Xor, Xor3, Linked, LinkAt, Linkable;
      var rit := Rbegin();
      Around(mem.p, xs, |xs|);
      s := [];
      while rit.value != NULL
        invariant |s| <= |xs| && (forall k | 0 <= k < |s| :: s[k] == xs[|xs| - 1 - k]) && RStands(rit, xs, |xs| - 1 - |s|)
        invariant rit.value == NULL <==> |s| == |xs|
        decreases |xs| - |s|
      {
        var next := Rnext(rit, |xs| - 1 - |s|);
        s := s + [rit.value];
        rit := next;
        Around(mem.p, xs, |xs| - |s|);
      }
      IsReversed(xs, s);
    }

    /** dfk_list_size where the size is not stored. */
    method Count() returns (n: nat)
      requires Valid()
      ensures n == |xs| == size
    {
      hide Xor, Xor3, Linked, LinkAt, Linkable;
      var it := Begin();
      Around(mem.p, xs, 0);
      n := 0;
      while it.value != NULL
        invariant n <= |xs| && Stands(it, xs, n) && (it.value == NULL <==> n == |xs|)
        decreases |xs| - n
      {
        it := Next(it, n);
        n := n + 1;
        Around(mem.p, xs, n);
      }
    }

    /** dfk_list_it_from_value: a valid iterator needs the predecessor, so it walks from the head. */
    method Find(value: Addr) returns (it: It)
      requires Valid() && value in xs
      ensures it.value == value && exists i :: 0 <= i < |xs| && Stands(it, xs, i)
    {
      hide Xor, Xor3;
      it := Begin();
      ghost var i := 0;
      Around(mem.p, xs, 0);
      while it.value != value
        invariant 0 <= i < |xs| && Stands(it, xs, i) && value in xs[i..]
        decreases |xs| - i
      {
        it := Next(it, i);
        i := i + 1;
      }
    }
  }

  /** A list none of whose hooks an operation touches keeps its links. */
  lemma OtherListUntouched(m: map<Addr, Addr>, m': map<Addr, Addr>, touched: seq<Addr>, ys: seq<Addr>)
    requires Linked(m, ys) && Elsewhere(m, m', touched) && forall y | y in ys :: y !in touched
    ensures Linked(m', ys)
  {
    hide Xor, Xor3;
    forall i | 0 <= i < |ys|
      ensures LinkAt(m', ys, i)
    {
      assert LinkAt(m, ys, i) && ys[i] in ys;
    }
  }

  /** What tells the cases of dfk_list_erase apart, and what the link words there hold. */
  lemma Distinguish(m: map<Addr, Addr>, xs: seq<Addr>, i: int)
    requires Linked(m, xs) && 0 <= i < |xs|
    ensures At(xs, 0) == At(xs, |xs| - 1) <==> |xs| == 1
    ensures xs[i] == At(xs, 0) <==> i == 0
    ensures xs[i] == At(xs, |xs| - 1) <==> i == |xs| - 1
    ensures xs[i] in m
    ensures i > 0 ==> xs[i - 1] in m && xs[i - 1] != NULL && Xor3(m[xs[i - 1]], xs[i], NULL) == Xor(m[xs[i - 1]], xs[i])
    ensures i < |xs| - 1 ==> xs[i + 1] in m && xs[i + 1] != NULL && Xor3(m[xs[i + 1]], xs[i], NULL) == Xor(m[xs[i + 1]], xs[i])
    ensures i == 0 ==> m[xs[i]] == At(xs, 1)
    ensures i == |xs| - 1 ==> m[xs[i]] == At(xs, i - 1)
    ensures Xor(m[xs[i]], At(xs, i - 1)) == At(xs, i + 1)
  {
    hide Xor, Xor3;
    assert LinkAt(m, xs, i);
    if |xs| > 1 {
      Apart(xs, 0, |xs| - 1);
    }
    if i > 0 {
      Apart(xs, i, 0);
      assert LinkAt(m, xs, i - 1) && xs[i - 1] in xs;
      Xor3Null(m[xs[i - 1]], xs[i]);
    }
    if i < |xs| - 1 {
      Apart(xs, i, |xs| - 1);
      assert LinkAt(m, xs, i + 1) && xs[i + 1] in xs;
      Xor3Null(m[xs[i + 1]], xs[i]);
    }
    XorNull(At(xs, i + 1));
    XorNull(At(xs, i - 1));
    XorCancels(At(xs, i - 1), At(xs, i + 1));
  }
}
