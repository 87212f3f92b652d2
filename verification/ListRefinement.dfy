/** Both list layouts, driven by the same operations, hold the same sequences. */
module ListRefinement {
  import opened ListSpec
  import XorLists
  import LinkedLists

  /** An operation on the first of two lists; positions stand for iterators obtained just before it.
      `Move` and `Swap` take the second list into account. */
  datatype Op =
    | Append(h: Addr)
    | Prepend(h: Addr)
    | Insert(h: Addr, i: int)
    | Rinsert(h: Addr, i: int)   // `i` is -1 at the reverse end
    | Erase(i: int)
    | Rerase(i: int)
    | PopFront
    | PopBack
    | Clear
    | Move                       // from the second list to the first
    | Swap

  datatype Pair = Pair(xs: seq<Addr>, ys: seq<Addr>)

  predicate Adds(op: Op) {
    op.Append? || op.Prepend? || op.Insert? || op.Rinsert?
  }

  /** What the operation asks of its caller: a hook that is in no list, an iterator of this list. */
  predicate Allowed(hooks: set<Addr>, s: Pair, op: Op) {
    && (Adds(op) ==> op.h in hooks && op.h !in s.xs && op.h !in s.ys)
    && match op
       case Insert(h, i) => 0 <= i <= |s.xs|
       case Rinsert(h, i) => -1 <= i < |s.xs|
       case Erase(i) => 0 <= i < |s.xs|
       case Rerase(i) => 0 <= i < |s.xs| && XorLists.Rerasable(s.xs, i)
       case PopFront => s.xs != []
       case PopBack => s.xs != []
       case _ => true
  }

  /** The positions exist. */
  predicate Fits(xs: seq<Addr>, op: Op) {
    && (op.Insert? ==> 0 <= op.i <= |xs|) && (op.Rinsert? ==> -1 <= op.i < |xs|)
    && (op.Erase? || op.Rerase? ==> 0 <= op.i < |xs|) && (op.PopFront? || op.PopBack? ==> xs != [])
  }

  function ApplyOne(xs: seq<Addr>, op: Op): seq<Addr>
    requires Fits(xs, op)
  {
    match op
    case Append(h) => xs + [h]
    case Prepend(h) => [h] + xs
    case Insert(h, i) => Inserted(xs, i, h)
    case Rinsert(h, i) => Inserted(xs, i + 1, h)
    case Erase(i) => Removed(xs, i)
    case Rerase(i) => Removed(xs, i)
    case PopFront => xs[1..]
    case PopBack => xs[..|xs| - 1]
    case _ => []
  }

  function Apply(s: Pair, op: Op): Pair
    requires Fits(s.xs, op)
  {
    match op
    case Move => Pair(s.ys, [])
    case Swap => Pair(s.ys, s.xs)
    case _ => Pair(ApplyOne(s.xs, op), s.ys)
  }

  predicate AllAllowed(hooks: set<Addr>, s: Pair, ops: seq<Op>)
    decreases |ops|
  {
    ops == [] || (Allowed(hooks, s, ops[0]) && AllAllowed(hooks, Apply(s, ops[0]), ops[1..]))
  }

  function ApplyAll(hooks: set<Addr>, s: Pair, ops: seq<Op>): Pair
    requires AllAllowed(hooks, s, ops)
    decreases |ops|
  {
    if ops == [] then s else ApplyAll(hooks, Apply(s, ops[0]), ops[1..])
  }

  ghost predicate Disjoint(xs: seq<Addr>, ys: seq<Addr>) {
    forall x | x in xs :: x !in ys
  }

  lemma StaysDisjoint(hooks: set<Addr>, s: Pair, op: Op)
    requires Disjoint(s.xs, s.ys) && Allowed(hooks, s, op)
    ensures Disjoint(Apply(s, op).xs, Apply(s, op).ys)
  {
  }

  // ---- The layout with one word ----

  /** Two lists with hooks in the same memory, none in both. */
  ghost predicate XorPair(l: XorLists.List, k: XorLists.List, hooks: set<Addr>)
    reads l, k, l.mem, k.mem
  {
    && l != k && l.mem == k.mem && l.mem.p.Keys == hooks && NULL !in hooks
    && l.Valid() && k.Valid() && Disjoint(l.xs, k.xs)
  }

  method SeekXor(l: XorLists.List, i: int) returns (it: XorLists.It)
    requires l.Valid() && 0 <= i <= |l.xs|
    ensures XorLists.Stands(it, l.xs, i)
  {
    it := l.Begin();
    for k := 0 to i
      invariant XorLists.Stands(it, l.xs, k)
    {
      it := l.Next(it, k);
    }
  }

  method RseekXor(l: XorLists.List, i: int) returns (rit: XorLists.It)
    requires l.Valid() && -1 <= i < |l.xs|
    ensures XorLists.RStands(rit, l.xs, i)
  {
    rit := l.Rbegin();
    ghost var at := |l.xs| - 1;
    var left := l.size - 1 - i;
    while left > 0
      invariant XorLists.RStands(rit, l.xs, at) && left == at - i >= 0
    {
      rit := l.Rnext(rit, at);
      at, left := at - 1, left - 1;
    }
  }

  /** A new hook, where the operation says; what the other list links is left alone. */
  method AddXor(l: XorLists.List, op: Op)
    requires l.Valid() && Adds(op) && Fits(l.xs, op) && op.h in l.mem.p && op.h != NULL && op.h !in l.xs
    modifies l, l.mem
    ensures l.Valid() && l.xs == ApplyOne(old(l.xs), op) && Elsewhere(old(l.mem.p), l.mem.p, l.xs)
  {
    match op {
      case Append(h) => l.Append(h);
      case Prepend(h) => l.Prepend(h);
      case Insert(h, i) => var it := SeekXor(l, i); l.Insert(h, it, i);
      case Rinsert(h, i) => var rit := RseekXor(l, i); l.Rinsert(h, rit, i);
    }
  }

  method RemoveXor(l: XorLists.List, op: Op)
    requires l.Valid() && !Adds(op) && !op.Move? && !op.Swap? && Fits(l.xs, op)
    requires op.Rerase? ==> XorLists.Rerasable(l.xs, op.i)
    modifies l, l.mem
    ensures l.Valid() && l.xs == ApplyOne(old(l.xs), op) && Elsewhere(old(l.mem.p), l.mem.p, old(l.xs))
  {
    match op {
      case Erase(i) => var it := SeekXor(l, i); l.Erase(it, i);
      case Rerase(i) => var rit := RseekXor(l, i); l.Rerase(rit, i);
      case PopFront => l.PopFront();
      case PopBack => l.PopBack();
      case Clear => l.Clear();
    }
  }

  method DoXor(l: XorLists.List, k: XorLists.List, op: Op, ghost hooks: set<Addr>)
    requires XorPair(l, k, hooks) && Allowed(hooks, Pair(l.xs, k.xs), op)
    modifies l, k, l.mem
    ensures XorPair(l, k, hooks) && Pair(l.xs, k.xs) == Apply(Pair(old(l.xs), old(k.xs)), op)
  {
    StaysDisjoint(hooks, Pair(l.xs, k.xs), op);
    ghost var m := l.mem.p;
    if op.Move? {
      l.MoveFrom(k);
    } else if op.Swap? {
      l.Swap(k);
    } else if Adds(op) {
      AddXor(l, op);
      XorLists.OtherListUntouched(m, l.mem.p, l.xs, k.xs);
    } else {
      RemoveXor(l, op);
      XorLists.OtherListUntouched(m, l.mem.p, old(l.xs), k.xs);
    }
  }

  // ---- The layout with two words ----

  ghost predicate LinkedPair(l: LinkedLists.List, k: LinkedLists.List, hooks: set<Addr>)
    reads l, k, l.mem, k.mem
  {
    && l != k && l.mem == k.mem && l.mem.next.Keys == l.mem.prev.Keys == hooks && NULL !in hooks
    && l.Valid() && k.Valid() && Disjoint(l.xs, k.xs)
  }

  method SeekLinked(l: LinkedLists.List, i: int) returns (it: LinkedLists.It)
    requires l.Valid() && 0 <= i <= |l.xs|
    ensures LinkedLists.Stands(it, l.xs, i)
  {
    it := l.Begin();
    for k := 0 to i
      invariant LinkedLists.Stands(it, l.xs, k)
    {
      it := l.Next(it, k);
    }
  }

  method RseekLinked(l: LinkedLists.List, i: int) returns (rit: LinkedLists.It)
    requires l.Valid() && -1 <= i < |l.xs|
    ensures LinkedLists.RStands(rit, l.xs, i)
  {
    rit := l.Rbegin();
    ghost var at := |l.xs| - 1;
    var left := l.size - 1 - i;
    while left > 0
      invariant LinkedLists.RStands(rit, l.xs, at) && left == at - i >= 0
    {
      rit := l.Rnext(rit, at);
      at, left := at - 1, left - 1;
    }
  }

  method AddLinked(l: LinkedLists.List, op: Op)
    requires l.Valid() && Adds(op) && Fits(l.xs, op) && l.Free(op.h)
    modifies l, l.mem
    ensures l.Valid() && l.xs == ApplyOne(old(l.xs), op)
    ensures Elsewhere(old(l.mem.next), l.mem.next, l.xs) && Elsewhere(old(l.mem.prev), l.mem.prev, l.xs)
  {
    match op {
      case Append(h) => l.Append(h);
      case Prepend(h) => l.Prepend(h);
      case Insert(h, i) => var it := SeekLinked(l, i); l.Insert(h, it, i);
      case Rinsert(h, i) => var rit := RseekLinked(l, i); l.Rinsert(h, rit, i);
    }
  }

  method RemoveLinked(l: LinkedLists.List, op: Op)
    requires l.Valid() && !Adds(op) && !op.Move? && !op.Swap? && Fits(l.xs, op)
    modifies l, l.mem
    ensures l.Valid() && l.xs == ApplyOne(old(l.xs), op)
    ensures Elsewhere(old(l.mem.next), l.mem.next, old(l.xs)) && Elsewhere(old(l.mem.prev), l.mem.prev, old(l.xs))
  {
    match op {
      case Erase(i) => var it := SeekLinked(l, i); l.Erase(it, i);
      case Rerase(i) => var rit := RseekLinked(l, i); l.Rerase(rit, i);
      case PopFront => l.PopFront();
      case PopBack => l.PopBack();
      case Clear => l.Clear();
    }
  }

  method DoLinked(l: LinkedLists.List, k: LinkedLists.List, op: Op, ghost hooks: set<Addr>)
    requires LinkedPair(l, k, hooks) && Allowed(hooks, Pair(l.xs, k.xs), op)
    modifies l, k, l.mem
    ensures LinkedPair(l, k, hooks) && Pair(l.xs, k.xs) == Apply(Pair(old(l.xs), old(k.xs)), op)
  {
    StaysDisjoint(hooks, Pair(l.xs, k.xs), op);
    ghost var next, prev := l.mem.next, l.mem.prev;
    if op.Move? {
      l.MoveFrom(k);
    } else if op.Swap? {
      l.Swap(k);
    } else if Adds(op) {
      AddLinked(l, op);
      LinkedLists.OtherListUntouched(next, prev, l.mem.next, l.mem.prev, l.xs, k.xs);
    } else {
      RemoveLinked(l, op);
      LinkedLists.OtherListUntouched(next, prev, l.mem.next, l.mem.prev, old(l.xs), k.xs);
    }
  }

  // ---- Both ----

  /** What a client sees of two lists that hold the same sequence. */
  method Observe(x: XorLists.List, l: LinkedLists.List)
    returns (fx: seq<Addr>, fl: seq<Addr>, bx: seq<Addr>, bl: seq<Addr>, nx: nat, nl: nat)
    requires x.Valid() && l.Valid() && x.xs == l.xs
    ensures fx == fl == x.xs && bx == bl == Reversed(x.xs) && nx == nl == |x.xs|
  {
    fx := x.Forward();
    fl := l.Forward();
    bx := x.Backward();
    bl := l.Backward();
    nx := x.Count();
    nl := l.Count();
  }

  /** After any series of operations, both layouts give the same sequence forwards, its reversal
      backwards, and its length as the size; and the second lists hold the same sequence too. */
  method RunBoth(x: XorLists.List, x2: XorLists.List, l: LinkedLists.List, l2: LinkedLists.List,
                 ops: seq<Op>, ghost hooks: set<Addr>)
    returns (fx: seq<Addr>, fl: seq<Addr>, bx: seq<Addr>, bl: seq<Addr>, nx: nat, nl: nat)
    requires XorPair(x, x2, hooks) && LinkedPair(l, l2, hooks) && x.xs == l.xs && x2.xs == l2.xs
    requires AllAllowed(hooks, Pair(x.xs, x2.xs), ops)
    modifies x, x2, x.mem, l, l2, l.mem
    ensures XorPair(x, x2, hooks) && LinkedPair(l, l2, hooks)
    ensures fx == fl == x.xs && bx == bl == Reversed(x.xs) && nx == nl == |x.xs|
    ensures Pair(x.xs, x2.xs) == Pair(l.xs, l2.xs) == ApplyAll(hooks, Pair(old(x.xs), old(x2.xs)), ops)
  {
    hide Apply, Allowed, Disjoint;
    ghost var end := ApplyAll(hooks, Pair(x.xs, x2.xs), ops);
    var k := 0;
    while k < |ops|
      invariant k <= |ops| && XorPair(x, x2, hooks) && LinkedPair(l, l2, hooks) && x.xs == l.xs && x2.xs == l2.xs
      invariant AllAllowed(hooks, Pair(x.xs, x2.xs), ops[k..]) && ApplyAll(hooks, Pair(x.xs, x2.xs), ops[k..]) == end
    {
      assert ops[k..][0] == ops[k] && ops[k..][1..] == ops[k + 1..];
      DoXor(x, x2, ops[k], hooks);
      DoLinked(l, l2, ops[k], hooks);
      k := k + 1;
    }
    assert ops[k..] == [];
    fx, fl, bx, bl, nx, nl := Observe(x, l);
  }
}
