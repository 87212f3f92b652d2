/** The string map: an AVL tree of key/value items under a byte-wise comparator. */
module StrMaps {
  import opened Common
  import opened AvlShape
  import opened AvlPath
  import opened AvlTrees
  import AvlErase
  import AvlIterate

  type Key = seq<Byte>

  datatype Item = Item(key: Key, value: seq<Byte>)

  // ---- The comparators ----

  /** The C library's strncmp on the first `n` bytes: it stops at a difference or at a NUL. The
      library promises no more than the sign of a nonzero result. */
  function Strncmp(a: Key, b: Key, n: nat): int
    requires n <= |a| && n <= |b|
    decreases n
  {
    if n == 0 then 0
    else if a[0] != b[0] then (if a[0] < b[0] then -1 else 1)
    else if a[0] == 0 then 0
    else Strncmp(a[1..], b[1..], n - 1)
  }

  /** Compares a stored key with a sought one. A stored proper prefix compares equal. */
  function LookupCmp(l: Key, r: Key): int {
    var res := Strncmp(l, r, Min(|l|, |r|));
    if res != 0 then res else if |l| > |r| then 1 else 0
  }

  function ItemCmp(l: Item, r: Item): int {
    LookupCmp(l.key, r.key)
  }

  ghost predicate NulFree(k: Key) {
    forall i | 0 <= i < |k| :: k[i] != 0
  }

  /** The first position at which `a` exceeds `b`, the bytes before it being equal. */
  ghost predicate ExceedsAt(a: Key, b: Key, i: int) {
    0 <= i && i < |a| && i < |b| && (forall j | 0 <= j < i :: a[j] == b[j]) && a[i] > b[i]
  }

  /** `a` is the later of the two in dictionary order. */
  ghost predicate Exceeds(a: Key, b: Key) {
    b < a || exists i :: ExceedsAt(a, b, i)
  }

  /** What strncmp finds in NUL-free keys: the first difference. */
  lemma {:induction false} StrncmpMeans(a: Key, b: Key, n: nat) returns (d: nat)
    requires n <= |a| && n <= |b| && NulFree(a) && NulFree(b)
    ensures d <= n && forall j | 0 <= j < d :: a[j] == b[j]
    ensures if d < n then a[d] != b[d] && Strncmp(a, b, n) == if a[d] < b[d] then -1 else 1
            else Strncmp(a, b, n) == 0
  {
    if n == 0 || a[0] != b[0] {
      d := 0;
    } else {
      var d' := StrncmpMeans(a[1..], b[1..], n - 1);
      assert forall j | 0 <= j < d' :: a[1..][j] == a[j + 1] && b[1..][j] == b[j + 1];
      d := d' + 1;
    }
  }

  /** The sign of the comparator on NUL-free keys: zero means "is a prefix of". */
  lemma LookupCmpMeans(l: Key, r: Key)
    requires NulFree(l) && NulFree(r)
    ensures LookupCmp(l, r) == 0 <==> l <= r
    ensures LookupCmp(l, r) < 0 <==> exists i :: ExceedsAt(r, l, i)
    ensures LookupCmp(l, r) > 0 <==> Exceeds(l, r)
  {
    var n := Min(|l|, |r|);
    var d := StrncmpMeans(l, r, n);
    if d < n {
      assert if l[d] > r[d] then ExceedsAt(l, r, d) else ExceedsAt(r, l, d);
      assert forall i | ExceedsAt(l, r, i) || ExceedsAt(r, l, i) :: i == d;
    } else {
      assert |l| <= |r| ==> l <= r;
      assert |r| <= |l| ==> r <= l;
    }
  }

  ghost predicate PrefixFree(s: set<Key>) {
    forall a, b | a in s && b in s :: a <= b ==> a == b
  }

  ghost predicate AllNulFree(s: set<Key>) {
    forall a | a in s :: NulFree(a)
  }

  ghost function Keys(s: set<Hook<Item>>): set<Key> {
    set x | x in s :: x.item.key
  }

  /** One key exceeding another, and any third: whatever is not above the greater key is not above the smaller. */
  lemma ExceedsStep(a: Key, b: Key, i: int, k: Key)
    requires NulFree(a) && NulFree(b) && NulFree(k) && ExceedsAt(a, b, i)
    requires a <= k || exists j :: ExceedsAt(k, a, j)
    ensures exists j :: ExceedsAt(k, b, j)
  {
    if a <= k {
      assert ExceedsAt(k, b, i);
    } else {
      var j :| ExceedsAt(k, a, j);
      assert ExceedsAt(k, b, if j < i then j else i);
    }
  }

  /** Signs of the comparator across a third key. */
  lemma LookupStep(a: Key, b: Key, k: Key)
    requires NulFree(a) && NulFree(b) && NulFree(k) && LookupCmp(a, b) > 0 && !(b <= a)
    requires LookupCmp(a, k) <= 0
    ensures LookupCmp(b, k) < 0
  {
    LookupCmpMeans(a, b);
    LookupCmpMeans(a, k);
    LookupCmpMeans(b, k);
    var i :| ExceedsAt(a, b, i);
    ExceedsStep(a, b, i, k);
  }

  /** Any NUL-free key may be looked up among sorted prefix-free keys. */
  lemma LookupFits(s: seq<Hook<Item>>, k: Key)
    requires Sorted(ItemCmp, s) && NulFree(k)
    requires forall i | 0 <= i < |s| :: NulFree(s[i].item.key)
    requires forall i, j | 0 <= i < |s| && 0 <= j < |s| && s[i].item.key <= s[j].item.key :: s[i].item.key == s[j].item.key
    ensures Fits((x: Item) => LookupCmp(x.key, k), s)
  {
    var f := (x: Item) => LookupCmp(x.key, k);
    forall i, j | 0 <= i < j < |s|
      ensures (Sign(f, s[i]) <= 0 ==> Sign(f, s[j]) <= 0) && (Sign(f, s[i]) < 0 ==> Sign(f, s[j]) < 0)
    {
      var a, b := s[i].item.key, s[j].item.key;
      assert ItemCmp(s[i].item, s[j].item) > 0;
      LookupCmpMeans(a, b);
      if LookupCmp(a, k) <= 0 {
        LookupStep(a, b, k);
      }
    }
  }

  lemma KeyOf(s: set<Hook<Item>>, a: Hook<Item>)
    requires a in s
    ensures a.item.key in Keys(s)
  {
  }

  /** Two keys are compared alike in both orders exactly when neither is a proper prefix of the other. */
  lemma MirroredIff(x: Item, y: Item)
    requires NulFree(x.key) && NulFree(y.key)
    ensures Mirrored(ItemCmp, x, y) && Mirrored(ItemCmp, y, x)
       <==> (x.key <= y.key || y.key <= x.key ==> x.key == y.key)
  {
    hide LookupCmp;
    LookupCmpMeans(x.key, y.key);
    LookupCmpMeans(y.key, x.key);
  }

  lemma ConsistentKeys(s: set<Hook<Item>>)
    requires AllNulFree(Keys(s)) && Consistent(ItemCmp, s)
    ensures PrefixFree(Keys(s))
  {
    forall x, y | x in Keys(s) && y in Keys(s) && x <= y
      ensures x == y
    {
      var a :| a in s && a.item.key == x;
      var b :| b in s && b.item.key == y;
      assert Mirrored(ItemCmp, b.item, a.item) && Mirrored(ItemCmp, a.item, b.item);
      MirroredIff(a.item, b.item);
    }
  }

  lemma KeysConsistent(s: set<Hook<Item>>)
    requires AllNulFree(Keys(s)) && PrefixFree(Keys(s))
    ensures Consistent(ItemCmp, s)
  {
    forall a, b | a in s && b in s
      ensures Mirrored(ItemCmp, a.item, b.item)
    {
      KeyOf(s, a);
      KeyOf(s, b);
      MirroredIff(a.item, b.item);
    }
    forall a, b, c | a in s && b in s && c in s
      ensures Chained(ItemCmp, a.item, b.item, c.item)
    {
      KeyOf(s, a);
      KeyOf(s, b);
      KeyOf(s, c);
      hide LookupCmp, Keys;
      ChainedKeys(a.item.key, b.item.key, c.item.key);
    }
  }

  /** The comparator orders a set of NUL-free keys exactly when no key is a proper prefix of another. */
  lemma ConsistentIff(s: set<Hook<Item>>)
    requires AllNulFree(Keys(s))
    ensures Consistent(ItemCmp, s) <==> PrefixFree(Keys(s))
  {
    hide Consistent, PrefixFree, AllNulFree;
    if Consistent(ItemCmp, s) {
      ConsistentKeys(s);
    }
    if PrefixFree(Keys(s)) {
      KeysConsistent(s);
    }
  }

  lemma ChainedKeys(a: Key, b: Key, c: Key)
    requires NulFree(a) && NulFree(b) && NulFree(c)
    requires PrefixFree({a, b, c})
    ensures LookupCmp(a, b) >= 0 && LookupCmp(b, c) >= 0 ==> LookupCmp(a, c) >= 0
  {
    LookupCmpMeans(a, b);
    LookupCmpMeans(b, c);
    LookupCmpMeans(a, c);
    if LookupCmp(a, b) >= 0 && LookupCmp(b, c) >= 0 && LookupCmp(a, c) < 0 && a != b {
      LookupStep(a, b, c);
    }
  }

  // ---- The map ----

  /** Nonempty NUL-free keys, none a proper prefix of another. */
  ghost predicate KeysOk(s: set<Key>) {
    AllNulFree(s) && PrefixFree(s) && [] !in s
  }

  /** The items of `s` are the entries of `m`, one for each key. */
  ghost predicate Matches(m: map<Key, seq<Byte>>, s: seq<Hook<Item>>) {
    && (forall x | x in s :: x.item.key in m && m[x.item.key] == x.item.value)
    && (forall k | k in m :: exists x :: x in s && x.item.key == k)
    && |s| == |m|
  }

  ghost predicate Holds(m: map<Key, seq<Byte>>, s: seq<Hook<Item>>) {
    Matches(m, s) && KeysOk(m.Keys)
  }

  lemma HoldsKeys(m: map<Key, seq<Byte>>, t: Tree<Item>)
    requires Matches(m, InOrder(t))
    ensures Keys(Nodes(t)) == m.Keys
  {
    InOrderNodes(t);
    forall k | k in m
      ensures k in Keys(Nodes(t))
    {
      var x :| x in InOrder(t) && x.item.key == k;
      assert x in Nodes(t);
    }
    forall k | k in Keys(Nodes(t))
      ensures k in m
    {
      var x :| x in Nodes(t) && x.item.key == k;
      assert x in InOrder(t);
    }
  }

  lemma KeysPlus(s: set<Hook<Item>>, e: Hook<Item>)
    ensures Keys(s + {e}) == Keys(s) + {e.item.key}
  {
    assert e in s + {e};
  }

  lemma EqualKeys(s: set<Key>, x: Key, y: Key)
    requires KeysOk(s) && x in s && y in s
    ensures LookupCmp(x, y) == 0 <==> x == y
  {
    LookupCmpMeans(x, y);
  }

  lemma InsertOrdered(m: map<Key, seq<Byte>>, t: Tree<Item>, e: Hook<Item>)
    requires Holds(m, InOrder(t)) && KeysOk(m.Keys + {e.item.key})
    ensures Consistent(ItemCmp, Nodes(t) + {e})
    ensures (exists x | x in InOrder(t) :: ItemCmp(x.item, e.item) == 0) <==> e.item.key in m
  {
    hide Consistent, LookupCmp, Keys, InOrder, AllNulFree, PrefixFree;
    HoldsKeys(m, t);
    KeysPlus(Nodes(t), e);
    ConsistentIff(Nodes(t) + {e});
    forall x | x in InOrder(t)
      ensures ItemCmp(x.item, e.item) == 0 <==> x.item.key == e.item.key
    {
      hide KeysOk;
      EqualKeys(m.Keys + {e.item.key}, x.item.key, e.item.key);
    }
  }

  lemma MatchesAdded(m: map<Key, seq<Byte>>, s: seq<Hook<Item>>, s': seq<Hook<Item>>, e: Hook<Item>)
    requires Matches(m, s) && e.item.key !in m
    requires (forall x :: x in s' <==> x in s || x == e) && |s'| == |s| + 1
    ensures Matches(m[e.item.key := e.item.value], s')
  {
    var m' := m[e.item.key := e.item.value];
    assert m'.Keys == m.Keys + {e.item.key};
    assert e in s';
    forall k' | k' in m
      ensures exists x :: x in s' && x.item.key == k'
    {
      var x :| x in s && x.item.key == k';
      assert x in s';
    }
  }

  /** The map after an insertion into the tree. */
  ghost function Inserted(m: map<Key, seq<Byte>>, item: Item): map<Key, seq<Byte>> {
    if item.key in m then m else m[item.key := item.value]
  }

  lemma HoldsInserted(m: map<Key, seq<Byte>>, s: seq<Hook<Item>>, s': seq<Hook<Item>>, e: Hook<Item>, k: int)
    requires Holds(m, s) && KeysOk(m.Keys + {e.item.key})
    requires if e.item.key in m then s' == s else AddedAt(s, s', Lookup(ItemCmp, e.item), e, k)
    ensures Holds(Inserted(m, e.item), s') && forall x | x in s' :: x in s || x == e
  {
    hide Matches, KeysOk, AddedAt, Lookup;
    assert Inserted(m, e.item).Keys == m.Keys + {e.item.key};
    if e.item.key in m {
      assert m.Keys + {e.item.key} == m.Keys;
    } else {
      AddedMembers(s, s', Lookup(ItemCmp, e.item), e, k);
      MatchesAdded(m, s, s', e);
    }
  }

  lemma AddedMembers(s: seq<Hook<Item>>, s': seq<Hook<Item>>, f: Item -> int, e: Hook<Item>, k: int)
    requires AddedAt(s, s', f, e, k)
    ensures forall x :: x in s' <==> x in s || x == e
    ensures |s'| == |s| + 1
  {
    assert s == s[..k] + s[k..];
  }

  lemma RemovedMembers(s: seq<Hook<Item>>, s': seq<Hook<Item>>, e: Hook<Item>, k: int)
    requires AvlErase.RemovedAt(s, s', e, k)
    ensures forall x :: x in s' ==> x in s
    ensures forall x :: x in s ==> x in s' || x == e
    ensures e in s && |s'| == |s| - 1
  {
    assert s == s[..k] + [e] + s[k + 1..];
  }

  /** No two hooks of a sorted sequence share a key, so the removed key is gone. */
  lemma RemovedKey(s: seq<Hook<Item>>, s': seq<Hook<Item>>, e: Hook<Item>, k: int)
    requires Sorted(ItemCmp, s) && AvlErase.RemovedAt(s, s', e, k) && NulFree(e.item.key)
    ensures forall x | x in s' :: x.item.key != e.item.key
  {
    LookupCmpMeans(e.item.key, e.item.key);
    forall x | x in s'
      ensures x.item.key != e.item.key
    {
      var i :| 0 <= i < |s'| && s'[i] == x;
      assert x == s[if i < k then i else i + 1];
      assert if i < k then ItemCmp(x.item, e.item) > 0 else ItemCmp(e.item, x.item) > 0;
    }
  }

  lemma MatchesRemoved(m: map<Key, seq<Byte>>, s: seq<Hook<Item>>, s': seq<Hook<Item>>, e: Hook<Item>, k: int)
    requires Matches(m, s) && Sorted(ItemCmp, s) && AvlErase.RemovedAt(s, s', e, k) && NulFree(e.item.key)
    ensures Matches(m - {e.item.key}, s')
  {
    var m' := m - {e.item.key};
    RemovedMembers(s, s', e, k);
    RemovedKey(s, s', e, k);
    assert m'.Keys == m.Keys - {e.item.key} && |m'.Keys| == |m.Keys| - 1;
    forall k' | k' in m'
      ensures exists x :: x in s' && x.item.key == k'
    {
      var x :| x in s && x.item.key == k';
      assert x in s';
    }
  }

  lemma HoldsRemoved(m: map<Key, seq<Byte>>, t: Tree<Item>, s': seq<Hook<Item>>, e: Hook<Item>, k: int)
    requires Holds(m, InOrder(t)) && Sorted(ItemCmp, InOrder(t)) && AvlErase.RemovedAt(InOrder(t), s', e, k)
    ensures Holds(m - {e.item.key}, s') && forall x | x in s' :: x in InOrder(t)
  {
    assert e in InOrder(t) && e.item.key in m.Keys;
    RemovedMembers(InOrder(t), s', e, k);
    MatchesRemoved(m, InOrder(t), s', e, k);
  }

  /** Looking up any key fits the order of the stored ones, and meets exactly its stored prefixes. */
  lemma LookupMeets(m: map<Key, seq<Byte>>, s: seq<Hook<Item>>, key: Key)
    requires Holds(m, s) && Sorted(ItemCmp, s) && NulFree(key)
    ensures Fits((x: Item) => LookupCmp(x.key, key), s)
    ensures forall x | x in s :: LookupCmp(x.item.key, key) == 0 <==> x.item.key <= key
  {
    forall x | x in s
      ensures LookupCmp(x.item.key, key) == 0 <==> x.item.key <= key
    {
      LookupCmpMeans(x.item.key, key);
    }
    LookupFits(s, key);
  }

  /** The entry `Get` finds: the one whose key is a prefix of the sought key. */
  ghost predicate PrefixEntry(m: map<Key, seq<Byte>>, key: Key, k: Key) {
    k in m && k <= key
  }

  lemma TwoPrefixes(k: Key, l: Key, key: Key)
    requires k <= key && l <= key && |k| <= |l|
    ensures k <= l
  {
  }

  /** An insertion or a removal brings no other hook into the tree. */
  lemma NodesKept(t: Tree<Item>, t': Tree<Item>, e: Hook<Item>)
    requires forall x | x in InOrder(t') :: x in InOrder(t) || x == e
    ensures Nodes(t') <= Nodes(t) + {e}
  {
    InOrderNodes(t);
    InOrderNodes(t');
  }

  /** What `Get` answers. */
  ghost function Answer(m: map<Key, seq<Byte>>, key: Key): Option<seq<Byte>> {
    if k :| PrefixEntry(m, key, k) then Some(m[k]) else None
  }

  ghost function ExactAnswer(m: map<Key, seq<Byte>>, key: Key): Option<seq<Byte>> {
    if key in m then Some(m[key]) else None
  }

  lemma OneEntry(m: map<Key, seq<Byte>>, key: Key, k: Key)
    requires PrefixFree(m.Keys) && PrefixEntry(m, key, k)
    ensures Answer(m, key) == Some(m[k])
  {
    forall l | PrefixEntry(m, key, l)
      ensures k == l
    {
      if |k| <= |l| { TwoPrefixes(k, l, key); } else { TwoPrefixes(l, k, key); }
    }
  }

  /** Lookup is exact if and only if no stored key is a proper prefix of the sought one. */
  lemma ExactLookupIff(m: map<Key, seq<Byte>>, key: Key)
    requires PrefixFree(m.Keys)
    ensures Answer(m, key) == ExactAnswer(m, key) <==> !exists k :: k in m && k < key
  {
    if k :| PrefixEntry(m, key, k) {
      OneEntry(m, key, k);
      if k != key {
        assert k < key && key !in m by {
          assert k == key[..|k|];
        }
      } else {
        assert forall l | l in m && l <= key :: l == key;
      }
    } else {
      assert forall k | k in m && k <= key :: PrefixEntry(m, key, k);
    }
  }

  class StrMap {
    const cont: AvlTree<Item>
    /** What the map holds. */
    ghost var m: map<Key, seq<Byte>>

    ghost predicate Valid()
      reads this, cont, Nodes(cont.t)
    {
      cont.Valid() && cont.cmp == ItemCmp && Holds(m, InOrder(cont.t))
    }

    constructor ()
      ensures Valid() && m == map[] && fresh(cont) && Nodes(cont.t) == {}
    {
      cont := new AvlTree(ItemCmp);
      m := map[];
      new;
      InOrderNodes(cont.t);
    }

    /** The value of the stored key that is a prefix of `key`. */
    method Get(key: Key) returns (r: Option<seq<Byte>>)
      requires Valid() && NulFree(key) && key != []
      ensures r == Answer(m, key)
      ensures r.Some? ==> exists k :: PrefixEntry(m, key, k) && m[k] == r.value
      ensures r.None? ==> forall k :: !PrefixEntry(m, key, k)
    {
      LookupMeets(m, InOrder(cont.t), key);
      var i;
      ghost var comparisons;
      i, comparisons := AvlIterate.Find(cont, (x: Item) => LookupCmp(x.key, key));
      if i == null {
        return None;
      }
      assert PrefixEntry(m, key, i.item.key);
      OneEntry(m, key, i.item.key);
      return Some(i.item.value);
    }

    /** The first insert of a key wins. */
    method Insert(item: Hook<Item>)
      requires Valid() && KeysOk(m.Keys + {item.item.key})
      requires item.left == null && item.right == null && item.parent == null && item.bal == 0
      modifies this, cont, Nodes(cont.t), item
      ensures Valid() && m == Inserted(old(m), item.item) && Nodes(cont.t) <= old(Nodes(cont.t)) + {item}
    {
      hide Inserted, Holds, Matches, KeysOk;
      TreeInsert(item);
      m := Inserted(m, item.item);
    }

    method TreeInsert(item: Hook<Item>)
      requires cont.Valid() && cont.cmp == ItemCmp && Holds(m, InOrder(cont.t)) && KeysOk(m.Keys + {item.item.key})
      requires item.left == null && item.right == null && item.parent == null && item.bal == 0
      modifies cont, Nodes(cont.t), item
      ensures cont.Valid() && Holds(Inserted(m, item.item), InOrder(cont.t))
      ensures Nodes(cont.t) <= old(Nodes(cont.t)) + {item}
    {
      hide Inserted, Sorted, Matches, KeysOk, AddedAt, Distinct, Rep, Avl, Nodes, Holds;
      ghost var t := cont.t;
      ghost var s := InOrder(cont.t);
      InsertOrdered(m, cont.t, item);
      var _, k := cont.Insert(item);
      HoldsInserted(m, s, InOrder(cont.t), item, k);
      NodesKept(t, cont.t, item);
    }

    method Erase(it: Hook<Item>)
      requires Valid() && it in Nodes(cont.t)
      modifies this, cont, Nodes(cont.t)
      ensures Valid() && m == old(m) - {it.item.key} && Nodes(cont.t) <= old(Nodes(cont.t))
    {
      hide Holds, Matches, KeysOk, Distinct, Rep, Avl, Nodes;
      ghost var t, m0 := cont.t, m;
      ghost var k := AvlErase.Erase(cont, it);
      m := m0 - {it.item.key};
      HoldsRemoved(m0, t, InOrder(cont.t), it, k);
      NodesKept(t, cont.t, it);
    }

    method Size() returns (n: nat)
      requires Valid()
      ensures n == |m|
    {
      n := AvlIterate.Count(cont);
    }
  }

  /** Iteration is in strictly descending key order. */
  lemma DescendingKeys(m: map<Key, seq<Byte>>, s: seq<Hook<Item>>)
    requires Holds(m, s) && Sorted(ItemCmp, s)
    ensures forall i, j | 0 <= i < j < |s| :: Exceeds(s[i].item.key, s[j].item.key)
  {
    forall i, j | 0 <= i < j < |s|
      ensures Exceeds(s[i].item.key, s[j].item.key)
    {
      assert ItemCmp(s[i].item, s[j].item) > 0;
      LookupCmpMeans(s[i].item.key, s[j].item.key);
    }
  }

  /** The keys "a" and "ab": a map that holds only the first answers a lookup of the second. */
  lemma ProperPrefixCollides(v: seq<Byte>)
    ensures var a: Key, ab: Key := [97], [97, 98];
      LookupCmp(a, ab) == 0 && LookupCmp(ab, a) > 0 && PrefixEntry(map[a := v], ab, a) && !PrefixFree({a, ab})
  {
    var a: Key, ab: Key := [97], [97, 98];
    LookupCmpMeans(a, ab);
    LookupCmpMeans(ab, a);
    assert a <= ab && a in {a, ab} && ab in {a, ab};
  }

  // ---- Histories ----

  datatype MapOp = Ins(item: Item) | Del(key: Key)

  ghost function Run(ops: seq<MapOp>): map<Key, seq<Byte>> {
    if ops == [] then map[] else
    var m, last := Run(ops[..|ops| - 1]), ops[|ops| - 1];
    match last
    case Ins(item) => Inserted(m, item)
    case Del(key) => m - {key}
  }

  ghost predicate Inserts(ops: seq<MapOp>, key: Key, i: int) {
    0 <= i < |ops| && ops[i].Ins? && ops[i].item.key == key
  }

  ghost predicate DeletedBetween(ops: seq<MapOp>, key: Key, i: int, j: int) {
    exists d :: i < d < j && 0 <= d < |ops| && ops[d] == Del(key)
  }

  /** Operation `i` is the first insertion of `key` since the last time the key was erased. */
  ghost predicate Wins(ops: seq<MapOp>, key: Key, i: int) {
    Inserts(ops, key, i) && !DeletedBetween(ops, key, i, |ops|)
    && forall j | j < i && Inserts(ops, key, j) :: DeletedBetween(ops, key, j, i)
  }

  lemma {:induction false} StillPresent(ops: seq<MapOp>, key: Key, j: int)
    requires Inserts(ops, key, j) && !DeletedBetween(ops, key, j, |ops|)
    ensures key in Run(ops)
  {
    var n := |ops| - 1;
    if j < n {
      assert ops[n] != Del(key);
      forall d | j < d < n
        ensures ops[..n][d] != Del(key)
      {
      }
      StillPresent(ops[..n], key, j);
    }
  }

  lemma WinsPrefix(ops: seq<MapOp>, key: Key, i: int)
    requires ops != [] && i < |ops| - 1
    ensures Wins(ops, key, i) <==> Wins(ops[..|ops| - 1], key, i) && ops[|ops| - 1] != Del(key)
  {
    var n := |ops| - 1;
    assert forall j, k | k <= n :: DeletedBetween(ops, key, j, k) == DeletedBetween(ops[..n], key, j, k);
    assert DeletedBetween(ops, key, i, |ops|) <==> DeletedBetween(ops, key, i, n) || (0 <= n && i < n && ops[n] == Del(key));
  }

  /** In any history, a key is present exactly when some insertion of it wins, and that one's value is held. */
  lemma {:induction false} FirstInsertWins(ops: seq<MapOp>, key: Key)
    ensures key in Run(ops) <==> exists i :: Wins(ops, key, i)
    ensures forall i | Wins(ops, key, i) :: key in Run(ops) && Run(ops)[key] == ops[i].item.value
  {
    if ops != [] {
      var n := |ops| - 1;
      var p := ops[..n];
      FirstInsertWins(p, key);
      forall i | i < n
        ensures Wins(ops, key, i) <==> Wins(p, key, i) && ops[n] != Del(key)
      {
        WinsPrefix(ops, key, i);
      }
      if Inserts(ops, key, n) {
        WinsLast(ops, p, key);
      }
    }
  }

  /** The last operation wins exactly when it inserts a key that was absent. */
  lemma WinsLast(ops: seq<MapOp>, p: seq<MapOp>, key: Key)
    requires ops != [] && p == ops[..|ops| - 1] && Inserts(ops, key, |ops| - 1)
    requires key in Run(p) <==> exists i :: Wins(p, key, i)
    ensures Wins(ops, key, |ops| - 1) <==> key !in Run(p)
  {
    var n := |ops| - 1;
    assert forall j :: DeletedBetween(ops, key, j, n) == DeletedBetween(p, key, j, n);
    assert !DeletedBetween(ops, key, n, |ops|);
    if key in Run(p) {
      var i :| Wins(p, key, i);
      assert Inserts(ops, key, i) && !DeletedBetween(ops, key, i, n);
    } else {
      forall j | j < n && Inserts(ops, key, j)
        ensures DeletedBetween(ops, key, j, n)
      {
        assert Inserts(p, key, j);
        if !DeletedBetween(p, key, j, n) {
          StillPresent(p, key, j);
        }
      }
    }
  }
}
