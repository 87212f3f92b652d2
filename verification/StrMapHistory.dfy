/** Histories of string map operations, carried out on a string map. */
module StrMapHistories {
  import opened Common
  import opened AvlShape
  import opened AvlTrees
  import opened StrMaps
  import AvlIterate

  /** All keys a history inserts. */
  ghost function InsertedKeys(ops: seq<MapOp>): set<Key> {
    if ops == [] then {} else
    var last := ops[|ops| - 1];
    InsertedKeys(ops[..|ops| - 1]) + if last.Ins? then {last.item.key} else {}
  }

  lemma {:induction false} RunKeys(ops: seq<MapOp>)
    ensures Run(ops).Keys <= InsertedKeys(ops)
  {
    if ops != [] {
      RunKeys(ops[..|ops| - 1]);
    }
  }

  lemma {:induction false} KeysGrow(ops: seq<MapOp>, i: nat)
    requires i <= |ops|
    ensures InsertedKeys(ops[..i]) <= InsertedKeys(ops)
  {
    if i == |ops| {
      assert ops[..i] == ops;
    } else {
      var p := ops[..|ops| - 1];
      assert p[..i] == ops[..i];
      KeysGrow(p, i);
    }
  }

  lemma FewerKeys(s: set<Key>, s': set<Key>)
    requires KeysOk(s') && s <= s'
    ensures KeysOk(s)
  {
  }

  /** The hook with a given key, found by iteration. */
  method Seek(sm: StrMap, key: Key) returns (it: Hook?<Item>)
    requires sm.Valid()
    ensures if it == null then key !in sm.m else it in Nodes(sm.cont.t) && it.item.key == key
  {
    hide KeysOk, Sorted, Distinct, Rep, Avl;
    ghost var t, s := sm.cont.t, InOrder(sm.cont.t);
    ghost var k := 0;
    assert allocated(Nodes(t));
    it := AvlIterate.Begin(sm.cont);
    while it != null && it.item.key != key
      invariant sm.cont.Valid() && k <= |s| && it == if k < |s| then s[k] else null
      invariant forall j | 0 <= j < k :: s[j].item.key != key
      decreases |s| - k
    {
      assert allocated(Nodes(t));
      it := AvlIterate.Next(it, sm.cont, k);
      k := k + 1;
    }
    Sought(sm.m, t, key, k);
  }

  /** The first `k` hooks have other keys, and there are no more, or the next one has the key. */
  lemma Sought(m: map<Key, seq<Byte>>, t: Tree<Item>, key: Key, k: nat)
    requires Matches(m, InOrder(t)) && k <= |InOrder(t)| && forall j | 0 <= j < k :: InOrder(t)[j].item.key != key
    ensures if k == |InOrder(t)| then key !in m else InOrder(t)[k] in Nodes(t)
  {
    if k < |InOrder(t)| {
      InOrderAt(t, k);
    } else {
      NotAmong(InOrder(t), key);
    }
  }

  lemma NotAmong(s: seq<Hook<Item>>, key: Key)
    requires forall j | 0 <= j < |s| :: s[j].item.key != key
    ensures forall x | x in s :: x.item.key != key
  {
  }

  /** One operation: an insertion links a new item, an erasure the item with the key, if any. */
  method Apply(sm: StrMap, op: MapOp)
    requires sm.Valid() && (op.Ins? ==> KeysOk(sm.m.Keys + {op.item.key}))
    modifies sm, sm.cont, Nodes(sm.cont.t)
    ensures sm.Valid() && forall x | x in Nodes(sm.cont.t) :: x in old(Nodes(sm.cont.t)) || fresh(x)
    ensures sm.m == if op.Ins? then Inserted(old(sm.m), op.item) else old(sm.m) - {op.key}
  {
    hide Holds, KeysOk, Sorted, Distinct, Rep, Avl, Inserted;
    assert allocated(Nodes(sm.cont.t));
    match op
    case Ins(item) =>
      var h := new Hook(item);
      sm.Insert(h);
    case Del(key) =>
      var it := Seek(sm, key);
      if it != null {
        sm.Erase(it);
      }
  }

  /** A history on a new map leaves what `Run` says. */
  method Replay(ops: seq<MapOp>) returns (sm: StrMap)
    requires KeysOk(InsertedKeys(ops))
    ensures fresh(sm) && sm.Valid() && sm.m == Run(ops)
  {
    hide Holds, KeysOk, Sorted, Distinct, Rep, Avl, Inserted;
    sm := new StrMap();
    for i := 0 to |ops|
      invariant fresh(sm) && fresh(sm.cont) && forall x | x in Nodes(sm.cont.t) :: fresh(x)
      invariant sm.Valid() && sm.m == Run(ops[..i])
    {
      assert ops[..i + 1][..i] == ops[..i];
      KeysFit(ops, i);
      Apply(sm, ops[i]);
    }
    assert ops[..|ops|] == ops;
  }

  lemma KeysFit(ops: seq<MapOp>, i: nat)
    requires KeysOk(InsertedKeys(ops)) && i < |ops|
    ensures ops[i].Ins? ==> KeysOk(Run(ops[..i]).Keys + {ops[i].item.key})
  {
    RunKeys(ops[..i]);
    KeysGrow(ops, i + 1);
    assert ops[..i + 1][..i] == ops[..i];
    if ops[i].Ins? {
      FewerKeys(Run(ops[..i]).Keys + {ops[i].item.key}, InsertedKeys(ops));
    }
  }

  /** `r` is the value of the insertion of `key` that wins, or nothing if none does. */
  ghost predicate Winner(ops: seq<MapOp>, key: Key, r: Option<seq<Byte>>) {
    if r.Some? then exists i :: Wins(ops, key, i) && ops[i].item.value == r.value else !exists i :: Wins(ops, key, i)
  }

  lemma WinnerIs(ops: seq<MapOp>, key: Key, r: Option<seq<Byte>>)
    ensures Winner(ops, key, r) <==> r == ExactAnswer(Run(ops), key)
  {
    FirstInsertWins(ops, key);
  }

  /** A lookup after any history finds the winner, if and only if no key then present is a proper
      prefix of the sought one. */
  method ReplayAndGet(ops: seq<MapOp>, key: Key) returns (r: Option<seq<Byte>>)
    requires KeysOk(InsertedKeys(ops)) && NulFree(key) && key != []
    ensures r == Answer(Run(ops), key)
    ensures Winner(ops, key, r) <==> !exists k :: k in Run(ops) && k < key
  {
    var sm := Replay(ops);
    RunKeys(ops);
    FewerKeys(Run(ops).Keys, InsertedKeys(ops));
    ExactLookupIff(Run(ops), key);
    r := sm.Get(key);
    WinnerIs(ops, key, r);
  }
}
