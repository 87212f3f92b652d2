/** The vector of buffers an HTTP response writes for its headers. */
module HeaderWriter {
  import opened Common
  import opened AvlShape
  import opened AvlTrees
  import opened HeaderText
  import opened StrMaps
  import AvlIterate

  const COLON: seq<Byte> := [58, 32]
  const CRLF: seq<Byte> := [13, 10]

  /** The four slots of one header, from `i` on. */
  function Put(iov: seq<seq<Byte>>, i: nat, item: Item): seq<seq<Byte>>
    requires i + 4 <= |iov|
  {
    iov[i := item.key][i + 1 := COLON][i + 2 := item.value][i + 3 := CRLF]
  }

  /** The headers in the order of the map. */
  ghost function Fields(s: seq<Hook<Item>>): seq<Field> {
    seq(|s|, k requires 0 <= k < |s| => Field(s[k].item.key, s[k].item.value))
  }

  ghost predicate AllReadable(m: map<Key, seq<Byte>>) {
    forall k | k in m :: Readable(Field(k, m[k]))
  }

  /** The first `n` of distinct keys are the entries read so far. */
  lemma {:induction false} EntriesAre(m: map<Key, seq<Byte>>, s: seq<Hook<Item>>)
    requires forall x | x in s :: x.item.key in m && m[x.item.key] == x.item.value
    ensures Entries(Fields(s)).Keys == set x | x in s :: x.item.key
    ensures forall k | k in Entries(Fields(s)) :: k in m && Entries(Fields(s))[k] == m[k]
  {
    if s != [] {
      var n := |s| - 1;
      assert forall x | x in s :: x in s[..n] || x == s[n];
      assert Fields(s)[..n] == Fields(s[..n]);
      EntriesAre(m, s[..n]);
    }
  }

  lemma EntriesWhole(m: map<Key, seq<Byte>>, s: seq<Hook<Item>>)
    requires Matches(m, s)
    ensures Entries(Fields(s)) == m
  {
    EntriesAre(m, s);
    hide Entries, Fields;
    forall k | k in m
      ensures k in Entries(Fields(s))
    {
      var x :| x in s && x.item.key == k;
    }
  }

  lemma FieldsReadable(m: map<Key, seq<Byte>>, s: seq<Hook<Item>>)
    requires Matches(m, s) && AllReadable(m)
    ensures forall f | f in Fields(s) :: Readable(f)
  {
    hide Readable;
    forall f | f in Fields(s)
      ensures Readable(f)
    {
      var k :| 0 <= k < |s| && f == Fields(s)[k];
      assert s[k] in s;
    }
  }

  /** The bytes of the vector, behind the status line, read as the entries of the map. */
  lemma HeadersReadBack(iov: seq<seq<Byte>>, m: map<Key, seq<Byte>>, s: seq<Hook<Item>>)
    requires Matches(m, s) && AllReadable(m) && Carries(iov, Fields(s))
    ensures Parsed(Flat(iov[1..])) == Some(Fields(s)) && |Fields(s)| == |m| && Entries(Fields(s)) == m
  {
    hide Parsed, Flat, Entries, AllReadable, Carries;
    FieldsReadable(m, s);
    EntriesWhole(m, s);
    ReadsBack(iov, Fields(s), 0);
    assert Fields(s)[0..] == Fields(s);
  }

  /** What the slots of header `k` hold. */
  lemma SlotsOf(iov: seq<seq<Byte>>, m: map<Key, seq<Byte>>, s: seq<Hook<Item>>, k: nat)
    requires Matches(m, s) && Carries(iov, Fields(s)) && k < |s|
    ensures var i := s[k].item;
      && iov[4 * k + 1] == i.key && Spells(iov[4 * k + 2], ": ") && iov[4 * k + 3] == i.value && Spells(iov[4 * k + 4], "\r\n")
      && i.key in m && m[i.key] == i.value
  {
    hide Spells;
    assert s[k] in s && Fields(s)[k] == Field(s[k].item.key, s[k].item.value);
  }

  /** The slots counted beforehand are exactly the slots filled: the status line, four buffers for
      each header, in the order of the map, and the closing line. What they spell reads as the map. */
  method Fill(headers: StrMap, status: seq<Byte>) returns (iov: seq<seq<Byte>>)
    requires headers.Valid()
    ensures |iov| == 4 * |headers.m| + 2 && iov[0] == status && Spells(iov[|iov| - 1], "\r\n")
    ensures |InOrder(headers.cont.t)| == |headers.m|
    ensures forall k | 0 <= k < |headers.m| :: var i := InOrder(headers.cont.t)[k].item;
      && iov[4 * k + 1] == i.key && Spells(iov[4 * k + 2], ": ") && iov[4 * k + 3] == i.value && Spells(iov[4 * k + 4], "\r\n")
      && i.key in headers.m && headers.m[i.key] == i.value
    ensures AllReadable(headers.m) ==>
      var fs := Parsed(Flat(iov[1..])); fs.Some? && |fs.value| == |headers.m| && Entries(fs.value) == headers.m
  {
    hide AllReadable, Parsed, Flat, Entries, Spells, Fields, Sorted, KeysOk, Avl, Rep, Distinct;
    assert allocated(Nodes(headers.cont.t));
    var n := headers.Size();
    iov := FillSlots(headers.cont, n, status);
    Written(iov, headers.m, InOrder(headers.cont.t));
  }

  /** The vector carries the headers, so it holds and reads as the map. */
  lemma Written(iov: seq<seq<Byte>>, m: map<Key, seq<Byte>>, s: seq<Hook<Item>>)
    requires Matches(m, s) && Carries(iov, Fields(s))
    ensures |s| == |m| && |iov| == 4 * |m| + 2 && Spells(iov[|iov| - 1], "\r\n")
    ensures forall k | 0 <= k < |m| :: var i := s[k].item;
      && iov[4 * k + 1] == i.key && Spells(iov[4 * k + 2], ": ") && iov[4 * k + 3] == i.value && Spells(iov[4 * k + 4], "\r\n")
      && i.key in m && m[i.key] == i.value
    ensures AllReadable(m) ==> var fs := Parsed(Flat(iov[1..])); fs.Some? && |fs.value| == |m| && Entries(fs.value) == m
  {
    hide AllReadable, Parsed, Flat, Entries, Spells;
    assert |Fields(s)| == |s|;
    forall k | 0 <= k < |m|
      ensures var i := s[k].item;
        && iov[4 * k + 1] == i.key && Spells(iov[4 * k + 2], ": ") && iov[4 * k + 3] == i.value && Spells(iov[4 * k + 4], "\r\n")
        && i.key in m && m[i.key] == i.value
    {
      SlotsOf(iov, m, s, k);
    }
    if AllReadable(m) {
      HeadersReadBack(iov, m, s);
    }
  }

  /** The status line and the first `k` headers are in place, `n` slots in all. */
  ghost predicate Filled(iov: seq<seq<Byte>>, status: seq<Byte>, s: seq<Hook<Item>>, k: nat) {
    && k <= |s| && |iov| == 4 * |s| + 2 && iov[0] == status
    && forall j | 0 <= j < k :: iov[4 * j + 1] == s[j].item.key && iov[4 * j + 2] == COLON
                             && iov[4 * j + 3] == s[j].item.value && iov[4 * j + 4] == CRLF
  }

  lemma FilledNext(iov: seq<seq<Byte>>, status: seq<Byte>, s: seq<Hook<Item>>, k: nat)
    requires Filled(iov, status, s, k) && k < |s|
    ensures Filled(Put(iov, 4 * k + 1, s[k].item), status, s, k + 1)
  {
  }

  lemma FilledLast(iov: seq<seq<Byte>>, status: seq<Byte>, s: seq<Hook<Item>>)
    requires Filled(iov, status, s, |s|)
    ensures Carries(iov[4 * |s| + 1 := CRLF], Fields(s))
  {
  }

  method FillSlots(tree: AvlTree<Item>, n: nat, status: seq<Byte>) returns (iov: seq<seq<Byte>>)
    requires tree.Valid() && n == |InOrder(tree.t)|
    ensures |iov| == 4 * n + 2 && iov[0] == status && Carries(iov, Fields(InOrder(tree.t)))
  {
    hide Put, Fields;
    ghost var s := InOrder(tree.t);
    var niov := 4 * n + 2;
    iov := seq(niov, _ => [])[0 := status];
    var i := 1;
    assert allocated(Nodes(tree.t));
    var it := AvlIterate.Begin(tree);
    ghost var k := 0;
    while it != null && i < niov
      invariant tree.Valid() && Filled(iov, status, s, k) && i == 4 * k + 1 && it == if k < |s| then s[k] else null
      decreases |s| - k
    {
      FilledNext(iov, status, s, k);
      iov := Put(iov, i, it.item);
      i := i + 4;
      assert allocated(Nodes(tree.t));
      it := AvlIterate.Next(it, tree, k);
      k := k + 1;
    }
    FilledLast(iov, status, s);
    iov := iov[i := CRLF];
  }
}
