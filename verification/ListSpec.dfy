/** What a list is, whatever its links look like: a sequence of hook addresses. */
module ListSpec {

  /** A hook's address; zero is the null pointer. */
  datatype Addr = Addr(bits: bv64)

  const NULL := Addr(0)

  function At(xs: seq<Addr>, i: int): Addr {
    if 0 <= i < |xs| then xs[i] else NULL
  }

  ghost predicate Linkable(xs: seq<Addr>) {
    NULL !in xs && forall i, j | 0 <= i < j < |xs| :: xs[i] != xs[j]
  }

  function Inserted(xs: seq<Addr>, i: nat, h: Addr): seq<Addr>
    requires i <= |xs|
  {
    xs[..i] + [h] + xs[i..]
  }

  function Removed(xs: seq<Addr>, i: nat): seq<Addr>
    requires i < |xs|
  {
    xs[..i] + xs[i + 1..]
  }

  function Reversed(xs: seq<Addr>): seq<Addr> {
    if xs == [] then [] else Reversed(xs[1..]) + [xs[0]]
  }

  lemma {:induction false} ReversedAt(xs: seq<Addr>)
    ensures |Reversed(xs)| == |xs| && forall k | 0 <= k < |xs| :: Reversed(xs)[k] == xs[|xs| - 1 - k]
  {
    if xs != [] {
      ReversedAt(xs[1..]);
    }
  }

  lemma IsReversed(xs: seq<Addr>, s: seq<Addr>)
    requires |s| == |xs| && forall k | 0 <= k < |s| :: s[k] == xs[|xs| - 1 - k]
    ensures s == Reversed(xs)
  {
    ReversedAt(xs);
  }

  /** The words of memory outside the hooks `touched` are as they were. */
  ghost predicate Elsewhere(m: map<Addr, Addr>, m': map<Addr, Addr>, touched: seq<Addr>) {
    m.Keys == m'.Keys && forall a | a in m && a != NULL && a !in touched :: m'[a] == m[a]
  }

  lemma InsertedLinkable(xs: seq<Addr>, i: nat, h: Addr)
    requires Linkable(xs) && i <= |xs| && h !in xs && h != NULL
    ensures Linkable(Inserted(xs, i, h))
  {
    var ys := Inserted(xs, i, h);
    forall j, k | 0 <= j < k < |ys|
      ensures ys[j] != ys[k]
    {
      assert ys[j] == if j < i then xs[j] else if j == i then h else xs[j - 1];
      assert ys[k] == if k < i then xs[k] else if k == i then h else xs[k - 1];
    }
    assert NULL !in xs[..i] && NULL !in xs[i..] && NULL !in [h];
  }

  lemma InsertedAt(xs: seq<Addr>, i: nat, h: Addr, k: int)
    requires i <= |xs|
    ensures At(Inserted(xs, i, h), k) == if k < i then At(xs, k) else if k == i then h else At(xs, k - 1)
  {
    assert i < k <= |xs| ==> Inserted(xs, i, h)[k] == xs[k - 1];
  }

  lemma RemovedLinkable(xs: seq<Addr>, i: nat)
    requires Linkable(xs) && i < |xs|
    ensures Linkable(Removed(xs, i))
  {
    var ys := Removed(xs, i);
    forall j, k | 0 <= j < k < |ys|
      ensures ys[j] != ys[k]
    {
      assert ys[j] == xs[if j < i then j else j + 1] && ys[k] == xs[if k < i then k else k + 1];
    }
    assert NULL !in xs[..i] && NULL !in xs[i + 1..];
  }

  lemma RemovedAt(xs: seq<Addr>, i: nat, k: int)
    requires i < |xs|
    ensures At(Removed(xs, i), k) == if k < i then At(xs, k) else At(xs, k + 1)
  {
    assert i <= k < |xs| - 1 ==> Removed(xs, i)[k] == xs[k + 1];
  }

  lemma Apart(xs: seq<Addr>, i: nat, j: int)
    requires Linkable(xs) && i < |xs| && i != j
    ensures At(xs, i) != At(xs, j)
  {
    assert 0 <= j < |xs| ==> xs[i] != xs[j];
  }
}
