/** The growable byte stream between a writer and a reader. */
module Sponges {

  import opened Common

  datatype Error = Ok | NoMemory

  /** The bytes of several buffers, one after the other. */
  ghost function Gathered(bufs: seq<array<Byte>>): seq<Byte>
    reads bufs
  {
    if bufs == [] then [] else bufs[0][..] + Gathered(bufs[1..])
  }

  class Sponge {
    const pageSize: nat
    var base: array?<Byte>
    var cur: nat           // offset of the first unread byte
    var size: nat
    var capacity: nat

    // What has gone in, what has come out, and how many bytes reallocations have copied.
    ghost var written: seq<Byte>
    ghost var taken: seq<Byte>
    ghost var copied: nat

    ghost function Unread(): seq<Byte>
      requires Shape()
      reads this, base
    {
      if base == null then [] else base[cur..size]
    }

    ghost predicate Shape()
      reads this, base
    {
      if base == null then cur == size == capacity == 0
      else cur <= size <= capacity == base.Length && 0 < capacity
    }

    /** Nothing is lost, doubled or reordered; and copying is paid for by what was written. */
    ghost predicate Valid()
      reads this, base
    {
      && 0 < pageSize && Shape() && taken + Unread() == written
      && size <= |written| && copied <= capacity <= Max(pageSize, 2 * |written|)
    }

    constructor (page: nat)
      requires 0 < page
      ensures Valid() && written == [] && taken == [] && base == null && pageSize == page
    {
      pageSize, base, cur, size, capacity := page, null, 0, 0, 0;
      written, taken, copied := [], [], 0;
    }

    /** dfk__sponge_write; `granted` is the allocator's answer, if it is asked. */
    method Write(buf: array<Byte>, granted: bool) returns (r: Error)
      requires Valid() && 0 < buf.Length && buf != base
      modifies this, base
      ensures Valid() && taken == old(taken) && (base == old(base) || fresh(base))
      ensures r == Ok ==> written == old(written) + buf[..]
      ensures r == NoMemory ==> written == old(written) && base == old(base) && size == old(size) && cur == old(cur)
      ensures r == NoMemory ==> capacity == old(capacity) && copied == old(copied) && Unread() == old(Unread())
      ensures r == NoMemory <==> !granted && buf.Length > old(capacity - size)
    {
      hide Max;
      AllowanceGrows(pageSize, |written|, buf.Length);
      if capacity == 0 {
        if !granted {
          return NoMemory;
        }
        Start(buf);
      } else if buf.Length <= capacity - size {
        Squeeze(buf);
      } else {
        if !granted {
          return NoMemory;
        }
        PaidFor(pageSize, |written|, buf.Length, size, capacity, cur, copied);
        Grow(buf);
      }
      Associates(taken, old(Unread()), buf[..]);
      written := written + buf[..];
      return Ok;
    }

    /** The first allocation. */
    method Start(buf: array<Byte>)
      requires Valid() && capacity == 0 && 0 < buf.Length
      modifies `base, `cur, `size, `capacity
      ensures fresh(base) && Shape() && Unread() == buf[..] && old(Unread()) == []
      ensures size == buf.Length && capacity == Max(buf.Length, pageSize)
    {
      var room := Max(buf.Length, pageSize);
      base := new Byte[room];
      cur, size, capacity := 0, buf.Length, room;
      forall i | 0 <= i < buf.Length {
        base[i] := buf[i];
      }
    }

    /** There is room behind the last byte. */
    method Squeeze(buf: array<Byte>)
      requires Shape() && base != null && buf != base && buf.Length <= capacity - size
      modifies `size, base
      ensures Shape() && Unread() == old(Unread()) + buf[..] && size == old(size) + buf.Length
    {
      forall i | 0 <= i < buf.Length {
        base[size + i] := buf[i];
      }
      size := size + buf.Length;
    }

    /** The unread bytes are copied to the front of a larger buffer, the new ones behind them. */
    method Grow(buf: array<Byte>)
      requires Shape() && base != null && buf != base && buf.Length > capacity - size
      modifies `base, `cur, `size, `capacity, `copied
      ensures fresh(base) && Shape() && Unread() == old(Unread()) + buf[..]
      ensures size == old(size - cur) + buf.Length && copied == old(copied) + old(size - cur)
      ensures capacity == old(capacity) + Max(old(size - cur) + buf.Length, old(capacity))
    {
      var nused := size - cur;
      var newsize := capacity + Max(nused + buf.Length, capacity);
      var newbase := new Byte[newsize];
      forall i | 0 <= i < nused {
        newbase[i] := base[cur + i];
      }
      forall i | 0 <= i < buf.Length {
        newbase[nused + i] := buf[i];
      }
      base, cur, capacity, size := newbase, 0, newsize, nused + buf.Length;
      copied := copied + nused;
    }

    /** dfk__sponge_writev: it stops at the first write that fails; those before it stay written. */
    method WriteV(bufs: seq<array<Byte>>, granted: seq<bool>) returns (r: Error, ghost k: nat)
      requires Valid() && bufs != [] && |granted| == |bufs| && forall b | b in bufs :: 0 < b.Length && b != base
      modifies this, base
      ensures Valid() && taken == old(taken) && k <= |bufs|
      ensures written == old(written) + Gathered(bufs[..k])
      ensures if r == Ok then k == |bufs| else k < |bufs| && !granted[k] && bufs[k].Length > capacity - size
    {
      hide Gathered, Max, Min;
      NoBuffers();
      k := 0;
      for i := 0 to |bufs|
        invariant k == i && Valid() && taken == old(taken) && (base == old(base) || fresh(base))
        invariant written == old(written) + Gathered(bufs[..i])
        invariant forall b | b in bufs :: b[..] == old(b[..])
      {
        var e := Write(bufs[i], granted[i]);
        if e != Ok {
          return e, i;
        }
        GatheredNext(bufs, i);
        Associates(old(written), Gathered(bufs[..i]), bufs[i][..]);
        k := i + 1;
      }
      assert bufs[..|bufs|] == bufs;
      return Ok, |bufs|;
    }

    /** dfk__sponge_read: as many bytes as there are, but no more than fit. */
    method Read(buf: array<Byte>) returns (n: nat)
      requires Valid() && 0 < buf.Length && buf != base
      modifies `cur, `taken, buf
      ensures Valid() && n == Min(buf.Length, |old(Unread())|)
      ensures buf[..n] == old(Unread())[..n] && buf[n..] == old(buf[..])[n..]
      ensures taken == old(taken) + buf[..n] && Unread() == old(Unread())[n..]
    {
      hide Max;
      ghost var u := Unread();
      if size == 0 {
        assert taken + buf[..0] == taken;
        return 0;
      }
      n := Min(buf.Length, size - cur);
      forall i | 0 <= i < n {
        buf[i] := base[cur + i];
      }
      assert forall i | 0 <= i < n :: buf[i] == u[i];
      assert forall i | n <= i < |u| :: base[cur + i] == u[i];
      taken := taken + buf[..n];
      cur := cur + n;
      assert buf[..n] == u[..n] && base[cur..size] == u[n..];
      Associates(old(taken), u[..n], u[n..]);
      assert u[..n] + u[n..] == u;
    }

    /** Of the bytes `u` that were unread, the first `n` have been taken, after `t`, and fill the front
        of the buffers, which held `g`; the rest of the buffers is as it was, the others are unread. */
    ghost predicate SoFar(bufs: seq<array<Byte>>, n: nat, t: seq<Byte>, u: seq<Byte>, g: seq<Byte>)
      reads this, base, bufs
      requires Shape() && n <= |u| && n <= |g|
    {
      taken == t + u[..n] && Unread() == u[n..] && Gathered(bufs) == u[..n] + g[n..]
    }

    /** dfk__sponge_readv: buffer after buffer, until one read gives nothing. The buffers receive the
        oldest unread bytes, as many as there are and fit, and keep what they held behind these. */
    method ReadV(bufs: seq<array<Byte>>) returns (total: nat)
      requires Valid() && bufs != [] && Distinct(bufs) && forall b | b in bufs :: 0 < b.Length && b != base
      modifies `cur, `taken, set b | b in bufs
      ensures Valid() && total == Min(Room(bufs), |old(Unread())|) && |old(Gathered(bufs))| == Room(bufs)
      ensures Gathered(bufs) == old(Unread())[..total] + old(Gathered(bufs))[total..]
      ensures taken == old(taken) + old(Unread())[..total] && Unread() == old(Unread())[total..]
    {
      hide Gathered, Room, Max;
      total := 0;
      var i := 0;
      ghost var t, u, g := taken, Unread(), Gathered(bufs);
      NoBuffers();
      GatheredLength(bufs);
      assert bufs[..0] == [] && t + [] == t && [] + g == g;
      while i < |bufs|
        invariant i <= |bufs| && Valid() && base == old(base)
        invariant total == Min(Room(bufs[..i]), |u|) <= |g| && SoFar(bufs, total, t, u, g)
      {
        var n := ReadNext(bufs, i, total, t, u, g);
        total := total + n;
        i := i + 1;
        if n == 0 {
          break;
        }
      }
      RoomPrefix(bufs, i);
      assert bufs[..|bufs|] == bufs;
    }

    /** One turn of the loop: the bytes go behind those of the buffers before. */
    method ReadNext(bufs: seq<array<Byte>>, i: nat, ghost total: nat, ghost t: seq<Byte>, ghost u: seq<Byte>,
                    ghost g: seq<Byte>) returns (n: nat)
      requires Valid() && i < |bufs| && Distinct(bufs) && 0 < bufs[i].Length && bufs[i] != base
      requires |g| == Room(bufs) && total == Min(Room(bufs[..i]), |u|) <= |g| && SoFar(bufs, total, t, u, g)
      modifies `cur, `taken, bufs[i]
      ensures Valid() && total + n == Min(Room(bufs[..i + 1]), |u|) <= |g| && SoFar(bufs, total + n, t, u, g)
      ensures n == 0 ==> total == |u|
    {
      hide Gathered, Room, Max, Distinct;
      RoomNext(bufs, i);
      RoomPrefix(bufs, i + 1);
      GatheredAround(bufs, i);
      GatheredLength(bufs[..i]);
      Elsewhere(bufs, i);
      ghost var p, b, q := Gathered(bufs[..i]), bufs[i][..], Gathered(bufs[i + 1..]);
      n := Read(bufs[i]);
      GatheredAround(bufs, i);
      assert Gathered(bufs[..i]) == p && Gathered(bufs[i + 1..]) == q;
      Extended(p, b, bufs[i][..], q, u, g, total, n);
      Associates(t, u[..total], bufs[i][..n]);
    }
  }

  /** Two ways to write a sequence as two parts of the same lengths. */
  lemma SameParts(a: seq<Byte>, b: seq<Byte>, c: seq<Byte>, d: seq<Byte>)
    requires a + b == c + d && |a| == |c|
    ensures a == c && b == d
  {
    assert a == (a + b)[..|a|] && c == (c + d)[..|c|];
    assert b == (a + b)[|a|..] && d == (c + d)[|c|..];
  }

  lemma Cut(b: seq<Byte>, q: seq<Byte>, n: nat)
    requires n <= |b|
    ensures b == b[..n] + b[n..] && (b + q)[n..] == b[n..] + q
  {
  }

  lemma CutTwice(u: seq<Byte>, k: nat, n: nat)
    requires k + n <= |u|
    ensures u[..k] + u[k..][..n] == u[..k + n] && u[k..][n..] == u[k + n..]
  {
  }

  /** A buffer that receives bytes behind `p` extends what has been received. */
  lemma Extended(p: seq<Byte>, b: seq<Byte>, b': seq<Byte>, q: seq<Byte>, u: seq<Byte>, g: seq<Byte>, total: nat, n: nat)
    requires total <= |u| && total <= |g| && p + b + q == u[..total] + g[total..] && n <= |b| == |b'|
    requires total + n <= |u| && (n == 0 || total == |p|)
    requires b'[..n] == u[total..][..n] && b'[n..] == b[n..]
    ensures total + n <= |g| && p + b' + q == u[..total + n] + g[total + n..]
    ensures u[..total] + b'[..n] == u[..total + n] && u[total..][n..] == u[total + n..]
  {
    CutTwice(u, total, n);
    Cut(b, q, n);
    Cut(b', q, n);
    if n == 0 {
      assert b' == b;
    } else {
      Associates(p, b, q);
      SameParts(p, b + q, u[..total], g[total..]);
      CutTwice(g, total, n);
      Associates(p, b'[..n] + b'[n..], q);
      Associates(b'[..n], b'[n..], q);
      Associates(p, b'[..n], b[n..] + q);
    }
  }

  lemma {:induction false} GatheredAround(bufs: seq<array<Byte>>, i: nat)
    requires i < |bufs|
    ensures Gathered(bufs) == Gathered(bufs[..i]) + bufs[i][..] + Gathered(bufs[i + 1..])
    decreases i
  {
    if i == 0 {
      assert bufs[..0] == [] && [] + bufs[0][..] == bufs[0][..];
    } else {
      var rest := bufs[1..];
      assert rest[..i - 1] == bufs[..i][1..] && rest[i..] == bufs[i + 1..];
      GatheredAround(rest, i - 1);
      Associates(bufs[0][..], Gathered(rest[..i - 1]), bufs[i][..]);
      Associates(bufs[0][..], Gathered(rest[..i - 1]) + bufs[i][..], Gathered(bufs[i + 1..]));
    }
  }

  ghost predicate Distinct(bufs: seq<array<Byte>>) {
    forall i, j | 0 <= i < j < |bufs| :: bufs[i] != bufs[j]
  }

  lemma Elsewhere(bufs: seq<array<Byte>>, i: nat)
    requires Distinct(bufs) && i < |bufs|
    ensures bufs[i] !in bufs[..i] && bufs[i] !in bufs[i + 1..]
  {
  }

  lemma NoBuffers()
    ensures Gathered([]) == [] && Room([]) == 0
  {
  }

  lemma {:induction false} GatheredLength(bufs: seq<array<Byte>>)
    ensures |Gathered(bufs)| == Room(bufs)
  {
    if bufs != [] {
      GatheredLength(bufs[1..]);
    }
  }

  function Room(bufs: seq<array<Byte>>): nat {
    if bufs == [] then 0 else bufs[0].Length + Room(bufs[1..])
  }

  lemma {:induction false} RoomAppend(bufs: seq<array<Byte>>, b: array<Byte>)
    ensures Room(bufs + [b]) == Room(bufs) + b.Length
  {
    if bufs == [] {
      assert [b][1..] == [] && bufs + [b] == [b];
    } else {
      assert (bufs + [b])[0] == bufs[0] && (bufs + [b])[1..] == bufs[1..] + [b];
      RoomAppend(bufs[1..], b);
    }
  }

  lemma {:induction false} RoomPrefix(bufs: seq<array<Byte>>, i: nat)
    requires i <= |bufs|
    ensures Room(bufs[..i]) <= Room(bufs)
  {
    if i > 0 {
      assert bufs[..i][0] == bufs[0] && bufs[..i][1..] == bufs[1..][..i - 1];
      RoomPrefix(bufs[1..], i - 1);
    }
  }

  lemma {:induction false} GatheredAppend(bufs: seq<array<Byte>>, b: array<Byte>)
    ensures Gathered(bufs + [b]) == Gathered(bufs) + b[..]
  {
    if bufs == [] {
      assert [b][1..] == [] && bufs + [b] == [b];
    } else {
      assert (bufs + [b])[0] == bufs[0] && (bufs + [b])[1..] == bufs[1..] + [b];
      GatheredAppend(bufs[1..], b);
    }
  }

  lemma GatheredNext(bufs: seq<array<Byte>>, i: nat)
    requires i < |bufs|
    ensures Gathered(bufs[..i + 1]) == Gathered(bufs[..i]) + bufs[i][..]
  {
    GatheredAppend(bufs[..i], bufs[i]);
    assert bufs[..i] + [bufs[i]] == bufs[..i + 1];
  }

  lemma RoomNext(bufs: seq<array<Byte>>, i: nat)
    requires i < |bufs|
    ensures Room(bufs[..i + 1]) == Room(bufs[..i]) + bufs[i].Length
  {
    RoomAppend(bufs[..i], bufs[i]);
    assert bufs[..i] + [bufs[i]] == bufs[..i + 1];
  }

  /** Writing raises the bound on the capacity, which the first allocation meets. */
  lemma AllowanceGrows(page: nat, written: nat, n: nat)
    ensures Max(page, 2 * written) <= Max(page, 2 * (written + n)) && Max(n, page) <= Max(page, 2 * (written + n))
  {
  }

  /** A reallocation is paid for: it happens only when everything written exceeds the capacity. */
  lemma PaidFor(page: nat, written: nat, n: nat, size: nat, capacity: nat, cur: nat, copied: nat)
    requires cur <= size <= written && size <= capacity < size + n && copied <= capacity <= Max(page, 2 * written)
    ensures var capacity' := capacity + Max(size - cur + n, capacity);
      copied + (size - cur) <= capacity' <= Max(page, 2 * (written + n)) && size - cur + n <= written + n
  {
  }

  lemma Associates(a: seq<Byte>, b: seq<Byte>, c: seq<Byte>)
    ensures a + (b + c) == a + b + c
  {
  }
}
