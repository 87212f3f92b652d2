/** Reading a block of header lines. */
module HeaderText {
  import opened Common

  datatype Field = Field(name: seq<Byte>, value: seq<Byte>)

  /** The first position from `i` on of the characters `a`, `b`, or the end. */
  function Find(s: seq<Byte>, i: nat, a: char, b: char): (p: nat)
    requires i <= |s|
    ensures i <= p <= |s| && (p < |s| ==> p + 1 < |s| && Is(s[p], a) && Is(s[p + 1], b))
    decreases |s| - i
  {
    if i + 1 >= |s| then |s| else if Is(s[i], a) && Is(s[i + 1], b) then i else Find(s, i + 1, a, b)
  }

  /** The line that ends at `e`: the name stands before the first ": ", the value behind. */
  function FieldOf(s: seq<Byte>, e: nat): Option<Field>
    requires e <= |s|
  {
    var c := Find(s[..e], 0, ':', ' ');
    if c == e then None else Some(Field(s[..c], s[c + 2..e]))
  }

  function Prepend(f: Option<Field>, more: Option<seq<Field>>): Option<seq<Field>> {
    if f == None || more == None then None else Some([f.value] + more.value)
  }

  /** The lines up to the empty one. */
  function Parsed(s: seq<Byte>): Option<seq<Field>>
    decreases |s|
  {
    var e := Find(s, 0, '\r', '\n');
    if e == |s| then None
    else if e == 0 then if |s| == 2 then Some([]) else None
    else Prepend(FieldOf(s, e), Parsed(s[e + 2..]))
  }

  function Entries(fs: seq<Field>): map<seq<Byte>, seq<Byte>> {
    if fs == [] then map[] else Entries(fs[..|fs| - 1])[fs[|fs| - 1].name := fs[|fs| - 1].value]
  }

  /** All buffers, one behind the other. */
  function Flat(bufs: seq<seq<Byte>>): seq<Byte> {
    if bufs == [] then [] else bufs[0] + Flat(bufs[1..])
  }

  ghost predicate Lacks(s: seq<Byte>, x: char) {
    forall c | c in s :: !Is(c, x)
  }

  /** What a line can carry: a name that is not empty and has no colon, and no carriage return. */
  ghost predicate Readable(f: Field) {
    f.name != [] && Lacks(f.name, ':') && Lacks(f.name, '\r') && Lacks(f.value, '\r')
  }

  lemma {:induction false} FindIs(s: seq<Byte>, i: nat, a: char, b: char, p: nat)
    requires i <= p && p + 1 < |s| && Is(s[p], a) && Is(s[p + 1], b) && forall j | i <= j < p :: !Is(s[j], a)
    ensures Find(s, i, a, b) == p
    decreases p - i
  {
    if i < p {
      FindIs(s, i + 1, a, b, p);
    }
  }

  /** A line and what follows it. */
  lemma ParsedLine(f: Field, colon: seq<Byte>, crlf: seq<Byte>, rest: seq<Byte>)
    requires Readable(f) && Spells(colon, ": ") && Spells(crlf, "\r\n")
    ensures Parsed(f.name + (colon + (f.value + (crlf + rest)))) == Prepend(Some(f), Parsed(rest))
  {
    hide Parsed, Lacks, Is, Spells;
    var c := |f.name|;
    LineCuts(f, colon, crlf, rest);
    ParsedAt(f.name + (colon + (f.value + (crlf + rest))), c, c + 2 + |f.value|);
  }

  /** The first line ends at `e`, its name at `c`. */
  lemma ParsedAt(s: seq<Byte>, c: nat, e: nat)
    requires 0 < c < c + 1 < e + 1 < |s| && Is(s[c], ':') && Is(s[c + 1], ' ') && c + 2 <= e
    requires Is(s[e], '\r') && Is(s[e + 1], '\n')
    requires (forall j | 0 <= j < c :: !Is(s[j], ':')) && (forall j | 0 <= j < e :: !Is(s[j], '\r'))
    ensures Parsed(s) == Prepend(Some(Field(s[..c], s[c + 2..e])), Parsed(s[e + 2..]))
  {
    hide Is, Find, FieldOf, Prepend;
    FindIs(s, 0, '\r', '\n', e);
    FieldEnds(s, c, e);
  }

  lemma FieldEnds(s: seq<Byte>, c: nat, e: nat)
    requires c + 2 <= e <= |s| && Is(s[c], ':') && Is(s[c + 1], ' ') && forall j | 0 <= j < c :: !Is(s[j], ':')
    ensures FieldOf(s, e) == Some(Field(s[..c], s[c + 2..e]))
  {
    hide Is, Find;
    FindInFront(s, c, e);
  }

  lemma FindInFront(s: seq<Byte>, c: nat, e: nat)
    requires c + 2 <= e <= |s| && Is(s[c], ':') && Is(s[c + 1], ' ') && forall j | 0 <= j < c :: !Is(s[j], ':')
    ensures Find(s[..e], 0, ':', ' ') == c
  {
    hide Is, Find;
    FindIs(s[..e], 0, ':', ' ', c);
  }

  lemma LineCuts(f: Field, colon: seq<Byte>, crlf: seq<Byte>, rest: seq<Byte>)
    requires Readable(f) && Spells(colon, ": ") && Spells(crlf, "\r\n")
    ensures var (s, c) := (f.name + (colon + (f.value + (crlf + rest))), |f.name|); var e := c + 2 + |f.value|;
      && 0 < c && c + 2 <= e && e + 1 < |s| && s[..c] == f.name && s[c + 2..e] == f.value && s[e + 2..] == rest
      && Is(s[c], ':') && Is(s[c + 1], ' ') && Is(s[e], '\r') && Is(s[e + 1], '\n')
      && (forall j | 0 <= j < c :: !Is(s[j], ':')) && (forall j | 0 <= j < e :: !Is(s[j], '\r'))
  {
    var s := f.name + (colon + (f.value + (crlf + rest)));
    assert forall j | 0 <= j < |f.name| :: s[j] == f.name[j];
    assert forall j | 0 <= j < |f.value| :: s[|f.name| + 2 + j] == f.value[j];
  }

  /** The slots of a vector that carries the fields `fs` behind its first buffer. */
  ghost predicate Carries(iov: seq<seq<Byte>>, fs: seq<Field>) {
    && |iov| == 4 * |fs| + 2 && Spells(iov[4 * |fs| + 1], "\r\n")
    && (forall k | 0 <= k < |fs| :: iov[4 * k + 1] == fs[k].name)
    && (forall k | 0 <= k < |fs| :: Spells(iov[4 * k + 2], ": "))
    && (forall k | 0 <= k < |fs| :: iov[4 * k + 3] == fs[k].value)
    && (forall k | 0 <= k < |fs| :: Spells(iov[4 * k + 4], "\r\n"))
  }

  /** Reading what was written: from field `k` on. */
  lemma {:induction false} ReadsBack(iov: seq<seq<Byte>>, fs: seq<Field>, k: nat)
    requires Carries(iov, fs) && k <= |fs| && forall f | f in fs :: Readable(f)
    ensures Parsed(Flat(iov[4 * k + 1..])) == Some(fs[k..])
    decreases |fs| - k
  {
    hide Parsed, Spells, Flat, Readable;
    var i := 4 * k + 1;
    if k == |fs| {
      FlatOne(iov, i);
      EmptyLine(iov[i]);
      assert iov[i + 1..] == [];
      NoBuffers(iov[i]);
    } else {
      ReadsBack(iov, fs, k + 1);
      FlatFour(iov, i);
      ParsedLine(fs[k], iov[i + 1], iov[i + 3], Flat(iov[i + 4..]));
      assert fs[k..] == [fs[k]] + fs[k + 1..];
    }
  }

  lemma EmptyLine(s: seq<Byte>)
    requires Spells(s, "\r\n")
    ensures Parsed(s) == Some([])
  {
  }

  lemma NoBuffers(s: seq<Byte>)
    ensures s + Flat([]) == s
  {
  }

  lemma FlatFour(iov: seq<seq<Byte>>, i: nat)
    requires i + 4 <= |iov|
    ensures Flat(iov[i..]) == iov[i] + (iov[i + 1] + (iov[i + 2] + (iov[i + 3] + Flat(iov[i + 4..]))))
  {
    FlatOne(iov, i);
    FlatOne(iov, i + 1);
    FlatOne(iov, i + 2);
    FlatOne(iov, i + 3);
  }

  lemma FlatOne(iov: seq<seq<Byte>>, i: nat)
    requires i < |iov|
    ensures Flat(iov[i..]) == iov[i] + Flat(iov[i + 1..])
  {
    assert iov[i..][1..] == iov[i + 1..];
  }
}
