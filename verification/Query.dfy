/** The scan of a decoded query string into arguments. */
module Queries {
  import opened Common
  import opened UrlEncoding

  const EQUALS: Byte := 0x3D
  const AMPERSAND: Byte := 0x26

  datatype Pair = Pair(key: seq<Byte>, value: seq<Byte>)

  datatype Result<+T> = Ok(value: T) | ProtocolError

  /** The first position from `from` on that holds `c`, or the end. */
  function Index(s: seq<Byte>, from: nat, c: Byte): (i: nat)
    requires from <= |s|
    ensures from <= i <= |s| && c !in s[from..i] && (i < |s| ==> s[i] == c)
    decreases |s| - from
  {
    if from == |s| || s[from] == c then from
    else
      var i := Index(s, from + 1, c);
      assert s[from..i] == [s[from]] + s[from + 1..i];
      i
  }

  lemma {:induction false} IndexIs(s: seq<Byte>, from: nat, c: Byte, i: nat)
    requires from <= i <= |s| && c !in s[from..i] && (i < |s| ==> s[i] == c)
    ensures Index(s, from, c) == i
    decreases i - from
  {
    if from < i {
      assert s[from..i] == [s[from]] + s[from + 1..i];
      IndexIs(s, from + 1, c, i);
    }
  }

  // ---- Printing ----

  /** What the scan can tell apart: the first byte of a key or a value may be anything. */
  ghost predicate Scannable(p: Pair) {
    p.key != [] && p.value != [] && EQUALS !in p.key[1..] && AMPERSAND !in p.value[1..]
  }

  ghost predicate AllScannable(ps: seq<Pair>) {
    forall p | p in ps :: Scannable(p)
  }

  function Print(p: Pair): seq<Byte> {
    p.key + [EQUALS] + p.value
  }

  function Join(ps: seq<Pair>): seq<Byte> {
    if ps == [] then [] else if |ps| == 1 then Print(ps[0]) else Print(ps[0]) + [AMPERSAND] + Join(ps[1..])
  }

  // ---- Scanning ----

  function Prepend(p: Pair, r: Result<seq<Pair>>): Result<seq<Pair>> {
    if r.Ok? then Ok([p] + r.value) else r
  }

  /** The pairs of a query, one pair at a time. */
  function Scan(s: seq<Byte>): Result<seq<Pair>>
    decreases |s|, 1
  {
    if s == [] then Ok([])
    else
      var e := Index(s, 1, EQUALS);
      if e + 1 >= |s| then ProtocolError
      else
        var a := Index(s, e + 2, AMPERSAND);
        Prepend(Pair(s[..e], s[e + 1..a]), ScanAfter(s, a))
  }

  /** The pairs behind position `a`. */
  function ScanAfter(s: seq<Byte>, a: nat): Result<seq<Pair>>
    decreases |s|, 0
  {
    if a >= |s| then Ok([]) else Scan(s[a + 1..])
  }

  /** The first pair of `s` has its sign at `e` and ends at `a`. */
  lemma FirstPair(s: seq<Byte>, e: nat, a: nat)
    requires 0 < e && e + 1 < a <= |s| && s[e] == EQUALS && (a < |s| ==> s[a] == AMPERSAND)
    requires EQUALS !in s[1..e] && AMPERSAND !in s[e + 2..a]
    ensures Scan(s) == Prepend(Pair(s[..e], s[e + 1..a]), ScanAfter(s, a))
  {
    IndexIs(s, 1, EQUALS, e);
    IndexIs(s, e + 2, AMPERSAND, a);
  }

  /** One printed pair, followed by the end, or by a separator and more. */
  lemma ScanPrinted(p: Pair, rest: seq<Byte>)
    requires Scannable(p) && (rest == [] || rest[0] == AMPERSAND)
    ensures Scan(Print(p) + rest) == Prepend(p, if rest == [] then Ok([]) else Scan(rest[1..]))
  {
    var s, e := Print(p) + rest, |p.key|;
    var a := e + 1 + |p.value|;
    Cuts(p, rest);
    FirstPair(s, e, a);
  }

  lemma Cuts(p: Pair, rest: seq<Byte>)
    requires p.key != [] && p.value != []
    ensures var (s, e) := (Print(p) + rest, |p.key|); var a := e + 1 + |p.value|;
      && s[..e] == p.key && s[e] == EQUALS && s[e + 1..a] == p.value && |s| == a + |rest|
      && s[1..e] == p.key[1..] && s[e + 2..a] == p.value[1..]
      && (rest != [] ==> s[a] == rest[0] && s[a + 1..] == rest[1..])
  {
  }

  /** Scanning undoes printing, with or without a trailing separator. */
  lemma {:induction false} ScanUndoesJoin(ps: seq<Pair>)
    requires AllScannable(ps)
    ensures Scan(Join(ps)) == Ok(ps)
    ensures ps != [] ==> Scan(Join(ps) + [AMPERSAND]) == Ok(ps)
    decreases |ps|
  {
    if ps != [] {
      var p, rest := ps[0], ps[1..];
      assert ps == [p] + rest && p in ps;
      assert forall q | q in rest :: q in ps;
      ScanUndoesJoin(rest);
      if rest == [] {
        assert Print(p) + [] == Print(p) && [AMPERSAND][1..] == [];
        ScanPrinted(p, []);
        ScanPrinted(p, [AMPERSAND]);
      } else {
        JoinedTail(p, Join(rest));
        ScanPrinted(p, [AMPERSAND] + Join(rest));
        ScanPrinted(p, [AMPERSAND] + (Join(rest) + [AMPERSAND]));
      }
    }
  }

  lemma JoinedTail(p: Pair, t: seq<Byte>)
    ensures Print(p) + [AMPERSAND] + t == Print(p) + ([AMPERSAND] + t)
    ensures Print(p) + [AMPERSAND] + t + [AMPERSAND] == Print(p) + ([AMPERSAND] + (t + [AMPERSAND]))
    ensures ([AMPERSAND] + t)[1..] == t && ([AMPERSAND] + (t + [AMPERSAND]))[1..] == t + [AMPERSAND]
  {
  }

  ghost predicate Printed(s: seq<Byte>, ps: seq<Pair>) {
    AllScannable(ps) && (s == Join(ps) || (ps != [] && s == Join(ps) + [AMPERSAND]))
  }

  /** Every accepted query is the join of its pairs, but for an optional trailing separator. */
  lemma {:induction false} JoinUndoesScan(s: seq<Byte>)
    requires Scan(s).Ok?
    ensures Printed(s, Scan(s).value)
    decreases |s|
  {
    if s != [] {
      var e := Index(s, 1, EQUALS);
      var a := Index(s, e + 2, AMPERSAND);
      var p := Pair(s[..e], s[e + 1..a]);
      assert p.key[1..] == s[1..e] && p.value[1..] == s[e + 2..a];
      assert s[..a] == Print(p);
      if a < |s| {
        JoinUndoesScan(s[a + 1..]);
        Around(s, a);
        PrintedMore(p, s[a + 1..], Scan(s[a + 1..]).value);
      }
    }
  }

  lemma Around(s: seq<Byte>, a: nat)
    requires a < |s|
    ensures s == s[..a] + [s[a]] + s[a + 1..]
  {
  }

  lemma PrintedMore(p: Pair, t: seq<Byte>, ps: seq<Pair>)
    requires Scannable(p) && Printed(t, ps)
    ensures Printed(Print(p) + [AMPERSAND] + t, [p] + ps)
  {
    assert ([p] + ps)[1..] == ps;
    JoinedTail(p, Join(ps));
    assert t == [] ==> Print(p) + [AMPERSAND] + t == Print(p) + [AMPERSAND];
    assert Print(p) + [AMPERSAND] + (Join(ps) + [AMPERSAND]) == Print(p) + [AMPERSAND] + Join(ps) + [AMPERSAND];
  }

  /** A query is accepted, with the pairs `ps`, exactly when it prints them. */
  lemma ScanIff(s: seq<Byte>, ps: seq<Pair>)
    ensures Scan(s) == Ok(ps) <==> Printed(s, ps)
  {
    if Scan(s) == Ok(ps) {
      JoinUndoesScan(s);
    }
    if Printed(s, ps) {
      ScanUndoesJoin(ps);
    }
  }

  // ---- The code ----

  datatype State = Initial | Key | Sign | Value

  function Append(done: seq<Pair>, r: Result<seq<Pair>>): Result<seq<Pair>> {
    if r.Ok? then Ok(done + r.value) else r
  }

  lemma AppendNone(r: Result<seq<Pair>>)
    ensures Append([], r) == r
  {
    if r.Ok? {
      assert [] + r.value == r.value;
    }
  }

  lemma AppendError(done: seq<Pair>)
    ensures Append(done, ProtocolError) == ProtocolError
  {
  }

  lemma ScanEnds(s: seq<Byte>)
    ensures Scan(s[|s|..]) == Ok([]) && ScanAfter(s, |s|) == Ok([])
  {
  }

  lemma ScanGoesOn(s: seq<Byte>, a: nat)
    requires a < |s|
    ensures ScanAfter(s, a) == Scan(s[a + 1..])
  {
  }

  lemma AppendEmpty(done: seq<Pair>)
    ensures Append(done, Ok([])) == Ok(done)
  {
    assert done + [] == done;
  }

  lemma AppendPrepend(done: seq<Pair>, p: Pair, r: Result<seq<Pair>>)
    ensures Append(done, Prepend(p, r)) == Append(done + [p], r)
  {
    if r.Ok? {
      assert done + ([p] + r.value) == done + [p] + r.value;
    }
  }

  lemma Shifted(s: seq<Byte>, b: nat, e: nat, a: nat)
    requires b < e && e + 1 < a <= |s|
    ensures var t := s[b..];
      && t[1..e - b] == s[b + 1..e] && t[e - b + 2..a - b] == s[e + 2..a] && t[..e - b] == s[b..e]
      && t[e - b + 1..a - b] == s[e + 1..a] && (a < |s| ==> t[a - b + 1..] == s[a + 1..])
  {
  }

  /** The pair that begins at `b` has its sign at `e` and ends at `a`. */
  lemma PairAt(s: seq<Byte>, b: nat, e: nat, a: nat)
    requires b < e && e + 1 < a <= |s| && s[e] == EQUALS && (a < |s| ==> s[a] == AMPERSAND)
    requires EQUALS !in s[b + 1..e] && AMPERSAND !in s[e + 2..a]
    ensures Scan(s[b..]) == Prepend(Pair(s[b..e], s[e + 1..a]), ScanAfter(s, a))
  {
    hide Scan;
    var t := s[b..];
    Shifted(s, b, e, a);
    FirstPair(t, e - b, a - b);
  }

  /** The pair that begins at `b` never gets a value. */
  lemma NoPairAt(s: seq<Byte>, b: nat, e: nat)
    requires b < e <= |s| <= e + 1 && EQUALS !in s[b + 1..e] && (e < |s| ==> s[e] == EQUALS)
    ensures Scan(s[b..]) == ProtocolError
  {
    var t := s[b..];
    assert t[1..e - b] == s[b + 1..e];
    IndexIs(t, 1, EQUALS, e - b);
  }

  lemma PairDone(s: seq<Byte>, done: seq<Pair>, b: nat, e: nat, a: nat)
    requires b < e && e + 1 < a <= |s| && s[e] == EQUALS && (a < |s| ==> s[a] == AMPERSAND)
    requires EQUALS !in s[b + 1..e] && AMPERSAND !in s[e + 2..a]
    ensures Append(done, Scan(s[b..])) ==
            Append(done + [Pair(s[b..e], s[e + 1..a])], ScanAfter(s, a))
  {
    PairAt(s, b, e, a);
    AppendPrepend(done, Pair(s[b..e], s[e + 1..a]), ScanAfter(s, a));
  }

  lemma Slide(s: seq<Byte>, b: nat, i: nat)
    requires b <= i < |s|
    ensures s[b..i + 1] == s[b..i] + [s[i]]
  {
  }

  /** The scanning loop of dfk__http_request_read_headers. */
  method ScanQuery(query: array<Byte>, size: nat) returns (r: Result<seq<Pair>>)
    requires size <= query.Length
    ensures r == Scan(query[..size])
  {
    hide Scan, ScanAfter, Append;
    ghost var s := query[..size];
    ScanEnds(s);
    var state, args := Initial, [];
    var keyBegin, keyEnd, valueBegin := 0, 0, 0;
    assert s[0..] == s;
    AppendNone(Scan(s));
    for i := 0 to size
      invariant state == Initial ==> Scan(s) == Append(args, Scan(s[i..]))
      invariant state != Initial ==> keyBegin < i && Scan(s) == Append(args, Scan(s[keyBegin..]))
      invariant state == Key ==> EQUALS !in s[keyBegin + 1..i]
      invariant state == Sign || state == Value ==> keyBegin < keyEnd < i && s[keyEnd] == EQUALS
      invariant state == Sign || state == Value ==> EQUALS !in s[keyBegin + 1..keyEnd]
      invariant state == Sign ==> i == keyEnd + 1
      invariant state == Value ==> valueBegin == keyEnd + 1 < i && AMPERSAND !in s[valueBegin + 1..i]
    {
      match state
      case Initial =>
        keyBegin := i;
        state := Key;
      case Key =>
        if query[i] == EQUALS {
          keyEnd := i;
          state := Sign;
        } else {
          Slide(s, keyBegin + 1, i);
        }
      case Sign =>
        valueBegin := i;
        state := Value;
      case Value =>
        if query[i] == AMPERSAND {
          PairDone(s, args, keyBegin, keyEnd, i);
          ScanGoesOn(s, i);
          assert query[keyBegin..keyEnd] == s[keyBegin..keyEnd] && query[valueBegin..i] == s[valueBegin..i];
          args := args + [Pair(query[keyBegin..keyEnd], query[valueBegin..i])];
          state := Initial;
        } else {
          Slide(s, valueBegin + 1, i);
        }
    }
    if state != Initial && state != Value {
      NoPairAt(s, keyBegin, if state == Key then |s| else keyEnd);
      AppendError(args);
      return ProtocolError;
    }
    if state == Value {
      PairDone(s, args, keyBegin, keyEnd, |s|);
      assert query[keyBegin..keyEnd] == s[keyBegin..keyEnd] && query[valueBegin..size] == s[valueBegin..size];
      args := args + [Pair(query[keyBegin..keyEnd], query[valueBegin..size])];
    }
    AppendEmpty(args);
    return Ok(args);
  }

  // ---- From the raw query ----

  /** What a raw query means: it must be percent-encoding to its end. */
  function Arguments(raw: seq<Byte>): Result<seq<Pair>> {
    if Consumed(raw) == |raw| then Scan(Decoded(raw)) else ProtocolError
  }

  /** Exactly the percent-encodings of printed pairs are accepted, and as those pairs. */
  method ReadQuery(raw: array<Byte>) returns (r: Result<seq<Pair>>)
    ensures r == Arguments(raw[..])
    ensures forall ps :: r == Ok(ps) <==> Consumed(raw[..]) == raw.Length && Printed(Decoded(raw[..]), ps)
  {
    forall ps
      ensures Arguments(raw[..]) == Ok(ps) <==> Consumed(raw[..]) == raw.Length && Printed(Decoded(raw[..]), ps)
    {
      AcceptedIff(raw[..], ps);
    }
    if raw.Length == 0 {
      NothingMore([]);
      assert raw[..] == [];
      return Ok([]);
    }
    TokensRender(raw[..]);
    var decoded := new Byte[raw.Length];
    var consumed, n := Decode(raw, decoded);
    if consumed != raw.Length {
      return ProtocolError;
    }
    r := ScanQuery(decoded, n);
  }

  /** A query printed from any pairs the scan can tell apart, and then percent-encoded, is read
      back as those pairs. */
  lemma ReadsWhatWasWritten(ps: seq<Pair>)
    requires AllScannable(ps)
    ensures Arguments(Encoded(Join(ps))) == Ok(ps)
  {
    RoundTrip(Join(ps));
    ScanUndoesJoin(ps);
  }

  /** Only percent-encodings of printed pairs are accepted. */
  lemma AcceptedIff(raw: seq<Byte>, ps: seq<Pair>)
    ensures Arguments(raw) == Ok(ps) <==> Consumed(raw) == |raw| && Printed(Decoded(raw), ps)
  {
    ScanIff(Decoded(raw), ps);
  }
}
