/** Percent-encoding and decoding, sections 2.1 and 2.3 of RFC 3986. */
module UrlEncoding {
  import opened Common

  const PERCENT: Byte := 0x25
  const SIZE_T: int := 0x1_0000_0000_0000_0000

  /** The table `hex_to_byte`: the value of a hexadecimal digit, 0xFF for other bytes. */
  function HexToByte(c: Byte): Byte {
    if 0x30 <= c <= 0x39 then c - 0x30
    else if 0x41 <= c <= 0x46 then c - 0x37
    else if 0x61 <= c <= 0x66 then c - 0x57
    else 0xFF
  }

  /** The digits of the tables `bytehi_to_hex` and `bytelo_to_hex`. */
  function HexDigit(n: Byte): Byte {
    if n < 10 then 0x30 + n else 0x37 + n
  }

  function HiDigit(b: Byte): Byte {
    HexDigit(b >> 4)
  }

  function LoDigit(b: Byte): Byte {
    HexDigit(b & 0x0F)
  }

  predicate IsHex(c: Byte) {
    HexToByte(c) & 0xF0 == 0
  }

  function FromHex(hi: Byte, lo: Byte): Byte {
    (HexToByte(hi) << 4) | HexToByte(lo)
  }

  predicate Unreserved(c: Byte) {
    || 0x61 <= c <= 0x7A || 0x41 <= c <= 0x5A || 0x30 <= c <= 0x39
    || c == 0x2D || c == 0x2E || c == 0x5F || c == 0x7E
  }

  lemma HexRoundTrip(b: Byte)
    ensures IsHex(HiDigit(b)) && IsHex(LoDigit(b)) && FromHex(HiDigit(b), LoDigit(b)) == b
  {
    HexDigitValue(b >> 4);
    HexDigitValue(b & 0x0F);
    assert (b >> 4) & 0xF0 == 0 && (b & 0x0F) & 0xF0 == 0 && ((b >> 4) << 4) | (b & 0x0F) == b;
  }

  lemma HexDigitValue(n: Byte)
    requires n < 16
    ensures HexToByte(HexDigit(n)) == n
  {
  }

  // ---- What decoding means ----

  datatype Token = Raw(b: Byte) | Escaped(hi: Byte, lo: Byte)

  predicate Legal(t: Token) {
    match t
    case Raw(b) => b != PERCENT
    case Escaped(hi, lo) => IsHex(hi) && IsHex(lo)
  }

  function Written(t: Token): seq<Byte> {
    match t
    case Raw(b) => [b]
    case Escaped(hi, lo) => [PERCENT, hi, lo]
  }

  function Value(t: Token): Byte {
    match t
    case Raw(b) => b
    case Escaped(hi, lo) => FromHex(hi, lo)
  }

  ghost predicate AllLegal(ts: seq<Token>) {
    forall t | t in ts :: Legal(t)
  }

  function Render(ts: seq<Token>): seq<Byte> {
    if ts == [] then [] else Written(ts[0]) + Render(ts[1..])
  }

  function Meaning(ts: seq<Token>): seq<Byte> {
    if ts == [] then [] else [Value(ts[0])] + Meaning(ts[1..])
  }

  /** The token at the front of `s`, if there is one. */
  predicate Starts(s: seq<Byte>) {
    s != [] && (s[0] == PERCENT ==> |s| >= 3 && IsHex(s[1]) && IsHex(s[2]))
  }

  function First(s: seq<Byte>): (t: Token)
    requires Starts(s)
    ensures Legal(t) && Written(t) <= s
  {
    if s[0] == PERCENT then Escaped(s[1], s[2]) else Raw(s[0])
  }

  /** The tokens at the front of `s`, as many as there are. */
  function Tokens(s: seq<Byte>): seq<Token>
    decreases |s|
  {
    if Starts(s) then [First(s)] + Tokens(s[|Written(First(s))|..]) else []
  }

  function Decoded(s: seq<Byte>): seq<Byte> {
    Meaning(Tokens(s))
  }

  function Consumed(s: seq<Byte>): nat {
    |Render(Tokens(s))|
  }

  lemma {:induction false} TokensRender(s: seq<Byte>)
    ensures AllLegal(Tokens(s)) && Render(Tokens(s)) <= s && |Meaning(Tokens(s))| == |Tokens(s)|
    ensures Consumed(s) <= |s| && |Decoded(s)| <= Consumed(s)
    decreases |s|
  {
    if Starts(s) {
      var w := Written(First(s));
      TokensRender(s[|w|..]);
      assert s == w + s[|w|..];
    }
  }

  /** Two token sequences that begin the same bytes agree as far as both go: one begins the other. */
  lemma {:induction false} Unambiguous(ts: seq<Token>, s: seq<Byte>)
    requires AllLegal(ts) && Render(ts) <= s
    ensures ts <= Tokens(s) && |Render(ts)| <= Consumed(s)
    decreases |ts|
  {
    if ts != [] {
      var t, w := ts[0], Written(ts[0]);
      assert t in ts && Legal(t);
      assert Render(ts) == w + Render(ts[1..]);
      assert forall i | 0 <= i < |w| :: s[i] == Render(ts)[i] == w[i];
      assert Starts(s) && First(s) == t;
      assert Render(ts[1..]) <= s[|w|..] by {
        assert Render(ts[1..]) == Render(ts)[|w|..];
      }
      Unambiguous(ts[1..], s[|w|..]);
      assert ts == [t] + ts[1..];
    }
  }

  /** Decoding consumes exactly the longest prefix that is made of bytes other than `%` and of
      `%` with two hexadecimal digits, and gives what that prefix means. */
  lemma LongestPrefix(s: seq<Byte>)
    ensures Consumed(s) <= |s|
    ensures exists ts :: AllLegal(ts) && Render(ts) == s[..Consumed(s)] && Meaning(ts) == Decoded(s)
    ensures forall ts :: AllLegal(ts) && Render(ts) <= s ==> |Render(ts)| <= Consumed(s)
  {
    TokensRender(s);
    forall ts | AllLegal(ts) && Render(ts) <= s
      ensures |Render(ts)| <= Consumed(s)
    {
      Unambiguous(ts, s);
    }
  }

  // ---- Encoding ----

  function EncodedByte(b: Byte): seq<Byte> {
    if Unreserved(b) then [b] else [PERCENT, HiDigit(b), LoDigit(b)]
  }

  function Encoded(s: seq<Byte>): seq<Byte> {
    if s == [] then [] else EncodedByte(s[0]) + Encoded(s[1..])
  }

  lemma EncodedByteStarts(b: Byte, rest: seq<Byte>)
    ensures var s := EncodedByte(b) + rest; Starts(s) && Value(First(s)) == b && Written(First(s)) == EncodedByte(b)
    ensures (EncodedByte(b) + rest)[|EncodedByte(b)|..] == rest
  {
    HexRoundTrip(b);
  }

  /** Decoding what encoding gives consumes all of it and gives back the original. */
  lemma {:induction false} RoundTrip(s: seq<Byte>)
    ensures Consumed(Encoded(s)) == |Encoded(s)| && Decoded(Encoded(s)) == s
  {
    if s != [] {
      RoundTrip(s[1..]);
      EncodedByteStarts(s[0], Encoded(s[1..]));
      assert s == [s[0]] + s[1..];
    }
  }

  /** Only unreserved bytes and triplets with upper-case digits come out, at most three for one. */
  lemma {:induction false} EncodedSafe(s: seq<Byte>)
    ensures forall c | c in Encoded(s) :: Unreserved(c) || c == PERCENT
    ensures |s| <= |Encoded(s)| <= 3 * |s|
  {
    if s != [] {
      EncodedSafe(s[1..]);
      DigitUnreserved(s[0] >> 4);
      DigitUnreserved(s[0] & 0x0F);
      assert forall c | c in EncodedByte(s[0]) :: Unreserved(c) || c == PERCENT;
    }
  }

  lemma DigitUnreserved(n: Byte)
    requires n < 16
    ensures Unreserved(HexDigit(n))
  {
  }

  // ---- Hints ----

  function Percents(s: seq<Byte>): nat {
    if s == [] then 0 else (if s[0] == PERCENT then 1 else 0) + Percents(s[1..])
  }

  lemma {:induction false} PercentsAppend(s: seq<Byte>, t: seq<Byte>)
    ensures Percents(s + t) == Percents(s) + Percents(t)
  {
    if s == [] {
      assert s + t == t;
    } else {
      assert (s + t)[0] == s[0] && (s + t)[1..] == s[1..] + t;
      PercentsAppend(s[1..], t);
    }
  }

  lemma {:induction false} RenderLength(ts: seq<Token>)
    requires AllLegal(ts)
    ensures |Render(ts)| == |Meaning(ts)| + 2 * Percents(Render(ts))
  {
    if ts != [] {
      var t := ts[0];
      assert t in ts && Legal(t);
      RenderLength(ts[1..]);
      PercentsAppend(Written(t), Render(ts[1..]));
      WrittenPercents(t);
    }
  }

  lemma WrittenPercents(t: Token)
    requires Legal(t)
    ensures |Written(t)| == 1 + 2 * Percents(Written(t))
  {
    match t
    case Raw(b) =>
      assert Percents([b]) == Percents([b][1..]);
    case Escaped(hi, lo) =>
      assert hi != PERCENT && lo != PERCENT;
      assert [PERCENT, hi, lo][1..] == [hi, lo] && [hi, lo][1..] == [lo] && [lo][1..] == [];
      assert Percents([lo]) == Percents([lo][1..]) == 0 && Percents([hi, lo]) == Percents([lo]);
  }

  /** What decoding does not consume: from the first `%` without two digits behind it on. */
  function Rest(s: seq<Byte>): seq<Byte> {
    TokensRender(s);
    s[Consumed(s)..]
  }

  /** The decode hint is off by the length of the rest less two for each `%` in it. */
  lemma DecodeHintOff(s: seq<Byte>)
    ensures |s| - 2 * Percents(s) == |Decoded(s)| + |Rest(s)| - 2 * Percents(Rest(s))
  {
    TokensRender(s);
    RenderLength(Tokens(s));
    assert s == Render(Tokens(s)) + Rest(s);
    PercentsAppend(Render(Tokens(s)), Rest(s));
  }

  /** So it is the exact size of the result if and only if half the bytes of the rest are `%`, and
      too small if and only if more are. On input consumed to its end there is no rest. */
  lemma DecodeHintExact(s: seq<Byte>)
    ensures |Decoded(s)| == |s| - 2 * Percents(s) <==> |Rest(s)| == 2 * Percents(Rest(s))
    ensures |Decoded(s)| > |s| - 2 * Percents(s) <==> |Rest(s)| < 2 * Percents(Rest(s))
    ensures Consumed(s) == |s| ==> |Decoded(s)| == |s| - 2 * Percents(s)
  {
    DecodeHintOff(s);
  }

  /** The input "ab%": one byte is promised and two are written. */
  lemma DecodeHintTooSmall()
    ensures var s := [0x61, 0x62, PERCENT]; |s| - 2 * Percents(s) == 1 && Decoded(s) == [0x61, 0x62]
  {
    var s := [0x61, 0x62, PERCENT];
    assert s[1..] == [0x62, PERCENT] && s[1..][1..] == [PERCENT] && [PERCENT][1..] == [];
    FirstToken(s);
    FirstToken(s[1..]);
    NothingMore([PERCENT]);
    assert Percents([PERCENT]) == 1 && Percents(s[1..]) == 1;
  }

  lemma {:induction false} ReservedLength(s: seq<Byte>)
    ensures |Encoded(s)| == |s| + 2 * Reserved(s)
  {
    if s != [] {
      ReservedLength(s[1..]);
    }
  }

  function Reserved(s: seq<Byte>): nat {
    if s == [] then 0 else (if Unreserved(s[0]) then 0 else 1) + Reserved(s[1..])
  }

  // ---- The code ----

  /** Cursor positions `i` in the input and `j` in the output, after whole tokens. */
  ghost predicate SoFar(s: seq<Byte>, i: nat, done: seq<Byte>) {
    i <= |s| && Decoded(s) == done + Decoded(s[i..]) && Consumed(s) == i + Consumed(s[i..])
  }

  lemma FirstToken(r: seq<Byte>)
    requires Starts(r)
    ensures var (t, w) := (First(r), |Written(First(r))|);
      w <= |r| && Decoded(r) == [Value(t)] + Decoded(r[w..]) && Consumed(r) == w + Consumed(r[w..])
  {
    var t, rest := First(r), Tokens(r[|Written(First(r))|..]);
    assert Tokens(r) == [t] + rest;
    assert ([t] + rest)[1..] == rest;
  }

  lemma NothingMore(r: seq<Byte>)
    requires !Starts(r)
    ensures Decoded(r) == [] && Consumed(r) == 0
  {
  }

  lemma TokenDone(s: seq<Byte>, i: nat, done: seq<Byte>, w: nat)
    requires SoFar(s, i, done) && Starts(s[i..]) && w == |Written(First(s[i..]))|
    ensures i + w <= |s| && SoFar(s, i + w, done + [Value(First(s[i..]))]) && |done| < |Decoded(s)|
  {
    FirstToken(s[i..]);
    hide Decoded, Consumed, Starts, First, Written, Value;
    assert s[i..][w..] == s[i + w..];
    Regroup(done, [Value(First(s[i..]))], Decoded(s[i + w..]));
  }

  /** dfk_urldecode; `out` may be `buf`. The output is the same either way. */
  method Decode(buf: array<Byte>, out: array<Byte>) returns (consumed: nat, nwritten: nat)
    requires |Decoded(buf[..])| <= out.Length
    modifies out
    ensures consumed == Consumed(old(buf[..])) && nwritten == |Decoded(old(buf[..]))| <= out.Length
    ensures out[..nwritten] == Decoded(old(buf[..])) && out[nwritten..] == old(out[..])[nwritten..]
  {
    hide Decoded, Consumed, HexToByte;
    ghost var s := buf[..];
    var i, j := 0, 0;
    assert s[0..] == s && [] + Decoded(s) == Decoded(s);
    assert out[..0] == [];
    while i != buf.Length
      invariant j <= i <= buf.Length && j <= out.Length && SoFar(s, i, out[..j])
      invariant forall k | i <= k < buf.Length :: buf[k] == s[k]
      invariant forall k | j <= k < out.Length :: out[k] == old(out[k])
      decreases buf.Length - i
    {
      assert s[i..][0] == buf[i];
      if buf[i] == PERCENT {
        if i + 2 >= buf.Length {
          break;
        }
        assert s[i..][1] == buf[i + 1] && s[i..][2] == buf[i + 2];
        var hi, lo := HexToByte(buf[i + 1]), HexToByte(buf[i + 2]);
        if hi & 0xF0 != 0 || lo & 0xF0 != 0 {
          break;
        }
        TokenDone(s, i, out[..j], 3);
        Put(out, j, (hi << 4) | lo);
        i := i + 3;
      } else {
        TokenDone(s, i, out[..j], 1);
        Put(out, j, buf[i]);
        i := i + 1;
      }
      j := j + 1;
    }
    NothingMore(s[i..]);
    assert out[..j] + [] == out[..j];
    return i, j;
  }

  lemma Regroup(a: seq<Byte>, b: seq<Byte>, c: seq<Byte>)
    ensures a + (b + c) == a + b + c && |a + b| <= |a + (b + c)|
  {
  }

  method Put(out: array<Byte>, j: nat, b: Byte)
    requires j < out.Length
    modifies out
    ensures out[..j + 1] == old(out[..j]) + [b]
    ensures forall k | j < k < out.Length :: out[k] == old(out[k])
  {
    out[j] := b;
  }

  method PutEscaped(out: array<Byte>, j: nat, b: Byte)
    requires j + 3 <= out.Length
    modifies out
    ensures out[..j + 3] == old(out[..j]) + [PERCENT, HiDigit(b), LoDigit(b)]
    ensures forall k | j + 3 <= k < out.Length :: out[k] == old(out[k])
  {
    out[j] := PERCENT;
    out[j + 1] := HiDigit(b);
    out[j + 2] := LoDigit(b);
  }

  /** dfk_urlencode, into a buffer as large as the hint says. */
  method Encode(buf: array<Byte>, out: array<Byte>) returns (n: nat)
    requires buf != out && |Encoded(buf[..])| <= out.Length
    modifies out
    ensures n == |Encoded(buf[..])| <= out.Length && out[..n] == Encoded(buf[..]) && out[n..] == old(out[..])[n..]
  {
    n := 0;
    assert [] + Encoded(buf[..]) == Encoded(buf[..]) && buf[..] == buf[0..];
    for i := 0 to buf.Length
      invariant n <= out.Length && Encoded(buf[..]) == out[..n] + Encoded(buf[i..])
      invariant forall k | n <= k < out.Length :: out[k] == old(out[k])
    {
      var b := buf[i];
      assert buf[i..][0] == b && buf[i..][1..] == buf[i + 1..];
      Regroup(out[..n], EncodedByte(b), Encoded(buf[i + 1..]));
      if Unreserved(b) {
        Put(out, n, b);
        n := n + 1;
      } else {
        PutEscaped(out, n, b);
        n := n + 3;
      }
    }
    assert buf[buf.Length..] == [];
  }

  /** The wrap-around does not hit the size of a result by chance. */
  lemma HintMeans(s: seq<Byte>, n: nat)
    requires |s| < SIZE_T / 2 && n == (|s| - 2 * Percents(s)) % SIZE_T
    ensures n == |Decoded(s)| <==> |Rest(s)| == 2 * Percents(Rest(s))
  {
    var p, d := Percents(s), |Decoded(s)|;
    TokensRender(s);
    PercentsBound(s);
    DecodeHintExact(s);
    hide Decoded, Rest, Percents;
    assert -SIZE_T / 2 < |s| - 2 * p < SIZE_T / 2 && 0 <= d < SIZE_T / 2;
  }

  lemma {:induction false} PercentsBound(s: seq<Byte>)
    ensures Percents(s) <= |s|
  {
    if s != [] {
      PercentsBound(s[1..]);
    }
  }

  /** dfk_urldecode_hint without heuristics. The subtraction is that of an unsigned size: on
      input with more `%` than half its bytes it wraps around. The hint is the size of the result if
      and only if half the bytes that decoding leaves are `%`. */
  method DecodeHint(buf: array<Byte>) returns (n: nat)
    requires buf.Length < SIZE_T / 2
    ensures n == (buf.Length - 2 * Percents(buf[..])) % SIZE_T
    ensures n == |Decoded(buf[..])| <==> |Rest(buf[..])| == 2 * Percents(Rest(buf[..]))
  {
    hide Decoded, Rest;
    var s := 0;
    for i := 0 to buf.Length
      invariant s == 2 * Percents(buf[..i]) && 0 <= s <= 2 * i
    {
      PercentsAppend(buf[..i], [buf[i]]);
      assert buf[..i + 1] == buf[..i] + [buf[i]] && [buf[i]][1..] == [];
      if buf[i] == PERCENT {
        s := s + 2;
      }
    }
    assert buf[..buf.Length] == buf[..];
    n := (buf.Length - s) % SIZE_T;
    HintMeans(buf[..], n);
  }

  /** dfk_urlencode_hint without heuristics: the exact size of the result. */
  method EncodeHint(buf: array<Byte>) returns (n: nat)
    ensures n == |Encoded(buf[..])|
  {
    var s := 0;
    for i := 0 to buf.Length
      invariant s == 2 * Reserved(buf[..i])
    {
      ReservedAppend(buf[..i], buf[i]);
      assert buf[..i + 1] == buf[..i] + [buf[i]];
      if !Unreserved(buf[i]) {
        s := s + 2;
      }
    }
    assert buf[..buf.Length] == buf[..];
    ReservedLength(buf[..]);
    n := buf.Length + s;
  }

  lemma {:induction false} ReservedAppend(s: seq<Byte>, b: Byte)
    ensures Reserved(s + [b]) == Reserved(s) + if Unreserved(b) then 0 else 1
  {
    if s == [] {
      assert s + [b] == [b] && [b][1..] == [];
    } else {
      assert (s + [b])[0] == s[0] && (s + [b])[1..] == s[1..] + [b];
      ReservedAppend(s[1..], b);
    }
  }
}
