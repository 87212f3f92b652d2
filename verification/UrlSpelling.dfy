/** Digits and unreserved characters by the characters of section 2 of RFC 3986, and what the two
    spellings of a digit mean. */
module UrlSpelling {
  import opened Common
  import opened UrlEncoding
  import opened Queries

  const UPPER := "0123456789ABCDEF"
  const LOWER := "0123456789abcdef"
  const UNRESERVED := "ABCDEFGHIJKLMNOPQRSTUVWXYZabcdefghijklmnopqrstuvwxyz0123456789-._~"

  /** The digits are the characters of the two alphabets, their values the positions there; every
      other byte is no digit. */
  lemma DigitLaw(c: Byte)
    ensures forall k | 0 <= k < 16 :: Is(c, UPPER[k]) || Is(c, LOWER[k]) ==> HexToByte(c) as int == k
    ensures IsHex(c) <==> exists k :: 0 <= k < 16 && (Is(c, UPPER[k]) || Is(c, LOWER[k]))
    ensures !IsHex(c) ==> HexToByte(c) == 0xFF
  {
    if IsHex(c) {
      var k := HexToByte(c) as int;
      assert Is(c, UPPER[k]) || Is(c, LOWER[k]);
    }
  }

  /** Encoding writes the digit of the upper-case alphabet. */
  lemma UpperDigit(n: Byte)
    requires n < 16
    ensures Is(HexDigit(n), UPPER[n as int])
  {
  }

  predicate Letter(x: char) {
    'A' <= x <= 'Z' || 'a' <= x <= 'z'
  }

  /** The unreserved characters of section 2.3: letters, digits and four marks. */
  lemma UnreservedLaw(c: Byte)
    ensures Unreserved(c) <==> Letter(c as int as char) || '0' <= c as int as char <= '9' || c as int as char in "-._~"
  {
    var x := c as int as char;
    assert x in "-._~" <==> x == "-._~"[0] || x == "-._~"[1] || x == "-._~"[2] || x == "-._~"[3];
  }

  /** Encoding writes only unreserved characters and `%`. */
  lemma EncodedAlphabet(s: seq<Byte>)
    ensures forall c | c in Encoded(s) ::
      Letter(c as int as char) || '0' <= c as int as char <= '9' || c as int as char in "-._~%"
  {
    EncodedSafe(s);
    forall c | c in Encoded(s)
      ensures Letter(c as int as char) || '0' <= c as int as char <= '9' || c as int as char in "-._~%"
    {
      UnreservedLaw(c);
      MarksAndPercent(c);
    }
  }

  lemma MarksAndPercent(c: Byte)
    ensures c as int as char in "-._~%" <==> c as int as char in "-._~" || c == PERCENT
  {
    assert "-._~%" == "-._~" + "%";
  }

  // ---- Either spelling ----

  /** Two digits that differ in nothing but their case. */
  predicate SameDigit(a: Byte, b: Byte) {
    exists k :: 0 <= k < 16 && (Is(a, UPPER[k]) || Is(a, LOWER[k])) && (Is(b, UPPER[k]) || Is(b, LOWER[k]))
  }

  /** At place `i`, `t` is `s`, or a digit of the other case at most two places behind a `%`. */
  predicate RespelledAt(s: seq<Byte>, t: seq<Byte>, i: nat)
    requires i < |s| && i < |t|
  {
    s[i] == t[i] || (SameDigit(s[i], t[i]) && ((i > 0 && Is(s[i - 1], '%')) || (i > 1 && Is(s[i - 2], '%'))))
  }

  ghost predicate Respelled(s: seq<Byte>, t: seq<Byte>) {
    |t| == |s| && forall i | 0 <= i < |s| :: RespelledAt(s, t, i)
  }

  lemma SameValue(a: Byte, b: Byte)
    requires SameDigit(a, b)
    ensures IsHex(a) && IsHex(b) && HexToByte(a) == HexToByte(b) && a != PERCENT && b != PERCENT
  {
    DigitLaw(a);
    DigitLaw(b);
  }

  /** The first three places of a respelled input. */
  lemma RespelledFront(s: seq<Byte>, t: seq<Byte>)
    requires Respelled(s, t) && s != []
    ensures t[0] == s[0]
    ensures s[0] == PERCENT && |s| >= 3 ==> (IsHex(s[1]) <==> IsHex(t[1])) && (IsHex(s[2]) <==> IsHex(t[2]))
    ensures s[0] == PERCENT && |s| >= 3 ==> HexToByte(s[1]) == HexToByte(t[1]) && HexToByte(s[2]) == HexToByte(t[2])
  {
    hide SameDigit, HexToByte;
    assert RespelledAt(s, t, 0);
    if s[0] == PERCENT && |s| >= 3 {
      assert RespelledAt(s, t, 1) && RespelledAt(s, t, 2);
      if s[1] != t[1] {
        SameValue(s[1], t[1]);
      }
      if s[2] != t[2] {
        SameValue(s[2], t[2]);
      }
    }
  }

  /** Behind a whole token of `w` bytes, of which none but the first can be a `%`. */
  lemma RespelledBehind(s: seq<Byte>, t: seq<Byte>, w: nat)
    requires Respelled(s, t) && 0 < w <= |s| && !Is(s[w - 1], '%') && (w > 1 ==> !Is(s[w - 2], '%'))
    ensures Respelled(s[w..], t[w..])
  {
    hide SameDigit, Is;
    forall i | 0 <= i < |s| - w
      ensures RespelledAt(s[w..], t[w..], i)
    {
      assert RespelledAt(s, t, w + i);
    }
  }

  /** The case of digits means nothing: as much is consumed, and the result is the same. */
  lemma {:induction false} CaseMeansNothing(s: seq<Byte>, t: seq<Byte>)
    requires Respelled(s, t)
    ensures Consumed(t) == Consumed(s) && Decoded(t) == Decoded(s)
    decreases |s|
  {
    if s != [] {
      RespelledFront(s, t);
    }
    if Starts(s) {
      var w := |Written(First(s))|;
      TokenEnd(s);
      RespelledBehind(s, t, w);
      FirstToken(s);
      FirstToken(t);
      CaseMeansNothing(s[w..], t[w..]);
    } else {
      NothingMore(s);
      NothingMore(t);
    }
  }

  lemma TokenEnd(s: seq<Byte>)
    requires Starts(s)
    ensures var w := |Written(First(s))|; 0 < w <= |s| && !Is(s[w - 1], '%') && (w > 1 ==> !Is(s[w - 2], '%'))
  {
  }

  /** Every spelling of an encoding decodes to the original. */
  lemma EitherSpelling(s: seq<Byte>, t: seq<Byte>)
    requires Respelled(Encoded(s), t)
    ensures Consumed(t) == |t| && Decoded(t) == s
  {
    RoundTrip(s);
    CaseMeansNothing(Encoded(s), t);
  }

  /** "%2f" and "%2F" are a slash. */
  lemma Slash()
    ensures forall t: seq<Byte> | |t| == 3 && Is(t[0], '%') && Is(t[1], '2') && (Is(t[2], 'f') || Is(t[2], 'F')) ::
      Consumed(t) == 3 && |Decoded(t)| == 1 && Is(Decoded(t)[0], '/')
  {
    forall t: seq<Byte> | |t| == 3 && Is(t[0], '%') && Is(t[1], '2') && (Is(t[2], 'f') || Is(t[2], 'F'))
      ensures Consumed(t) == 3 && |Decoded(t)| == 1 && Is(Decoded(t)[0], '/')
    {
      FirstToken(t);
      NothingMore([]);
      assert t[3..] == [];
    }
  }

  /** The query "a=1&b=%2f": `a` is "1" and `b` is a slash. */
  lemma QueryExample(raw: seq<Byte>)
    requires Spells(raw, "a=1&b=%2f")
    ensures Arguments(raw) == Ok([Pair([raw[0]], [raw[2]]), Pair([raw[4]], [0x2F])])
    ensures Is(raw[0], 'a') && Is(raw[2], '1') && Is(raw[4], 'b') && Is(0x2F, '/')
  {
    ExampleDecoded(raw);
    ExampleScanned(raw);
  }

  lemma ExampleDecoded(raw: seq<Byte>)
    requires Spells(raw, "a=1&b=%2f")
    ensures Decoded(raw) == raw[..6] + [0x2F] && Consumed(raw) == 9
  {
    hide Decoded, Consumed;
    DecodesRaw(raw, 6);
    var e := raw[6..];
    assert e == [PERCENT, 0x32, 0x66];
    FirstToken(e);
    NothingMore([]);
    assert e[3..] == [] && [0x2F] + [] == [0x2F];
  }

  lemma ExampleScanned(raw: seq<Byte>)
    requires Spells(raw, "a=1&b=%2f")
    ensures Scan(raw[..6] + [0x2F]) == Ok([Pair([raw[0]], [raw[2]]), Pair([raw[4]], [0x2F])])
  {
    hide Scan;
    var ps := [Pair([raw[0]], [raw[2]]), Pair([raw[4]], [0x2F])];
    assert ps[1..] == [ps[1]];
    assert Join(ps) == raw[..6] + [0x2F];
    ScanUndoesJoin(ps);
  }

  /** Bytes other than `%` stand for themselves. */
  lemma {:induction false} DecodesRaw(s: seq<Byte>, n: nat)
    requires n <= |s| && PERCENT !in s[..n]
    ensures Decoded(s) == s[..n] + Decoded(s[n..]) && Consumed(s) == n + Consumed(s[n..])
  {
    if n == 0 {
      assert s[0..] == s && s[..0] + Decoded(s) == Decoded(s);
    } else {
      Behind(s, n);
      FirstToken(s);
      hide Decoded, Consumed;
      DecodesRaw(s[1..], n - 1);
    }
  }

  lemma Behind(s: seq<Byte>, n: nat)
    requires 0 < n <= |s| && PERCENT !in s[..n]
    ensures s[0] != PERCENT && s[1..][n - 1..] == s[n..] && s[..n] == [s[0]] + s[1..][..n - 1] && PERCENT !in s[1..][..n - 1]
  {
    assert s[0] == s[..n][0] && s[1..][..n - 1] == s[..n][1..];
  }
}
