/** The base64 encoding of section 4 of RFC 4648: the 64-character alphabet of
    Table 1, groups of three octets written as four characters, and "="
    padding for a final group of one or two octets. `Encode` is what
    `base64.b64encode(...).decode('utf-8')` produces; `Decode` is a strict
    decoder for the same alphabet, which rejects non-zero pad bits as section
    3.5 of RFC 4648 permits, so that the two are exact inverses. */
module Base64 {
  import opened Wrappers

  type byte = x: int | 0 <= x < 256
  type sextet = x: int | 0 <= x < 64

  const Pad: char := '='

  /** Table 1 of RFC 4648: the character for a 6-bit value. */
  function Char(v: sextet): (c: char)
    ensures c != Pad
  {
    if v < 26 then ('A' as int + v) as char
    else if v < 52 then ('a' as int + (v - 26)) as char
    else if v < 62 then ('0' as int + (v - 52)) as char
    else if v == 62 then '+'
    else '/'
  }

  /** Table 1 of RFC 4648 read backwards: the 6-bit value of an alphabet
      character, and nothing for any other character (the pad included). */
  function Value(c: char): (r: Option<sextet>)
    ensures r.Some? ==> Char(r.value) == c
  {
    if 'A' <= c <= 'Z' then Some(c as int - 'A' as int)
    else if 'a' <= c <= 'z' then Some(c as int - 'a' as int + 26)
    else if '0' <= c <= '9' then Some(c as int - '0' as int + 52)
    else if c == '+' then Some(62)
    else if c == '/' then Some(63)
    else None
  }

  lemma ValueOfChar(v: sextet)
    ensures Value(Char(v)) == Some(v)
  {
  }

  /** Three octets, 24 bits, as four characters. */
  function EncodeGroup(b0: byte, b1: byte, b2: byte): seq<char> {
    [Char(b0 / 4), Char((b0 % 4) * 16 + b1 / 16), Char((b1 % 16) * 4 + b2 / 64), Char(b2 % 64)]
  }

  /** A final group of one octet: two characters and two pads. */
  function EncodeOne(b0: byte): seq<char> {
    [Char(b0 / 4), Char((b0 % 4) * 16), Pad, Pad]
  }

  /** A final group of two octets: three characters and one pad. */
  function EncodeTwo(b0: byte, b1: byte): seq<char> {
    [Char(b0 / 4), Char((b0 % 4) * 16 + b1 / 16), Char((b1 % 16) * 4), Pad]
  }

  /** `base64.b64encode(bs)` as text. Its length is four characters for every
      started group of three octets. */
  function Encode(bs: seq<byte>): (r: seq<char>)
    ensures |r| == 4 * ((|bs| + 2) / 3)
    decreases |bs|
  {
    if |bs| == 0 then []
    else if |bs| == 1 then EncodeOne(bs[0])
    else if |bs| == 2 then EncodeTwo(bs[0], bs[1])
    else EncodeGroup(bs[0], bs[1], bs[2]) + Encode(bs[3..])
  }

  /** Four alphabet characters as three octets. */
  function DecodeGroup(q: seq<char>): Option<seq<byte>>
    requires |q| == 4
  {
    var v0, v1, v2, v3 := Value(q[0]), Value(q[1]), Value(q[2]), Value(q[3]);
    if v0.None? || v1.None? || v2.None? || v3.None? then None
    else Some([v0.value * 4 + v1.value / 16,
               (v1.value % 16) * 16 + v2.value / 4,
               (v2.value % 4) * 64 + v3.value])
  }

  /** The last four characters, which may end in one or two pads. */
  function DecodeFinal(q: seq<char>): Option<seq<byte>>
    requires |q| == 4
  {
    if q[2] == Pad && q[3] == Pad then
      var v0, v1 := Value(q[0]), Value(q[1]);
      if v0.None? || v1.None? || v1.value % 16 != 0 then None
      else Some([v0.value * 4 + v1.value / 16])
    else if q[3] == Pad then
      var v0, v1, v2 := Value(q[0]), Value(q[1]), Value(q[2]);
      if v0.None? || v1.None? || v2.None? || v2.value % 4 != 0 then None
      else Some([v0.value * 4 + v1.value / 16, (v1.value % 16) * 16 + v2.value / 4])
    else DecodeGroup(q)
  }

  /** Strict decoding: a whole number of four-character groups, pads only at
      the very end, and zero pad bits. */
  function Decode(s: seq<char>): Option<seq<byte>>
    decreases |s|
  {
    if |s| == 0 then Some([])
    else if |s| < 4 then None
    else if |s| == 4 then DecodeFinal(s)
    else
      match DecodeGroup(s[..4])
      case None => None
      case Some(head) =>
        match Decode(s[4..])
        case None => None
        case Some(tail) => Some(head + tail)
  }

  lemma GroupRoundTrip(b0: byte, b1: byte, b2: byte)
    ensures DecodeGroup(EncodeGroup(b0, b1, b2)) == Some([b0, b1, b2])
  {
    var q := EncodeGroup(b0, b1, b2);
    ValueOfChar(b0 / 4);
    ValueOfChar((b0 % 4) * 16 + b1 / 16);
    ValueOfChar((b1 % 16) * 4 + b2 / 64);
    ValueOfChar(b2 % 64);
    assert ((b0 % 4) * 16 + b1 / 16) / 16 == b0 % 4;
    assert ((b0 % 4) * 16 + b1 / 16) % 16 == b1 / 16;
    assert ((b1 % 16) * 4 + b2 / 64) / 4 == b1 % 16;
    assert ((b1 % 16) * 4 + b2 / 64) % 4 == b2 / 64;
  }

  lemma OneRoundTrip(b0: byte)
    ensures DecodeFinal(EncodeOne(b0)) == Some([b0])
  {
    ValueOfChar(b0 / 4);
    ValueOfChar((b0 % 4) * 16);
  }

  lemma TwoRoundTrip(b0: byte, b1: byte)
    ensures DecodeFinal(EncodeTwo(b0, b1)) == Some([b0, b1])
  {
    ValueOfChar(b0 / 4);
    ValueOfChar((b0 % 4) * 16 + b1 / 16);
    ValueOfChar((b1 % 16) * 4);
    assert ((b0 % 4) * 16 + b1 / 16) / 16 == b0 % 4;
    assert ((b0 % 4) * 16 + b1 / 16) % 16 == b1 / 16;
  }

  /** Decoding a full group followed by more text. */
  lemma DecodeAfterGroup(q: seq<char>, t: seq<char>)
    requires |q| == 4 && |t| > 0
    requires DecodeGroup(q).Some? && Decode(t).Some?
    ensures Decode(q + t) == Some(DecodeGroup(q).value + Decode(t).value)
  {
    var s := q + t;
    assert s[..4] == q;
    assert s[4..] == t;
  }

  /** Every encoding decodes back to the octets it came from. */
  lemma {:induction false} DecodeEncode(bs: seq<byte>)
    ensures Decode(Encode(bs)) == Some(bs)
    decreases |bs|
  {
    if |bs| == 0 {
    } else if |bs| == 1 {
      OneRoundTrip(bs[0]);
      assert bs == [bs[0]];
    } else if |bs| == 2 {
      TwoRoundTrip(bs[0], bs[1]);
      assert bs == [bs[0], bs[1]];
    } else {
      var q := EncodeGroup(bs[0], bs[1], bs[2]);
      var rest := Encode(bs[3..]);
      GroupRoundTrip(bs[0], bs[1], bs[2]);
      assert Encode(bs) == q + rest;
      assert bs == [bs[0], bs[1], bs[2]] + bs[3..];
      if |bs| == 3 {
        assert bs == [bs[0], bs[1], bs[2]];
        assert Encode(bs) == q;
        assert q[2] != Pad && q[3] != Pad;
        assert Decode(q) == DecodeGroup(q);
      } else {
        DecodeEncode(bs[3..]);
        DecodeAfterGroup(q, rest);
      }
    }
  }

  lemma GroupOfValues(q: seq<char>)
    requires |q| == 4 && DecodeGroup(q).Some?
    ensures var b := DecodeGroup(q).value; |b| == 3 && EncodeGroup(b[0], b[1], b[2]) == q
  {
    var v0, v1, v2, v3 := Value(q[0]).value, Value(q[1]).value, Value(q[2]).value, Value(q[3]).value;
    var b := DecodeGroup(q).value;
    assert b[0] / 4 == v0 && b[0] % 4 == v1 / 16;
    assert b[1] / 16 == v1 % 16 && b[1] % 16 == v2 / 4;
    assert b[2] / 64 == v2 % 4 && b[2] % 64 == v3;
  }

  lemma FinalOfValues(q: seq<char>)
    requires |q| == 4 && DecodeFinal(q).Some?
    ensures Encode(DecodeFinal(q).value) == q
  {
    var b := DecodeFinal(q).value;
    if q[2] == Pad && q[3] == Pad {
      var v0, v1 := Value(q[0]).value, Value(q[1]).value;
      assert b[0] / 4 == v0 && b[0] % 4 == v1 / 16;
      assert (b[0] % 4) * 16 == v1;
    } else if q[3] == Pad {
      var v0, v1, v2 := Value(q[0]).value, Value(q[1]).value, Value(q[2]).value;
      assert b[0] / 4 == v0 && b[0] % 4 == v1 / 16;
      assert b[1] / 16 == v1 % 16 && b[1] % 16 == v2 / 4;
      assert (b[1] % 16) * 4 == v2;
    } else {
      GroupOfValues(q);
      assert Encode(b) == EncodeGroup(b[0], b[1], b[2]) + Encode(b[3..]);
    }
  }

  /** Every text the strict decoder accepts is the encoding of what it
      decodes to. */
  lemma {:induction false} EncodeDecode(s: seq<char>)
    requires Decode(s).Some?
    ensures Encode(Decode(s).value) == s
    decreases |s|
  {
    if |s| == 0 {
    } else if |s| == 4 {
      FinalOfValues(s);
    } else {
      var head := DecodeGroup(s[..4]).value;
      var tail := Decode(s[4..]).value;
      GroupOfValues(s[..4]);
      EncodeDecode(s[4..]);
      var b := head + tail;
      assert b[3..] == tail;
      assert Encode(b) == EncodeGroup(b[0], b[1], b[2]) + Encode(tail);
      assert s == s[..4] + s[4..];
    }
  }

  /** `Decode` and `Encode` are inverse to each other. */
  lemma DecodeIffEncode(s: seq<char>, bs: seq<byte>)
    ensures Decode(s) == Some(bs) <==> s == Encode(bs)
  {
    if Decode(s) == Some(bs) {
      EncodeDecode(s);
    }
    if s == Encode(bs) {
      DecodeEncode(bs);
    }
  }
}
