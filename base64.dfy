/**
 * Base64 as in section 4 of RFC 4648, restricted to canonical text: the standard alphabet,
 * padding with '=' only in the last group, and zero bits wherever padding leaves bits unused
 * (section 3.5). `Decode` accepts exactly the strings `Encode` produces.
 */
module Base64 {
  import opened Wrappers
  import opened JsValues

  type Sextet = v: int | 0 <= v < 64

  function SextetChar(v: Sextet): char {
    if v < 26 then ('A' as int + v) as char
    else if v < 52 then ('a' as int + (v - 26)) as char
    else if v < 62 then ('0' as int + (v - 52)) as char
    else if v == 62 then '+'
    else '/'
  }

  function CharSextet(c: char): Option<Sextet> {
    if 'A' <= c <= 'Z' then Some(c as int - 'A' as int)
    else if 'a' <= c <= 'z' then Some(c as int - 'a' as int + 26)
    else if '0' <= c <= '9' then Some(c as int - '0' as int + 52)
    else if c == '+' then Some(62)
    else if c == '/' then Some(63)
    else None
  }

  lemma SextetRoundTrip(v: Sextet)
    ensures CharSextet(SextetChar(v)) == Some(v) && SextetChar(v) != '='
  {
  }

  lemma CharRoundTrip(c: char)
    requires CharSextet(c).Some?
    ensures SextetChar(CharSextet(c).value) == c
  {
  }

  function EncodeGroup(b0: Byte, b1: Byte, b2: Byte): string {
    [SextetChar(b0 / 4), SextetChar((b0 % 4) * 16 + b1 / 16), SextetChar((b1 % 16) * 4 + b2 / 64), SextetChar(b2 % 64)]
  }

  /** Canonical encoding: four characters per three bytes, the last group padded. */
  function Encode(bs: seq<Byte>): (s: string)
    ensures |s| >= |bs| && (bs != [] ==> |s| >= 4)
    decreases |bs|
  {
    if |bs| == 0 then ""
    else if |bs| == 1 then EncodeSingle(bs[0])
    else if |bs| == 2 then EncodePair(bs[0], bs[1])
    else EncodeGroup(bs[0], bs[1], bs[2]) + Encode(bs[3..])
  }

  /** A final group of one byte: two characters and two pads. */
  function EncodeSingle(b0: Byte): string {
    [SextetChar(b0 / 4), SextetChar((b0 % 4) * 16), '=', '=']
  }

  /** A final group of two bytes: three characters and one pad. */
  function EncodePair(b0: Byte, b1: Byte): string {
    [SextetChar(b0 / 4), SextetChar((b0 % 4) * 16 + b1 / 16), SextetChar((b1 % 16) * 4), '=']
  }

  function DecodeGroup(c0: Sextet, c1: Sextet, c2: Sextet, c3: Sextet): seq<Byte> {
    [c0 * 4 + c1 / 16, (c1 % 16) * 16 + c2 / 4, (c2 % 4) * 64 + c3]
  }

  /** One group of four characters; only the last group may carry padding. */
  function DecodeQuad(q: string, last: bool): Option<seq<Byte>>
    requires |q| == 4
  {
    var c0, c1, c2, c3 := CharSextet(q[0]), CharSextet(q[1]), CharSextet(q[2]), CharSextet(q[3]);
    if c0.None? || c1.None? then None
    else if q[2] == '=' && q[3] == '=' then
      if last && c1.value % 16 == 0 then Some([c0.value * 4 + c1.value / 16]) else None
    else if c2.None? then None
    else if q[3] == '=' then
      if last && c2.value % 4 == 0 then Some([c0.value * 4 + c1.value / 16, (c1.value % 16) * 16 + c2.value / 4]) else None
    else if c3.None? then None
    else Some(DecodeGroup(c0.value, c1.value, c2.value, c3.value))
  }

  /** Canonical decoding; `None` for any string `Encode` cannot produce. */
  function Decode(s: string): Option<seq<Byte>>
    decreases |s|
  {
    if s == [] then Some([])
    else if |s| < 4 then None
    else
      match DecodeQuad(s[..4], |s| == 4)
      case None => None
      case Some(head) =>
        match Decode(s[4..])
        case None => None
        case Some(tail) => Some(head + tail)
  }

  lemma GroupRoundTrip(b0: Byte, b1: Byte, b2: Byte, last: bool)
    ensures DecodeQuad(EncodeGroup(b0, b1, b2), last) == Some([b0, b1, b2])
  {
    var q := EncodeGroup(b0, b1, b2);
    SextetRoundTrip(b0 / 4);
    SextetRoundTrip((b0 % 4) * 16 + b1 / 16);
    SextetRoundTrip((b1 % 16) * 4 + b2 / 64);
    SextetRoundTrip(b2 % 64);
    var c1 := (b0 % 4) * 16 + b1 / 16;
    var c2 := (b1 % 16) * 4 + b2 / 64;
    assert c1 / 16 == b0 % 4 && c1 % 16 == b1 / 16;
    assert c2 / 4 == b1 % 16 && c2 % 4 == b2 / 64;
  }

  lemma DecodeCons(q: string, rest: string, head: seq<Byte>, tail: seq<Byte>)
    requires |q| == 4 && DecodeQuad(q, rest == []) == Some(head) && Decode(rest) == Some(tail)
    ensures Decode(q + rest) == Some(head + tail)
  {
    var s := q + rest;
    assert s[..4] == q && s[4..] == rest;
  }

  lemma SingleRoundTrip(b0: Byte)
    ensures Decode(EncodeSingle(b0)) == Some([b0])
  {
    var s := EncodeSingle(b0);
    SextetRoundTrip(b0 / 4);
    SextetRoundTrip((b0 % 4) * 16);
    assert DecodeQuad(s, true) == Some([b0]);
    DecodeCons(s, "", [b0], []);
    assert s + "" == s && [b0] + [] == [b0];
  }

  lemma PairRoundTrip(b0: Byte, b1: Byte)
    ensures Decode(EncodePair(b0, b1)) == Some([b0, b1])
  {
    var s := EncodePair(b0, b1);
    SextetRoundTrip(b0 / 4);
    SextetRoundTrip((b0 % 4) * 16 + b1 / 16);
    SextetRoundTrip((b1 % 16) * 4);
    var c1: int := (b0 % 4) * 16 + b1 / 16;
    var c2: int := (b1 % 16) * 4;
    assert c1 / 16 == b0 % 4 && c1 % 16 == b1 / 16;
    assert c2 % 4 == 0 && c2 / 4 == b1 % 16;
    assert DecodeQuad(s, true) == Some([b0, b1]);
    DecodeCons(s, "", [b0, b1], []);
    assert s + "" == s && [b0, b1] + [] == [b0, b1];
  }

  lemma GroupStep(bs: seq<Byte>)
    requires |bs| >= 3 && Decode(Encode(bs[3..])) == Some(bs[3..])
    ensures Decode(Encode(bs)) == Some(bs)
  {
    var b0, b1, b2 := bs[0], bs[1], bs[2];
    var q := EncodeGroup(b0, b1, b2);
    var rest := Encode(bs[3..]);
    assert Encode(bs) == q + rest;
    GroupRoundTrip(b0, b1, b2, rest == []);
    DecodeCons(q, rest, [b0, b1, b2], bs[3..]);
    FirstThree(bs);
  }

  lemma FirstThree(bs: seq<Byte>)
    requires |bs| >= 3
    ensures [bs[0], bs[1], bs[2]] + bs[3..] == bs
  {
  }

  /** Decoding undoes encoding. */
  lemma {:induction false} DecodeEncode(bs: seq<Byte>)
    ensures Decode(Encode(bs)) == Some(bs)
    decreases |bs|
  {
    if |bs| == 1 {
      assert bs == [bs[0]];
      SingleRoundTrip(bs[0]);
    } else if |bs| == 2 {
      assert bs == [bs[0], bs[1]];
      PairRoundTrip(bs[0], bs[1]);
    } else if |bs| >= 3 {
      DecodeEncode(bs[3..]);
      GroupStep(bs);
    }
  }

  lemma SingleQuad(q: string, last: bool)
    requires |q| == 4 && DecodeQuad(q, last).Some? && q[2] == '=' && q[3] == '='
    ensures var h := DecodeQuad(q, last).value; last && |h| == 1 && EncodeSingle(h[0]) == q
  {
    var c0: int, c1: int := CharSextet(q[0]).value, CharSextet(q[1]).value;
    CharRoundTrip(q[0]);
    CharRoundTrip(q[1]);
    var b0: int := c0 * 4 + c1 / 16;
    assert b0 / 4 == c0 && b0 % 4 == c1 / 16;
    assert (b0 % 4) * 16 == c1;
  }

  lemma PairQuad(q: string, last: bool)
    requires |q| == 4 && DecodeQuad(q, last).Some? && q[2] != '=' && q[3] == '='
    ensures var h := DecodeQuad(q, last).value; last && |h| == 2 && EncodePair(h[0], h[1]) == q
  {
    var c0: int, c1: int, c2: int := CharSextet(q[0]).value, CharSextet(q[1]).value, CharSextet(q[2]).value;
    CharRoundTrip(q[0]);
    CharRoundTrip(q[1]);
    CharRoundTrip(q[2]);
    var b0: int := c0 * 4 + c1 / 16;
    var b1: int := (c1 % 16) * 16 + c2 / 4;
    assert b0 / 4 == c0 && b0 % 4 == c1 / 16;
    assert b1 / 16 == c1 % 16 && b1 % 16 == c2 / 4;
    assert (b0 % 4) * 16 + b1 / 16 == c1;
    assert (b1 % 16) * 4 == c2;
  }

  lemma FullQuad(q: string, last: bool)
    requires |q| == 4 && DecodeQuad(q, last).Some? && q[3] != '='
    ensures var h := DecodeQuad(q, last).value; |h| == 3 && EncodeGroup(h[0], h[1], h[2]) == q
  {
    var c0: int, c1: int := CharSextet(q[0]).value, CharSextet(q[1]).value;
    var c2: int, c3: int := CharSextet(q[2]).value, CharSextet(q[3]).value;
    CharRoundTrip(q[0]);
    CharRoundTrip(q[1]);
    CharRoundTrip(q[2]);
    CharRoundTrip(q[3]);
    var b0: int := c0 * 4 + c1 / 16;
    var b1: int := (c1 % 16) * 16 + c2 / 4;
    var b2: int := (c2 % 4) * 64 + c3;
    assert b0 / 4 == c0 && b0 % 4 == c1 / 16;
    assert b1 / 16 == c1 % 16 && b1 % 16 == c2 / 4;
    assert b2 / 64 == c2 % 4 && b2 % 64 == c3;
    assert (b0 % 4) * 16 + b1 / 16 == c1;
    assert (b1 % 16) * 4 + b2 / 64 == c2;
  }

  /** Encoding undoes decoding: a string that decodes is the canonical encoding of its bytes. */
  lemma {:induction false} EncodeDecode(s: string)
    requires Decode(s).Some?
    ensures Encode(Decode(s).value) == s
    decreases |s|
  {
    if s != [] {
      var q, rest := s[..4], s[4..];
      assert s == q + rest;
      var h := DecodeQuad(q, |s| == 4).value;
      var t := Decode(rest).value;
      assert Decode(s).value == h + t;
      if q[3] != '=' {
        FullQuad(q, |s| == 4);
        EncodeDecode(rest);
        var bs := h + t;
        assert bs[0] == h[0] && bs[1] == h[1] && bs[2] == h[2] && bs[3..] == t;
      } else if q[2] != '=' {
        PairQuad(q, |s| == 4);
        assert rest == [] && t == [] && h + t == h;
        assert h == [h[0], h[1]];
      } else {
        SingleQuad(q, |s| == 4);
        assert rest == [] && t == [] && h + t == h;
        assert h == [h[0]];
      }
    }
  }

  /** The two directions together: `Decode` is the exact inverse of `Encode`. */
  lemma DecodeIffEncode(s: string, bs: seq<Byte>)
    ensures Decode(s) == Some(bs) <==> Encode(bs) == s
  {
    if Decode(s) == Some(bs) {
      EncodeDecode(s);
    }
    if Encode(bs) == s {
      DecodeEncode(bs);
    }
  }
}
