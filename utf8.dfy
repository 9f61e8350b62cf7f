/**
 UTF-8 (RFC 3629): the byte sequence the application/x-www-form-urlencoded
 serializer percent-encodes. Characters are Unicode scalar values, so every
 string has an encoding; the strict decoder accepts exactly the well-formed
 sequences (no overlong forms, no surrogates, nothing above U+10FFFF).
 */
module Utf8 {
  import opened Wrappers

  type Byte = x: int | 0 <= x < 256

  predicate IsContinuation(b: Byte) {
    0x80 <= b < 0xC0
  }

  /** The one to four bytes that encode `c`. */
  function EncodeChar(c: char): (bs: seq<Byte>)
    ensures 1 <= |bs| <= 4
    ensures (|bs| == 1) == (c as int < 0x80)
    ensures forall k | 1 <= k < |bs| :: IsContinuation(bs[k])
  {
    // Six bits per continuation byte, taken from the low end.
    var n := c as int;
    var q1 := n / 0x40;
    var q2 := q1 / 0x40;
    if n < 0x80 then [n]
    else if n < 0x800 then [0xC0 + q1, 0x80 + n % 0x40]
    else if n < 0x1_0000 then [0xE0 + q2, 0x80 + q1 % 0x40, 0x80 + n % 0x40]
    else [0xF0 + q2 / 0x40, 0x80 + q2 % 0x40, 0x80 + q1 % 0x40, 0x80 + n % 0x40]
  }

  /** The encoding of a string: each character's bytes, in order. */
  function Encode(s: string): (bs: seq<Byte>)
    ensures |s| <= |bs| <= 4 * |s|
    ensures |bs| == |s| <==> forall k | 0 <= k < |s| :: s[k] as int < 0x80
  {
    if s == [] then [] else EncodeChar(s[0]) + Encode(s[1..])
  }

  /** A scalar value (neither a surrogate nor beyond U+10FFFF) as a character. */
  function ToChar(n: int): Option<char> {
    if 0 <= n < 0xD800 || 0xE000 <= n < 0x11_0000 then Some(n as char) else None
  }

  /** The first character of `bs` and how many bytes it takes, if `bs` starts well-formed. */
  function DecodeFirst(bs: seq<Byte>): (r: Option<(char, nat)>)
    requires |bs| >= 1
    ensures r.Some? ==> 1 <= r.value.1 <= |bs|
  {
    var b0: int := bs[0];
    if b0 < 0x80 then Some((b0 as char, 1))
    else if 0xC0 <= b0 < 0xE0 && |bs| >= 2 && IsContinuation(bs[1]) then
      var n := (b0 - 0xC0) * 0x40 + (bs[1] as int - 0x80);
      if n < 0x80 then None else Some((n as char, 2))
    else if 0xE0 <= b0 < 0xF0 && |bs| >= 3 && IsContinuation(bs[1]) && IsContinuation(bs[2]) then
      var n := (b0 - 0xE0) * 0x1000 + (bs[1] as int - 0x80) * 0x40 + (bs[2] as int - 0x80);
      if n < 0x800 then None
      else match ToChar(n) { case Some(c) => Some((c, 3)) case None => None }
    else if 0xF0 <= b0 < 0xF8 && |bs| >= 4 && IsContinuation(bs[1]) && IsContinuation(bs[2]) && IsContinuation(bs[3]) then
      var n := (b0 - 0xF0) * 0x4_0000 + (bs[1] as int - 0x80) * 0x1000 + (bs[2] as int - 0x80) * 0x40 + (bs[3] as int - 0x80);
      if n < 0x1_0000 then None
      else match ToChar(n) { case Some(c) => Some((c, 4)) case None => None }
    else None
  }

  /** The characters `bs` encodes, or `None` when it is not well-formed UTF-8. */
  function Decode(bs: seq<Byte>): Option<string>
    decreases |bs|
  {
    if bs == [] then Some([])
    else
      match DecodeFirst(bs)
      case None => None
      case Some((c, len)) =>
        match Decode(bs[len..])
        case None => None
        case Some(rest) => Some([c] + rest)
  }

  lemma DecodeTwoBytes(c: char, rest: seq<Byte>)
    requires 0x80 <= c as int < 0x800
    ensures DecodeFirst(EncodeChar(c) + rest) == Some((c, 2))
  {
    var n := c as int;
    var bs := EncodeChar(c) + rest;
    assert bs[0] == 0xC0 + n / 0x40 && bs[1] == 0x80 + n % 0x40;
  }

  lemma DecodeThreeBytes(c: char, rest: seq<Byte>)
    requires 0x800 <= c as int < 0x1_0000
    ensures DecodeFirst(EncodeChar(c) + rest) == Some((c, 3))
  {
    var n := c as int;
    var q1 := n / 0x40;
    var q2 := q1 / 0x40;
    var bs := EncodeChar(c) + rest;
    assert bs[0] == 0xE0 + q2 && bs[1] == 0x80 + q1 % 0x40 && bs[2] == 0x80 + n % 0x40;
    assert n == q1 * 0x40 + n % 0x40 && q1 == q2 * 0x40 + q1 % 0x40;
    assert ToChar(n) == Some(c);
  }

  lemma DecodeFourBytes(c: char, rest: seq<Byte>)
    requires 0x1_0000 <= c as int
    ensures DecodeFirst(EncodeChar(c) + rest) == Some((c, 4))
  {
    var n := c as int;
    var q1 := n / 0x40;
    var q2 := q1 / 0x40;
    var q3 := q2 / 0x40;
    var bs := EncodeChar(c) + rest;
    assert bs[0] == 0xF0 + q3 && bs[1] == 0x80 + q2 % 0x40 && bs[2] == 0x80 + q1 % 0x40 && bs[3] == 0x80 + n % 0x40;
    assert n == q1 * 0x40 + n % 0x40 && q1 == q2 * 0x40 + q1 % 0x40 && q2 == q3 * 0x40 + q2 % 0x40;
    assert ToChar(n) == Some(c);
  }

  /** The decoder reads back one encoded character, whatever follows it. */
  lemma DecodeFirstEncodeChar(c: char, rest: seq<Byte>)
    ensures DecodeFirst(EncodeChar(c) + rest) == Some((c, |EncodeChar(c)|))
  {
    var n := c as int;
    if n < 0x80 {
    } else if n < 0x800 {
      DecodeTwoBytes(c, rest);
    } else if n < 0x1_0000 {
      DecodeThreeBytes(c, rest);
    } else {
      DecodeFourBytes(c, rest);
    }
  }

  /** Decoding an encoding gives back the string. */
  lemma {:induction false} DecodeEncode(s: string)
    ensures Decode(Encode(s)) == Some(s)
  {
    if s != [] {
      var head := EncodeChar(s[0]);
      var bs := Encode(s);
      assert bs == head + Encode(s[1..]);
      DecodeFirstEncodeChar(s[0], Encode(s[1..]));
      assert bs[|head|..] == Encode(s[1..]);
      DecodeEncode(s[1..]);
      assert [s[0]] + s[1..] == s;
    }
  }

  /** Whatever the decoder reads as one character is that character's encoding. */
  lemma EncodeCharDecodeFirst(bs: seq<Byte>)
    requires |bs| >= 1 && DecodeFirst(bs).Some?
    ensures bs[..DecodeFirst(bs).value.1] == EncodeChar(DecodeFirst(bs).value.0)
  {
    var len := DecodeFirst(bs).value.1;
    if len == 2 {
      TwoBytesEncodeChar(bs);
    } else if len == 3 {
      ThreeBytesEncodeChar(bs);
    } else if len == 4 {
      FourBytesEncodeChar(bs);
    }
  }

  lemma TwoBytesEncodeChar(bs: seq<Byte>)
    requires |bs| >= 1 && DecodeFirst(bs).Some? && DecodeFirst(bs).value.1 == 2
    ensures bs[..2] == EncodeChar(DecodeFirst(bs).value.0)
  {
    var n := DecodeFirst(bs).value.0 as int;
    var b0, b1: int := bs[0], bs[1] as int - 0x80;
    assert n == (b0 - 0xC0) * 0x40 + b1;
    assert n / 0x40 == b0 - 0xC0 && n % 0x40 == b1;
  }

  lemma ThreeBytesEncodeChar(bs: seq<Byte>)
    requires |bs| >= 1 && DecodeFirst(bs).Some? && DecodeFirst(bs).value.1 == 3
    ensures bs[..3] == EncodeChar(DecodeFirst(bs).value.0)
  {
    var n := DecodeFirst(bs).value.0 as int;
    var b0, b1, b2: int := bs[0], bs[1] as int - 0x80, bs[2] as int - 0x80;
    var q1 := (b0 - 0xE0) * 0x40 + b1;
    assert n == q1 * 0x40 + b2;
    assert n / 0x40 == q1 && n % 0x40 == b2;
    assert q1 / 0x40 == b0 - 0xE0 && q1 % 0x40 == b1;
  }

  lemma FourBytesEncodeChar(bs: seq<Byte>)
    requires |bs| >= 1 && DecodeFirst(bs).Some? && DecodeFirst(bs).value.1 == 4
    ensures bs[..4] == EncodeChar(DecodeFirst(bs).value.0)
  {
    var n := DecodeFirst(bs).value.0 as int;
    var b0, b1, b2, b3: int := bs[0], bs[1] as int - 0x80, bs[2] as int - 0x80, bs[3] as int - 0x80;
    var q2 := (b0 - 0xF0) * 0x40 + b1;
    var q1 := q2 * 0x40 + b2;
    assert n == q1 * 0x40 + b3;
    assert n / 0x40 == q1 && n % 0x40 == b3;
    assert q1 / 0x40 == q2 && q1 % 0x40 == b2;
    assert q2 / 0x40 == b0 - 0xF0 && q2 % 0x40 == b1;
  }

  lemma EncodeCons(c: char, rest: string)
    ensures Encode([c] + rest) == EncodeChar(c) + Encode(rest)
  {
    assert ([c] + rest)[1..] == rest;
  }

  /** The decoder accepts only encodings: what it decodes re-encodes to the same bytes. */
  lemma {:induction false} EncodeDecode(bs: seq<Byte>)
    requires Decode(bs).Some?
    ensures Encode(Decode(bs).value) == bs
    decreases |bs|
  {
    if bs != [] {
      var (c, len) := DecodeFirst(bs).value;
      var rest := Decode(bs[len..]).value;
      assert Decode(bs).value == [c] + rest;
      assert bs[..len] == EncodeChar(c) by {
        EncodeCharDecodeFirst(bs);
      }
      assert bs[len..] == Encode(rest) by {
        EncodeDecode(bs[len..]);
      }
      calc {
        Encode(Decode(bs).value);
        Encode([c] + rest);
        { EncodeCons(c, rest); }
        EncodeChar(c) + Encode(rest);
        bs[..len] + bs[len..];
        { assert bs == bs[..len] + bs[len..]; }
        bs;
      }
    }
  }

  /** An ASCII string encodes byte for byte. */
  lemma {:induction false} EncodeAscii(s: string)
    requires forall k | 0 <= k < |s| :: s[k] as int < 0x80
    ensures |Encode(s)| == |s|
    ensures forall k | 0 <= k < |s| :: Encode(s)[k] == s[k] as int
  {
    if s != [] {
      EncodeAscii(s[1..]);
    }
  }
}
