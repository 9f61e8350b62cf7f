/**
 The application/x-www-form-urlencoded serializer of the WHATWG URL Standard
 (section 5.2), which `URLSearchParams.prototype.toString` uses: every name
 and value is UTF-8 encoded, each byte outside `*-._`, ASCII digits and ASCII
 letters is written `%XX` with upper-case hex, a space is written `+`, each
 pair becomes `name=value`, and the pairs are joined with `&`.

 Beside it, a strict parser that undoes it, used to state that the
 serialization loses nothing.
 */
module FormUrlencoded {
  import opened Wrappers
  import opened Strings
  import opened Utf8

  /** The bytes the serializer writes as themselves. */
  predicate IsUnreservedByte(b: Byte) {
    || b == 0x2A || b == 0x2D || b == 0x2E || b == 0x5F
    || 0x30 <= b <= 0x39 || 0x41 <= b <= 0x5A || 0x61 <= b <= 0x7A
  }

  /** The characters the serializer writes as themselves. */
  predicate IsUnreservedChar(c: char) {
    c as int < 0x80 && IsUnreservedByte(c as int)
  }

  /** A character the serializer can emit. */
  predicate IsSerializedChar(c: char) {
    IsUnreservedChar(c) || c == '+' || c == '%'
  }

  const HexDigits := "0123456789ABCDEF"

  function HexValue(c: char): (v: Option<int>)
    ensures v.Some? ==> 0 <= v.value < 16 && HexDigits[v.value] == c
  {
    if '0' <= c <= '9' then Some(c as int - '0' as int)
    else if 'A' <= c <= 'F' then Some(c as int - 'A' as int + 10)
    else None
  }

  lemma HexValueOfDigit(d: int)
    requires 0 <= d < 16
    ensures HexValue(HexDigits[d]) == Some(d)
  {
  }

  function EncodeByte(b: Byte): (t: string)
    ensures forall k | 0 <= k < |t| :: IsSerializedChar(t[k])
  {
    if b == 0x20 then "+"
    else if IsUnreservedByte(b) then [b as char]
    else ['%', HexDigits[b / 16], HexDigits[b % 16]]
  }

  function EncodeBytes(bs: seq<Byte>): (t: string)
    ensures forall k | 0 <= k < |t| :: IsSerializedChar(t[k])
  {
    if bs == [] then [] else EncodeByte(bs[0]) + EncodeBytes(bs[1..])
  }

  /** Percent-encode after encoding, with space as plus. */
  function Serialize(s: string): (t: string)
    ensures forall k | 0 <= k < |t| :: IsSerializedChar(t[k])
  {
    EncodeBytes(Utf8.Encode(s))
  }

  function Prepend(b: Byte, rest: Option<seq<Byte>>): Option<seq<Byte>> {
    match rest
    case None => None
    case Some(bs) => Some([b] + bs)
  }

  /** The bytes `t` stands for, if it is made only of what the serializer emits. */
  function DecodeBytes(t: string): Option<seq<Byte>>
    decreases |t|
  {
    if t == [] then Some([])
    else if t[0] == '+' then Prepend(0x20, DecodeBytes(t[1..]))
    else if t[0] == '%' then
      if |t| >= 3 && HexValue(t[1]).Some? && HexValue(t[2]).Some? then
        Prepend(HexValue(t[1]).value * 16 + HexValue(t[2]).value, DecodeBytes(t[3..]))
      else None
    else if IsUnreservedChar(t[0]) then Prepend(t[0] as int, DecodeBytes(t[1..]))
    else None
  }

  /** Plus to space, percent-decode, then UTF-8 decode. */
  function Deserialize(t: string): Option<string> {
    match DecodeBytes(t)
    case None => None
    case Some(bs) => Utf8.Decode(bs)
  }

  lemma DecodeEncodeByte(b: Byte, rest: string)
    ensures DecodeBytes(EncodeByte(b) + rest) == Prepend(b, DecodeBytes(rest))
  {
    var t := EncodeByte(b) + rest;
    if b == 0x20 {
      assert t[1..] == rest;
    } else if IsUnreservedByte(b) {
      assert t[1..] == rest;
    } else {
      HexValueOfDigit(b / 16);
      HexValueOfDigit(b % 16);
      assert t[3..] == rest;
    }
  }

  lemma {:induction false} DecodeEncodeBytes(bs: seq<Byte>)
    ensures DecodeBytes(EncodeBytes(bs)) == Some(bs)
  {
    if bs != [] {
      DecodeEncodeByte(bs[0], EncodeBytes(bs[1..]));
      DecodeEncodeBytes(bs[1..]);
      assert [bs[0]] + bs[1..] == bs;
    }
  }

  /** Serialization is undone by deserialization: the encoded id decodes back to the id. */
  lemma DeserializeSerialize(s: string)
    ensures Deserialize(Serialize(s)) == Some(s)
  {
    DecodeEncodeBytes(Utf8.Encode(s));
    Utf8.DecodeEncode(s);
  }

  /** A serialized component contains no `&`, `=` or `#`. */
  lemma SerializedHasNoDelimiters(s: string)
    ensures '&' !in Serialize(s) && '=' !in Serialize(s) && '#' !in Serialize(s)
  {
  }

  lemma {:induction false} EncodeUnreservedBytes(bs: seq<Byte>)
    requires forall k | 0 <= k < |bs| :: IsUnreservedByte(bs[k])
    ensures |EncodeBytes(bs)| == |bs|
    ensures forall k | 0 <= k < |bs| :: EncodeBytes(bs)[k] as int == bs[k]
  {
    if bs != [] {
      EncodeUnreservedBytes(bs[1..]);
    }
  }

  /** Digits, ASCII letters and `*-._` pass through the serializer unchanged. */
  lemma SerializeUnreserved(s: string)
    requires forall k | 0 <= k < |s| :: IsUnreservedChar(s[k])
    ensures Serialize(s) == s
  {
    Utf8.EncodeAscii(s);
    var bs := Utf8.Encode(s);
    EncodeUnreservedBytes(bs);
    assert forall k | 0 <= k < |s| :: Serialize(s)[k] == s[k];
  }

  /** One pair as `name=value`. */
  function SerializePair(pair: (string, string)): (t: string)
    ensures '&' !in t
  {
    SerializedHasNoDelimiters(pair.0);
    SerializedHasNoDelimiters(pair.1);
    Serialize(pair.0) + "=" + Serialize(pair.1)
  }

  function SerializePairsEach(pairs: seq<(string, string)>): (pieces: seq<string>)
    ensures |pieces| == |pairs|
    ensures forall k | 0 <= k < |pieces| :: pieces[k] == SerializePair(pairs[k])
  {
    if pairs == [] then [] else [SerializePair(pairs[0])] + SerializePairsEach(pairs[1..])
  }

  /** The application/x-www-form-urlencoded serializer: the pairs in order, joined with `&`. */
  function SerializePairs(pairs: seq<(string, string)>): (query: string)
    ensures query == [] <==> pairs == []
    ensures pairs != [] ==> Split(query, '&') == SerializePairsEach(pairs)
  {
    var pieces := SerializePairsEach(pairs);
    assert pairs != [] ==> Split(Join(pieces, '&'), '&') == pieces && Join(pieces, '&') != [] by {
      if pairs != [] {
        SplitJoin(pieces, '&');
        assert |pieces[0]| > 0;
      }
    }
    Join(pieces, '&')
  }

  /** One `name=value` piece: split at the first `=`, both sides deserialized. */
  function ParsePiece(piece: string): Option<(string, string)> {
    var i := FirstIndex(piece, '=');
    var name := Deserialize(piece[..i]);
    var value := Deserialize(if i < |piece| then piece[i + 1..] else []);
    if name.Some? && value.Some? then Some((name.value, value.value)) else None
  }

  function ParsePieces(pieces: seq<string>): Option<seq<(string, string)>> {
    if pieces == [] then Some([])
    else if pieces[0] == [] then ParsePieces(pieces[1..])
    else
      match (ParsePiece(pieces[0]), ParsePieces(pieces[1..]))
      case (Some(pair), Some(rest)) => Some([pair] + rest)
      case _ => None
  }

  /**
   Parse a query string the way the Standard's parser (section 5.1) does on
   the serializer's alphabet: split on `&`, skip empty pieces, split each at
   its first `=`, and decode; anything outside that alphabet is refused.
   */
  function ParseQuery(query: string): Option<seq<(string, string)>> {
    ParsePieces(Split(query, '&'))
  }

  lemma ParseSerializedPair(pair: (string, string))
    ensures ParsePiece(SerializePair(pair)) == Some(pair)
  {
    var name := Serialize(pair.0);
    var piece := SerializePair(pair);
    SerializedHasNoDelimiters(pair.0);
    var i := FirstIndex(piece, '=');
    assert piece[|name|] == '=';
    assert i == |name|;
    assert piece[..i] == name;
    assert piece[i + 1..] == Serialize(pair.1);
    DeserializeSerialize(pair.0);
    DeserializeSerialize(pair.1);
  }

  lemma {:induction false} ParseSerializedPieces(pairs: seq<(string, string)>)
    ensures ParsePieces(SerializePairsEach(pairs)) == Some(pairs)
  {
    if pairs != [] {
      var pieces := SerializePairsEach(pairs);
      assert pieces[0] == SerializePair(pairs[0]);
      assert '=' in pieces[0];
      assert pieces[1..] == SerializePairsEach(pairs[1..]);
      ParseSerializedPair(pairs[0]);
      ParseSerializedPieces(pairs[1..]);
      assert [pairs[0]] + pairs[1..] == pairs;
    }
  }

  /** Parsing the serialized pairs gives back every pair, in order. */
  lemma ParseSerializePairs(pairs: seq<(string, string)>)
    ensures ParseQuery(SerializePairs(pairs)) == Some(pairs)
  {
    var pieces := SerializePairsEach(pairs);
    if pairs == [] {
      assert Split([], '&') == [[]];
    } else {
      SplitJoin(pieces, '&');
      ParseSerializedPieces(pairs);
    }
  }
}
