/** Percent-encoding of UTF-8 for URIs (RFC 3986, sections 2.1 and 2.3; RFC 3629, section 3),
    and its inverse.  Both decoders are strict: they refuse what no encoder writes. */
module EncodeForUri {
  import opened Options
  import opened Sequences

  // A code point.
  type Code = c: nat | c < 0x11_0000

  /** The UTF-8 bytes of a code point. */
  function CodepointInUtf8(c: Code): (bytes: seq<nat>)
    ensures bytes != [] && forall b :: b in bytes ==> b < 256
  {
    if c < 128 then [c]
    else if c < 2048 then [c / 64 + 192, c % 64 + 128]
    else if c < 65536 then [c / 4096 + 224, (c / 64) % 64 + 128, c % 64 + 128]
    else [c / 262144 + 240, (c / 4096) % 64 + 128, (c / 64) % 64 + 128, c % 64 + 128]
  }

  const PERCENT: Code := 37

  const HEX: seq<Code> := [48, 49, 50, 51, 52, 53, 54, 55, 56, 57, 65, 66, 67, 68, 69, 70]

  // The item at a position, counted from one; nothing if there is none.
  function ItemAt(s: seq<Code>, position: nat): seq<Code> {
    if 1 <= position <= |s| then [s[position - 1]] else []
  }

  function PercentByte(byte: nat): seq<Code> {
    [PERCENT] + ItemAt(HEX, byte / 16 + 1) + ItemAt(HEX, byte % 16 + 1)
  }

  function PercentEncode(c: Code): seq<Code> {
    FlatMap(PercentByte, CodepointInUtf8(c))
  }

  // The characters that need no encoding.
  predicate Unreserved(c: Code) {
    || ('A' as int <= c <= 'Z' as int) || ('a' as int <= c <= 'z' as int) || ('0' as int <= c <= '9' as int)
    || c == '-' as int || c == '_' as int || c == '.' as int || c == '~' as int
  }

  function EncodeCode(c: Code): seq<Code> {
    if Unreserved(c) then [c] else PercentEncode(c)
  }

  function EncodeForUri(uriPart: seq<Code>): seq<Code> {
    FlatMap(EncodeCode, uriPart)
  }

  // ----- decoding

  function HexValue(c: Code): Option<nat> {
    if 48 <= c <= 57 then Some(c - 48) else if 65 <= c <= 70 then Some(c - 55) else None
  }

  function Cons<T>(x: T, rest: Option<seq<T>>): Option<seq<T>> {
    match rest case None => None case Some(s) => Some([x] + s)
  }

  /** The bytes of a percent-encoded string of unreserved characters. */
  function PercentDecode(s: seq<Code>): Option<seq<nat>> {
    if s == [] then Some([])
    else if s[0] == PERCENT then
      if |s| < 3 || HexValue(s[1]) == None || HexValue(s[2]) == None then None
      else Cons(HexValue(s[1]).value * 16 + HexValue(s[2]).value, PercentDecode(s[3..]))
    else if Unreserved(s[0]) then Cons(s[0], PercentDecode(s[1..]))
    else None
  }

  predicate Continues(b: nat) {
    128 <= b < 192
  }

  /** The code points of a UTF-8 string; a longer form than needed is refused. */
  function Utf8Decode(s: seq<nat>): Option<seq<Code>> {
    if s == [] then Some([])
    else if s[0] < 128 then Cons(s[0], Utf8Decode(s[1..]))
    else if 192 <= s[0] < 224 && |s| >= 2 && Continues(s[1]) then
      var c := (s[0] - 192) * 64 + (s[1] - 128);
      if c < 128 then None else Cons(c, Utf8Decode(s[2..]))
    else if 224 <= s[0] < 240 && |s| >= 3 && Continues(s[1]) && Continues(s[2]) then
      var c := (s[0] - 224) * 4096 + (s[1] - 128) * 64 + (s[2] - 128);
      if c < 2048 then None else Cons(c, Utf8Decode(s[3..]))
    else if 240 <= s[0] < 248 && |s| >= 4 && Continues(s[1]) && Continues(s[2]) && Continues(s[3]) then
      var c := (s[0] - 240) * 262144 + (s[1] - 128) * 4096 + (s[2] - 128) * 64 + (s[3] - 128);
      if c < 65536 || c >= 0x11_0000 then None else Cons(c, Utf8Decode(s[4..]))
    else None
  }

  /** Each byte is written as the percent sign and two hexadecimal digits. */
  lemma PercentByteDecodes(byte: nat, rest: seq<Code>)
    requires byte < 256
    ensures 1 <= byte / 16 + 1 <= 16 && 1 <= byte % 16 + 1 <= 16 && |PercentByte(byte)| == 3
    ensures PercentDecode(PercentByte(byte) + rest) == Cons(byte, PercentDecode(rest))
  {
    HexDigits(byte / 16);
    HexDigits(byte % 16);
    var p := PercentByte(byte);
    assert p == [PERCENT, HEX[byte / 16], HEX[byte % 16]];
    assert (p + rest)[3..] == rest;
  }

  lemma HexDigits(n: nat)
    requires n < 16
    ensures HexValue(HEX[n]) == Some(n)
  {
  }

  function Append<T>(a: seq<T>, rest: Option<seq<T>>): Option<seq<T>> {
    match rest case None => None case Some(s) => Some(a + s)
  }

  lemma {:induction false} PercentBytesDecode(bytes: seq<nat>, rest: seq<Code>)
    requires forall b :: b in bytes ==> b < 256
    ensures PercentDecode(FlatMap(PercentByte, bytes) + rest) == Append(bytes, PercentDecode(rest))
  {
    hide PercentDecode, PercentByte;
    if bytes == [] {
      assert FlatMap(PercentByte, bytes) + rest == rest;
      assert PercentDecode(rest) != None ==> bytes + PercentDecode(rest).value == PercentDecode(rest).value;
    } else {
      var more := FlatMap(PercentByte, bytes[1..]) + rest;
      assert bytes[0] in bytes && forall b :: b in bytes[1..] ==> b in bytes;
      PercentBytesDecode(bytes[1..], rest);
      PercentByteDecodes(bytes[0], more);
      assert FlatMap(PercentByte, bytes) + rest == PercentByte(bytes[0]) + more;
      assert PercentDecode(rest) != None ==>
        bytes + PercentDecode(rest).value == [bytes[0]] + (bytes[1..] + PercentDecode(rest).value);
    }
  }

  /** Percent-decoding gives the UTF-8 bytes of the input. */
  lemma {:induction false} EncodedDecodes(uriPart: seq<Code>)
    ensures PercentDecode(EncodeForUri(uriPart)) == Some(FlatMap(CodepointInUtf8, uriPart))
  {
    hide PercentDecode, CodepointInUtf8, Unreserved;
    if uriPart == [] {
      NothingDecodes();
    } else {
      var c, rest := uriPart[0], EncodeForUri(uriPart[1..]);
      EncodedDecodes(uriPart[1..]);
      if Unreserved(c) {
        UnreservedDecodes(c, rest);
      } else {
        PercentBytesDecode(CodepointInUtf8(c), rest);
      }
    }
  }

  lemma NothingDecodes()
    ensures PercentDecode([]) == Some([]) && Utf8Decode([]) == Some([])
  {
  }

  lemma UnreservedDecodes(c: Code, rest: seq<Code>)
    requires Unreserved(c)
    ensures CodepointInUtf8(c) == [c] && PercentDecode([c] + rest) == Cons(c, PercentDecode(rest))
  {
    assert ([c] + rest)[1..] == rest;
  }

  lemma CodeDecodes(c: Code, rest: seq<nat>)
    ensures Utf8Decode(CodepointInUtf8(c) + rest) == Cons(c, Utf8Decode(rest))
  {
    var bytes := CodepointInUtf8(c);
    var s := bytes + rest;
    Digits(c);
    assert s[|bytes|..] == rest && s[..|bytes|] == bytes;
    assert forall k :: 0 <= k < |bytes| ==> s[k] == bytes[k];
    assert c >= 65536 ==> 240 <= s[0] < 245 && Continues(s[1]) && Continues(s[2]) && Continues(s[3]);
    assert 2048 <= c < 65536 ==> 224 <= s[0] < 240 && Continues(s[1]) && Continues(s[2]);
    assert 128 <= c < 2048 ==> 192 <= s[0] < 224 && Continues(s[1]);
  }

  lemma Digits(c: Code)
    ensures c == (c / 64) * 64 + c % 64
    ensures c == (c / 4096) * 4096 + ((c / 64) % 64) * 64 + c % 64
    ensures c == (c / 262144) * 262144 + ((c / 4096) % 64) * 4096 + ((c / 64) % 64) * 64 + c % 64
  {
    assert c / 4096 == (c / 64) / 64 && c / 262144 == (c / 4096) / 64;
  }

  lemma {:induction false} Utf8Decodes(codes: seq<Code>)
    ensures Utf8Decode(FlatMap(CodepointInUtf8, codes)) == Some(codes)
  {
    hide Utf8Decode, CodepointInUtf8;
    if codes == [] {
      NothingDecodes();
    } else {
      Utf8Decodes(codes[1..]);
      CodeDecodes(codes[0], FlatMap(CodepointInUtf8, codes[1..]));
      assert codes == [codes[0]] + codes[1..];
    }
  }

  /** The encoding is invertible: percent-decoding and then UTF-8-decoding gives the input. */
  lemma EncodeRoundTrip(uriPart: seq<Code>)
    ensures PercentDecode(EncodeForUri(uriPart)).Some?
    ensures Utf8Decode(PercentDecode(EncodeForUri(uriPart)).value) == Some(uriPart)
  {
    EncodedDecodes(uriPart);
    Utf8Decodes(uriPart);
  }

  /** So different inputs have different encodings. */
  lemma EncodeInjective(a: seq<Code>, b: seq<Code>)
    requires EncodeForUri(a) == EncodeForUri(b)
    ensures a == b
  {
    EncodeRoundTrip(a);
    EncodeRoundTrip(b);
  }

  // ----- which characters are encoded, by number

  // The digit, or upper-case letter, for a number below 16.
  function HexDigit(n: nat): nat {
    if n < 10 then 48 + n else 55 + n
  }

  // Letters, digits, hyphen, full stop, underscore and tilde (section 2.3 of RFC 3986).
  predicate Stays(c: nat) {
    65 <= c <= 90 || 97 <= c <= 122 || 48 <= c <= 57 || c == 45 || c == 46 || c == 95 || c == 126
  }

  /** A letter, digit, hyphen, full stop, underscore or tilde stays as it is; each byte of every
      other character, such as the slash, is written as a percent sign and two upper-case
      hexadecimal digits. */
  lemma CharacterEncoded(c: Code)
    ensures Stays(c) ==> EncodeForUri([c]) == [c]
    ensures var bytes, r := CodepointInUtf8(c), EncodeForUri([c]);
            !Stays(c) ==>
              && |r| == 3 * |bytes|
              && forall k :: 0 <= k < |bytes| ==>
                   r[3 * k] == 37 && r[3 * k + 1] == HexDigit(bytes[k] / 16) && r[3 * k + 2] == HexDigit(bytes[k] % 16)
    ensures !Stays('/' as int)
  {
    hide FlatMap, CodepointInUtf8;
    Singleton((_: Code) => true, EncodeCode, c);
    BytesEncoded(CodepointInUtf8(c));
  }

  lemma {:induction false} BytesEncoded(bytes: seq<nat>)
    requires forall b :: b in bytes ==> b < 256
    ensures var r := FlatMap(PercentByte, bytes);
            && |r| == 3 * |bytes|
            && forall k :: 0 <= k < |bytes| ==>
                 r[3 * k] == 37 && r[3 * k + 1] == HexDigit(bytes[k] / 16) && r[3 * k + 2] == HexDigit(bytes[k] % 16)
  {
    if bytes != [] {
      var rest, b := FlatMap(PercentByte, bytes[1..]), bytes[0];
      assert b in bytes && forall x :: x in bytes[1..] ==> x in bytes;
      BytesEncoded(bytes[1..]);
      HexIs(b / 16);
      HexIs(b % 16);
      var r := FlatMap(PercentByte, bytes);
      assert PercentByte(b) == [37, HexDigit(b / 16), HexDigit(b % 16)] && r == PercentByte(b) + rest;
      forall k | 0 <= k < |bytes|
        ensures r[3 * k] == 37 && r[3 * k + 1] == HexDigit(bytes[k] / 16) && r[3 * k + 2] == HexDigit(bytes[k] % 16)
      {
        if k > 0 {
          assert r[3 * k] == rest[3 * (k - 1)] && r[3 * k + 1] == rest[3 * (k - 1) + 1];
          assert r[3 * k + 2] == rest[3 * (k - 1) + 2] && bytes[k] == bytes[1..][k - 1];
        }
      }
    }
  }

  lemma HexIs(n: nat)
    requires n < 16
    ensures HEX[n] == HexDigit(n)
  {
  }

  /** The encoding of a string is that of its characters, one after the other. */
  lemma EncodedInTurn(a: seq<Code>, b: seq<Code>)
    ensures EncodeForUri(a + b) == EncodeForUri(a) + EncodeForUri(b)
  {
    FlatMapConcat(EncodeCode, a, b);
  }
}
