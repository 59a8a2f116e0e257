/**
 Percent-encoding of a query value (RFC 3986, sections 2.1 and 2.3, with a space written as `+`), and
 the form decoder that reads it back.
 */
module PercentEncoding {
  import opened ByteStrings
  import opened Wrappers

  /** Section 2.3: letters, digits, `-`, `_`, `.` and `~` stand for themselves. */
  predicate IsUnreserved(b: byte) {
    || 'A' as int <= b <= 'Z' as int || 'a' as int <= b <= 'z' as int || '0' as int <= b <= '9' as int
    || b == '-' as int || b == '_' as int || b == '.' as int || b == '~' as int
  }

  function HexDigit(d: nat): (c: char)
    requires d < 16
    ensures IsUpperHex(c)
  {
    if d < 10 then ('0' as int + d) as char else ('A' as int + (d - 10)) as char
  }

  predicate IsUpperHex(c: char) {
    '0' <= c <= '9' || 'A' <= c <= 'F'
  }

  function HexValue(c: char): (v: Option<nat>)
    ensures v.Some? ==> v.value < 16
  {
    if '0' <= c <= '9' then Some(c as int - '0' as int)
    else if 'A' <= c <= 'F' then Some(c as int - 'A' as int + 10)
    else if 'a' <= c <= 'f' then Some(c as int - 'a' as int + 10)
    else None
  }

  function EncodedByte(b: byte): string {
    if IsUnreserved(b) then [b as char]
    else if b == ' ' as int then "+"
    else ['%', HexDigit(b / 16), HexDigit(b % 16)]
  }

  function Encoded(input: Bytes): string {
    if input == [] then "" else EncodedByte(input[0]) + Encoded(input[1..])
  }

  /** The encoder walks over the bytes and pushes to the text it has so far. */
  method PercentEncode(input: Bytes) returns (encoded: string)
    ensures encoded == Encoded(input)
  {
    hide Encoded;
    encoded := "";
    assert input[0..] == input;
    for i := 0 to |input|
      invariant encoded + Encoded(input[i..]) == Encoded(input)
    {
      var b := input[i];
      FirstByte(encoded, input, i);
      if IsUnreserved(b) {
        encoded := encoded + [b as char];
      } else if b == ' ' as int {
        encoded := encoded + "+";
      } else {
        encoded := encoded + ['%', HexDigit(b / 16), HexDigit(b % 16)];
      }
    }
    NoByteLeft(input);
  }

  lemma FirstByte(done: string, input: Bytes, i: nat)
    requires i < |input|
    ensures done + Encoded(input[i..]) == done + EncodedByte(input[i]) + Encoded(input[i + 1..])
  {
    assert input[i..][1..] == input[i + 1..];
  }

  lemma NoByteLeft(input: Bytes)
    ensures Encoded(input[|input|..]) == ""
  {
  }

  // ----- The decoder -----

  /** Reads one unit at the front: the byte, and the number of characters it took. */
  function DecodedUnit(text: string): (unit: Option<(byte, nat)>)
    requires text != ""
    ensures unit.Some? ==> 1 <= unit.value.1 <= |text|
  {
    if text[0] == '%' then
      if |text| < 3 || HexValue(text[1]).None? || HexValue(text[2]).None? then None
      else Some((HexValue(text[1]).value * 16 + HexValue(text[2]).value, 3))
    else if text[0] == '+' then Some((' ' as int, 1))
    else if text[0] as int < 128 then Some((text[0] as int, 1))
    else None
  }

  function Decoded(text: string): Option<Bytes>
    decreases |text|
  {
    if text == "" then Some([])
    else
      match DecodedUnit(text)
      case None => None
      case Some((b, n)) =>
        match Decoded(text[n..])
        case None => None
        case Some(left) => Some([b] + left)
  }

  lemma UnitIsReadBack(b: byte, left: string)
    ensures DecodedUnit(EncodedByte(b) + left) == Some((b, |EncodedByte(b)|))
  {
    var t := EncodedByte(b) + left;
    if !IsUnreserved(b) && b != ' ' as int {
      assert t[1] == HexDigit(b / 16) && t[2] == HexDigit(b % 16);
    }
  }

  /** Decoding undoes encoding on every sequence of bytes. */
  lemma {:induction false} EncodingIsReadBack(input: Bytes)
    ensures Decoded(Encoded(input)) == Some(input)
  {
    if input != [] {
      var b, left := input[0], Encoded(input[1..]);
      UnitIsReadBack(b, left);
      assert (EncodedByte(b) + left)[|EncodedByte(b)|..] == left;
      EncodingIsReadBack(input[1..]);
      assert [b] + input[1..] == input;
    }
  }

  lemma EncodingIsInjective(a: Bytes, b: Bytes)
    requires Encoded(a) == Encoded(b)
    ensures a == b
  {
    EncodingIsReadBack(a);
    EncodingIsReadBack(b);
  }

  // ----- Which texts the encoder writes -----

  /** Escapes are in upper case and used only where the byte has no shorter form (section 2.3). */
  predicate Canonical(text: string)
    decreases |text|
  {
    text == "" ||
    match DecodedUnit(text)
    case None => false
    case Some((b, n)) => text[..n] == EncodedByte(b) && Canonical(text[n..])
  }

  lemma {:induction false} EncodingIsCanonical(input: Bytes)
    ensures Canonical(Encoded(input))
  {
    if input != [] {
      var b, left := input[0], Encoded(input[1..]);
      UnitIsReadBack(b, left);
      assert (EncodedByte(b) + left)[|EncodedByte(b)|..] == left;
      EncodingIsCanonical(input[1..]);
    }
  }

  lemma EncodedCons(b: byte, left: Bytes)
    ensures Encoded([b] + left) == EncodedByte(b) + Encoded(left)
  {
    assert ([b] + left)[1..] == left;
  }

  lemma {:induction false} CanonicalIsEncoding(text: string)
    requires Canonical(text)
    ensures Decoded(text).Some? && Encoded(Decoded(text).value) == text
    decreases |text|
  {
    hide EncodedByte, DecodedUnit;
    if text != "" {
      var (b, n) := DecodedUnit(text).value;
      CanonicalIsEncoding(text[n..]);
      assert text == text[..n] + text[n..];
      EncodedCons(b, Decoded(text[n..]).value);
    }
  }

  /** A text is written by the encoder exactly if it is canonical, and then by what it decodes to alone. */
  lemma {:induction false} EncoderWritesCanonicalTexts(text: string)
    ensures Canonical(text) <==> Decoded(text).Some? && Encoded(Decoded(text).value) == text
  {
    if Canonical(text) {
      CanonicalIsEncoding(text);
    } else if Decoded(text).Some? {
      EncodingIsCanonical(Decoded(text).value);
    }
  }

  // ----- Which characters stand for themselves -----

  predicate IsPlain(c: char) {
    'A' <= c <= 'Z' || 'a' <= c <= 'z' || '0' <= c <= '9' || c == '-' || c == '_' || c == '.' || c == '~'
  }

  /** An encoding holds plain characters, `%` and `+`, and nothing that has a meaning in a URL. */
  lemma {:induction false} EncodingAlphabet(input: Bytes, i: nat)
    requires i < |Encoded(input)|
    ensures var c := Encoded(input)[i]; IsPlain(c) || c == '%' || c == '+'
  {
    var first := EncodedByte(input[0]);
    if i >= |first| {
      EncodingAlphabet(input[1..], i - |first|);
    }
  }

  function PlainBytes(text: string): Bytes
    requires forall i: nat :: i < |text| ==> IsPlain(text[i])
  {
    if text == "" then []
    else
      assert IsPlain(text[0]);
      var first: byte := text[0] as int;
      [first] + PlainBytes(text[1..])
  }

  /** Plain text is its own encoding. */
  lemma {:induction false} PlainTextStays(text: string)
    requires forall i: nat :: i < |text| ==> IsPlain(text[i])
    ensures Encoded(PlainBytes(text)) == text
  {
    if text != "" {
      PlainTextStays(text[1..]);
      EncodedCons(text[0] as int, PlainBytes(text[1..]));
    }
  }

  /** A space becomes `+`, and every other byte is escaped with its two digits in upper case. */
  lemma OtherBytesAreEscaped(b: byte)
    ensures b == 0x20 ==> Encoded([b]) == "+"
    ensures b != 0x20 && (b >= 0x80 || !IsPlain(b as char)) ==>
              |Encoded([b])| == 3 && Encoded([b])[0] == '%'
              && HexValue(Encoded([b])[1]) == Some(b / 16) && HexValue(Encoded([b])[2]) == Some(b % 16)
              && IsUpperHex(Encoded([b])[1]) && IsUpperHex(Encoded([b])[2])
  {
    assert [b][1..] == [];
    assert Encoded([b]) == EncodedByte(b);
  }
}
