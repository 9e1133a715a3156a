/**
 Percent coding of the issuer chains sent in headers (RFC 3986, sections 2.1
 and 2.3). One crate encodes, another decodes. Text is its UTF-8 bytes.
 */
module PercentCoding {
  import opened Prelude

  const PERCENT: Byte := 37
  const PLUS: Byte := 43

  /** Letters, digits and `-._~`. */
  predicate Unreserved(b: Byte) {
    || 65 <= b <= 90 || 97 <= b <= 122 || 48 <= b <= 57
    || b == 45 || b == 46 || b == 95 || b == 126
  }

  /** The unreserved characters of RFC 3986, section 2.3, as the standard writes them. */
  lemma {:induction false} UnreservedAre(b: Byte)
    ensures var c := b as char;
      Unreserved(b) <==> 'A' <= c <= 'Z' || 'a' <= c <= 'z' || '0' <= c <= '9' || c in {'-', '.', '_', '~'}
  {}

  function UpperHex(n: nat): Byte
    requires n < 16
  {
    if n < 10 then n + 48 else n + 55
  }

  function HexValue(b: Byte): (v: Option<nat>)
    ensures v.Some? ==> v.value < 16
  {
    if 48 <= b <= 57 then Some(b as int - 48)
    else if 65 <= b <= 70 then Some(b as int - 55)
    else if 97 <= b <= 102 then Some(b as int - 87)
    else None
  }

  function EncodeByte(b: Byte): (e: Bytes)
    ensures |e| == if Unreserved(b) then 1 else 3
  {
    if Unreserved(b) then [b] else [PERCENT, UpperHex(b as int / 16), UpperHex(b as int % 16)]
  }

  function Encode(text: Bytes): Bytes {
    if text == [] then [] else EncodeByte(text[0]) + Encode(text[1..])
  }

  /** Two digits as the standard library reads them in base 16: a sign may stand for the first. */
  function TwoDigits(a: Byte, b: Byte): Option<Byte> {
    match (HexValue(a), HexValue(b))
    case (Some(h), Some(l)) => Some(16 * h + l)
    case (None, Some(l)) => if a == PLUS then Some(l) else None
    case _ => None
  }

  /** `b` is the hex digit of value `v`, as a small or a capital letter. */
  predicate IsHexDigit(b: Byte, v: int) {
    0 <= v < 16 && b as char in {"0123456789abcdef"[v], "0123456789ABCDEF"[v]}
  }

  lemma {:induction false} HexValueMeans(b: Byte, v: int)
    ensures IsHexDigit(b, v) <==> HexValue(b).Some? && HexValue(b).value == v
  {}

  /** What stands for a byte after a percent sign: its two hex digits in any case, or a plus sign and one digit. */
  lemma {:induction false} EscapesMean(a: Byte, b: Byte, v: Byte)
    ensures TwoDigits(a, b) == Some(v)
       <==> (IsHexDigit(a, v as int / 16) && IsHexDigit(b, v as int % 16)) || (a as char == '+' && IsHexDigit(b, v as int))
  {
    hide HexValue, IsHexDigit;
    HexValueMeans(a, v as int / 16);
    HexValueMeans(b, v as int % 16);
    HexValueMeans(b, v as int);
    PlusIsNoDigit();
  }

  lemma {:induction false} PlusIsNoDigit()
    ensures HexValue(PLUS) == None && PLUS as char == '+'
  {}

  /** The byte an escape at `i` stands for. */
  function EscapeAt(input: Bytes, i: nat): (e: Option<Byte>)
    requires i < |input|
    ensures e.Some? ==> i + 3 <= |input| && input[i] == PERCENT
  {
    if input[i] == PERCENT && i + 3 <= |input| then TwoDigits(input[i + 1], input[i + 2]) else None
  }

  function DecodeFrom(input: Bytes, i: nat): (out: Bytes)
    requires i <= |input|
    ensures |out| <= |input| - i
    decreases |input| - i
  {
    if i == |input| then []
    else
      match EscapeAt(input, i)
      case Some(b) => [b] + DecodeFrom(input, i + 3)
      case None => [input[i]] + DecodeFrom(input, i + 1)
  }

  function Decoded(input: Bytes): Bytes {
    DecodeFrom(input, 0)
  }

  lemma {:induction false} DecodeEnds(input: Bytes)
    ensures DecodeFrom(input, |input|) == []
  {}

  lemma {:induction false} DecodeNext(out: Bytes, input: Bytes, i: nat)
    requires i < |input|
    ensures var e := EscapeAt(input, i);
      out + DecodeFrom(input, i) ==
        if e.Some? then out + [e.value] + DecodeFrom(input, i + 3)
        else out + [input[i]] + DecodeFrom(input, i + 1)
  {}

  /** The header's text: `lossy` stands for reading bytes as UTF-8, where undecodable ones are replaced. */
  method PercentDecode(lossy: Bytes -> Bytes, input: Bytes) returns (text: Bytes)
    ensures text == lossy(Decoded(input))
  {
    hide DecodeFrom, TwoDigits;
    var out: Bytes := [];
    DecodeEnds(input);
    var i := 0;
    while i < |input|
      invariant i <= |input|
      invariant Decoded(input) == out + DecodeFrom(input, i)
    {
      DecodeNext(out, input, i);
      var hex: Option<Byte> := if i + 3 <= |input| then TwoDigits(input[i + 1], input[i + 2]) else None;
      if input[i] == PERCENT && hex.Some? {
        out := out + [hex.value];
        i := i + 3;
      } else {
        out := out + [input[i]];
        i := i + 1;
      }
    }
    assert out + [] == out;
    text := lossy(out);
  }

  // ---------------------------------------------------------------- round trip

  lemma {:induction false} DigitsAreRead(b: Byte)
    ensures TwoDigits(UpperHex(b as int / 16), UpperHex(b as int % 16)) == Some(b)
  {}

  /** Decoding looks only at what is ahead. */
  lemma {:induction false} DecodeSuffix(a: Bytes, b: Bytes, i: nat)
    requires i <= |b|
    ensures DecodeFrom(a + b, |a| + i) == DecodeFrom(b, i)
    decreases |b| - i
  {
    if i < |b| {
      var input := a + b;
      assert input[|a| + i] == b[i] && (i + 3 <= |b| ==> input[|a| + i + 1] == b[i + 1] && input[|a| + i + 2] == b[i + 2]);
      match EscapeAt(b, i)
      case Some(_) => DecodeSuffix(a, b, i + 3);
      case None => DecodeSuffix(a, b, i + 1);
    }
  }

  lemma {:induction false} OneByteIsDecoded(b: Byte, rest: Bytes)
    ensures Decoded(EncodeByte(b) + rest) == [b] + Decoded(rest)
  {
    var e := EncodeByte(b);
    DecodeSuffix(e, rest, 0);
    DigitsAreRead(b);
    assert (e + rest)[0] == e[0];
    if !Unreserved(b) {
      assert (e + rest)[1] == e[1] && (e + rest)[2] == e[2];
    }
  }

  /** Whatever was encoded is decoded to itself. */
  lemma {:induction false} RoundTrip(text: Bytes)
    ensures Decoded(Encode(text)) == text
  {
    if text != [] {
      RoundTrip(text[1..]);
      OneByteIsDecoded(text[0], Encode(text[1..]));
      assert text == [text[0]] + text[1..];
    }
  }

  /** Every encoded text can be sent in a header: visible ASCII only. */
  lemma {:induction false} EncodedIsAHeaderValue(text: Bytes)
    ensures forall i :: 0 <= i < |Encode(text)| ==> 33 <= Encode(text)[i] <= 126
  {
    if text != [] {
      EncodedIsAHeaderValue(text[1..]);
    }
  }

  /** Text arrives as it was sent: whatever reading as UTF-8 does to other bytes, it keeps text. */
  lemma {:induction false} TextRoundTrip(lossy: Bytes -> Bytes, text: Bytes)
    requires lossy(text) == text
    ensures lossy(Decoded(Encode(text))) == text
  {
    RoundTrip(text);
  }

  /** An escape the encoder writes: two capital digits of a byte it does not send as it is. */
  predicate CanonicalEscape(a: Byte, b: Byte) {
    && HexValue(a).Some? && HexValue(b).Some? && a < 97 && b < 97
    && !Unreserved(16 * HexValue(a).value + HexValue(b).value)
  }

  /** A grammar for what the encoder writes. */
  predicate Canonical(input: Bytes) {
    || input == []
    || (Unreserved(input[0]) && Canonical(input[1..]))
    || (input[0] == PERCENT && |input| >= 3 && CanonicalEscape(input[1], input[2]) && Canonical(input[3..]))
  }

  lemma {:induction false} EscapeIsWritten(a: Byte, b: Byte)
    requires CanonicalEscape(a, b)
    ensures var byte := 16 * HexValue(a).value + HexValue(b).value;
      TwoDigits(a, b) == Some(byte) && EncodeByte(byte) == [PERCENT, a, b]
  {
    var h, l := HexValue(a).value, HexValue(b).value;
    assert (16 * h + l) / 16 == h && (16 * h + l) % 16 == l;
  }

  lemma {:induction false} WrittenIsCanonical(b: Byte, rest: Bytes)
    requires Canonical(rest)
    ensures Canonical(EncodeByte(b) + rest)
  {
    var all := EncodeByte(b) + rest;
    if Unreserved(b) {
      assert all[1..] == rest;
    } else {
      assert all[3..] == rest;
      assert 16 * (b as int / 16) + b as int % 16 == b as int;
    }
  }

  lemma {:induction false} EncodingsAreCanonical(text: Bytes)
    ensures Canonical(Encode(text))
  {
    if text != [] {
      EncodingsAreCanonical(text[1..]);
      WrittenIsCanonical(text[0], Encode(text[1..]));
    }
  }

  lemma {:induction false} CanonicalComesBack(input: Bytes)
    requires Canonical(input)
    ensures Encode(Decoded(input)) == input
  {
    if input == [] {
    } else if Unreserved(input[0]) {
      CanonicalComesBack(input[1..]);
      CanonicalStep(input, input[0], input[1..]);
    } else {
      EscapeIsWritten(input[1], input[2]);
      CanonicalComesBack(input[3..]);
      CanonicalStep(input, 16 * HexValue(input[1]).value + HexValue(input[2]).value, input[3..]);
    }
  }

  lemma {:induction false} CanonicalStep(input: Bytes, b: Byte, rest: Bytes)
    requires input == EncodeByte(b) + rest && Encode(Decoded(rest)) == rest
    ensures Encode(Decoded(input)) == input
  {
    OneByteIsDecoded(b, rest);
    assert ([b] + Decoded(rest))[1..] == Decoded(rest);
  }

  /**
   Which inputs the decoder keeps apart: encoding what was decoded gives the input
   back exactly when it is of the grammar, and those are exactly the encodings.
   */
  lemma {:induction false} OnlyEncodingsComeBack(input: Bytes)
    ensures Encode(Decoded(input)) == input <==> Canonical(input)
    ensures Canonical(input) <==> exists text :: Encode(text) == input
  {
    if Canonical(input) {
      CanonicalComesBack(input);
    }
    forall text | Encode(text) == input ensures Canonical(input) {
      EncodingsAreCanonical(text);
    }
  }
}
