/**
  The payload codec of BinaryPrimitiveParser: case-insensitive Base16 decoding
  (section 8 of RFC 4648) of the text between the quotes of a binary literal.
*/
module HexBinary {
  import opened Common
  import opened WebText

  /** BinaryPrimitiveParser.HexCharToNibble: 0-9 give 0..9, a-f and A-F give 10..15. */
  function HexCharToNibble(c: char): (n: nat)
    requires IsCharHexDigit(c)
    ensures n < 16
  {
    if '0' <= c <= '9' then c as int - '0' as int
    else if 'a' <= c <= 'f' then c as int - 'a' as int + 10
    else c as int - 'A' as int + 10
  }

  /** The upper-case Base16 alphabet a producer writes; HexCharToNibble inverts it. */
  function NibbleToHexChar(n: nat): (c: char)
    requires n < 16
    ensures IsCharHexDigit(c) && !('a' <= c <= 'z')
    ensures HexCharToNibble(c) == n
  {
    if n < 10 then ('0' as int + n) as char else ('A' as int + n - 10) as char
  }

  /** Two characters with the same upper-case form are both hex digits of the same value, or neither is a digit. */
  lemma SameUpperSameNibble(x: char, y: char)
    requires ToUpperAscii(x) == ToUpperAscii(y)
    ensures IsCharHexDigit(x) <==> IsCharHexDigit(y)
    ensures IsCharHexDigit(x) ==> HexCharToNibble(x) == HexCharToNibble(y)
  {
  }

  /**
    One decoded byte: `(byte)((byte)(HexCharToNibble(hi) << 4) + HexCharToNibble(lo))`.
    Both casts are exact, because a nibble is below 16.
  */
  function PairByte(hi: char, lo: char): (b: byte)
    requires IsCharHexDigit(hi) && IsCharHexDigit(lo)
    ensures b as int == 16 * HexCharToNibble(hi) + HexCharToNibble(lo)
  {
    (16 * HexCharToNibble(hi) + HexCharToNibble(lo)) as byte
  }

  /** Text TryConvert accepts: even length and nothing but hex digits. */
  predicate IsHexText(text: string) {
    |text| % 2 == 0 && forall i :: 0 <= i < |text| ==> IsCharHexDigit(text[i])
  }

  /**
    What BinaryPrimitiveParser.TryConvert computes: None for odd-length text or
    text with a character that is not a hex digit, otherwise |text| / 2 bytes,
    byte i made of the characters 2i and 2i + 1.
  */
  function HexDecode(text: string): (r: Option<seq<byte>>)
    ensures r.Some? <==> IsHexText(text)
    ensures r.Some? ==> |r.value| == |text| / 2
    ensures r.Some? ==> forall i :: 0 <= i < |text| / 2 ==>
      r.value[i] == PairByte(text[2 * i], text[2 * i + 1])
    decreases |text|
  {
    if |text| % 2 != 0 then None
    else if text == [] then Some([])
    else if !IsCharHexDigit(text[0]) || !IsCharHexDigit(text[1]) then None
    else
      var tail := text[2..];
      assert forall i :: 0 <= i < |tail| ==> tail[i] == text[i + 2];
      match HexDecode(tail)
      case None => None
      case Some(rest) =>
        var r := [PairByte(text[0], text[1])] + rest;
        assert forall i :: 1 <= i < |text| / 2 ==> r[i] == rest[i - 1];
        Some(r)
  }

  /**
    BinaryPrimitiveParser.TryConvert: fills a new byte array two characters at
    a time and gives up at the first pair that is not two hex digits.
  */
  method TryConvert(text: string) returns (r: Option<seq<byte>>)
    ensures r == HexDecode(text)
  {
    if |text| % 2 != 0 {
      return None;
    }
    var result := new byte[|text| / 2];
    var resultIndex := 0;
    var textIndex := 0;
    while resultIndex < result.Length
      invariant 0 <= resultIndex <= result.Length
      invariant textIndex == 2 * resultIndex
      invariant forall k :: 0 <= k < textIndex ==> IsCharHexDigit(text[k])
      invariant forall k :: 0 <= k < resultIndex ==> result[k] == PairByte(text[2 * k], text[2 * k + 1])
    {
      var ch0 := text[textIndex];
      var ch1 := text[textIndex + 1];
      if !IsCharHexDigit(ch0) || !IsCharHexDigit(ch1) {
        assert !IsHexText(text) by {
          assert !IsCharHexDigit(text[textIndex]) || !IsCharHexDigit(text[textIndex + 1]);
        }
        return None;
      }
      result[resultIndex] := PairByte(ch0, ch1);
      textIndex := textIndex + 2;
      resultIndex := resultIndex + 1;
    }
    assert IsHexText(text);
    assert result[..] == HexDecode(text).value;
    r := Some(result[..]);
  }

  /** The upper-case hexadecimal text of `bytes`, two characters per byte. */
  function HexText(bytes: seq<byte>): (text: string)
    ensures |text| == 2 * |bytes|
  {
    if bytes == [] then []
    else
      var b := bytes[0] as int;
      [NibbleToHexChar(b / 16), NibbleToHexChar(b % 16)] + HexText(bytes[1..])
  }

  lemma {:induction false} HexTextAt(bytes: seq<byte>, i: nat)
    requires i < |bytes|
    ensures HexText(bytes)[2 * i] == NibbleToHexChar(bytes[i] as int / 16)
    ensures HexText(bytes)[2 * i + 1] == NibbleToHexChar(bytes[i] as int % 16)
  {
    if i > 0 {
      HexTextAt(bytes[1..], i - 1);
    }
  }

  /** Decoding the hexadecimal text of any bytes gives those bytes back. */
  lemma HexRoundTrip(bytes: seq<byte>)
    ensures HexDecode(HexText(bytes)) == Some(bytes)
  {
    var text := HexText(bytes);
    forall j | 0 <= j < |text| ensures IsCharHexDigit(text[j]) {
      HexTextAt(bytes, j / 2);
      assert j == 2 * (j / 2) || j == 2 * (j / 2) + 1;
    }
    assert IsHexText(text);
    var d := HexDecode(text).value;
    forall i | 0 <= i < |bytes| ensures d[i] == bytes[i] {
      HexTextAt(bytes, i);
      var b := bytes[i] as int;
      assert d[i] as int == 16 * (b / 16) + b % 16;
    }
    assert d == bytes;
  }

  lemma NibbleCharIsUpper(c: char)
    requires IsCharHexDigit(c)
    ensures NibbleToHexChar(HexCharToNibble(c)) == ToUpperAscii(c)
  {
  }

  /** Re-encoding a decoded pair of digits gives the two digits in upper case. */
  lemma PairByteReencodes(hi: char, lo: char)
    requires IsCharHexDigit(hi) && IsCharHexDigit(lo)
    ensures NibbleToHexChar(PairByte(hi, lo) as int / 16) == ToUpperAscii(hi)
    ensures NibbleToHexChar(PairByte(hi, lo) as int % 16) == ToUpperAscii(lo)
  {
    var b := PairByte(hi, lo) as int;
    assert b / 16 == HexCharToNibble(hi) && b % 16 == HexCharToNibble(lo);
    NibbleCharIsUpper(hi);
    NibbleCharIsUpper(lo);
  }

  /** Whatever decodes to `bytes` is their hexadecimal text up to letter case. */
  lemma HexDecodeInverse(text: string, bytes: seq<byte>)
    requires HexDecode(text) == Some(bytes)
    ensures EqualsIgnoreCase(HexText(bytes), text)
  {
    var h := HexText(bytes);
    forall j | 0 <= j < |text| ensures ToUpperAscii(h[j]) == ToUpperAscii(text[j]) {
      var i := j / 2;
      HexTextAt(bytes, i);
      PairByteReencodes(text[2 * i], text[2 * i + 1]);
      if j % 2 == 0 {
        assert j == 2 * i;
      } else {
        assert j == 2 * i + 1;
      }
    }
  }

  /** Decoding ignores the case of the letters a-f. */
  lemma {:induction false} HexDecodeIgnoresCase(a: string, b: string)
    requires EqualsIgnoreCase(a, b)
    ensures HexDecode(a) == HexDecode(b)
  {
    forall i | 0 <= i < |a|
      ensures IsCharHexDigit(a[i]) <==> IsCharHexDigit(b[i])
      ensures IsCharHexDigit(a[i]) ==> HexCharToNibble(a[i]) == HexCharToNibble(b[i])
    {
      SameUpperSameNibble(a[i], b[i]);
    }
    if HexDecode(a).Some? {
      assert HexDecode(b).Some?;
      var x, y := HexDecode(a).value, HexDecode(b).value;
      forall i | 0 <= i < |x| ensures x[i] == y[i] {
        assert x[i] == PairByte(a[2 * i], a[2 * i + 1]);
        assert y[i] == PairByte(b[2 * i], b[2 * i + 1]);
      }
      assert x == y;
    }
  }
}
