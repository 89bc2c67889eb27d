/**
 * Go's `hex.EncodeToString`: every byte becomes two characters of the
 * lower-case alphabet "0123456789abcdef", high nibble first.
 */
module Hex {
  import opened Bytes

  const Alphabet: string := "0123456789abcdef"

  type Nibble = x: int | 0 <= x < 16

  predicate IsHexDigit(c: char) {
    '0' <= c <= '9' || 'a' <= c <= 'f'
  }

  function Digit(v: Nibble): (c: char)
    ensures IsHexDigit(c)
  {
    if v < 10 then ('0' as int + v) as char else ('a' as int + v - 10) as char
  }

  /** The value of a lower-case hex digit; anything else reads as 0. */
  function DigitValue(c: char): (v: Nibble) {
    if '0' <= c <= '9' then c as int - '0' as int
    else if 'a' <= c <= 'f' then c as int - 'a' as int + 10
    else 0
  }

  lemma DigitIsStandard(v: Nibble)
    ensures Digit(v) == Alphabet[v]
    ensures DigitValue(Digit(v)) == v
  {
  }

  function EncodeByte(b: Byte): (r: string) {
    [Digit(b / 16), Digit(b % 16)]
  }

  /** `hex.EncodeToString(src)`. */
  function Encode(src: seq<Byte>): (r: string)
    decreases |src|
  {
    if src == [] then [] else EncodeByte(src[0]) + Encode(src[1..])
  }

  /** The partner of Encode: reads the string two characters at a time, ignoring an odd last one. */
  function Decode(s: string): (bytes: seq<Byte>)
    decreases |s|
  {
    if |s| < 2 then [] else [DigitValue(s[0]) * 16 + DigitValue(s[1])] + Decode(s[2..])
  }

  /** Two characters per byte, all of them lower-case hex digits. */
  lemma {:induction false} EncodeShape(src: seq<Byte>)
    ensures |Encode(src)| == 2 * |src|
    ensures forall c :: c in Encode(src) ==> IsHexDigit(c)
    decreases |src|
  {
    if src != [] {
      EncodeShape(src[1..]);
      assert Encode(src) == EncodeByte(src[0]) + Encode(src[1..]);
    }
  }

  /** Decode undoes Encode: hex encoding is injective. */
  lemma {:induction false} DecodeEncode(src: seq<Byte>)
    ensures Decode(Encode(src)) == src
    decreases |src|
  {
    if src != [] {
      var b := src[0];
      var e := Encode(src);
      DecodeEncode(src[1..]);
      DigitIsStandard(b / 16);
      DigitIsStandard(b % 16);
      assert e == EncodeByte(b) + Encode(src[1..]);
      assert e[2..] == Encode(src[1..]);
      assert src == [b] + src[1..];
    }
  }
}
