/** Lower-case hexadecimal rendering of bytes, as Node's
    `buffer.toString('hex')` produces it, with its decoder. */
module Hex {
  import opened Outcomes

  type Byte = x: int | 0 <= x < 256

  /** The digit for a value below 16: '0'..'9' then 'a'..'f'. */
  function Digit(d: int): (c: char)
    requires 0 <= d < 16
    ensures IsHexChar(c)
  {
    if d < 10 then ('0' as int + d) as char else ('a' as int + d - 10) as char
  }

  predicate IsHexChar(c: char)
  {
    '0' <= c <= '9' || 'a' <= c <= 'f'
  }

  /** The value of a lower-case hex digit. */
  function DigitValue(c: char): (d: int)
    requires IsHexChar(c)
    ensures 0 <= d < 16 && Digit(d) == c
  {
    if c <= '9' then c as int - '0' as int else c as int - 'a' as int + 10
  }

  /** Two hex digits per byte, high nibble first. */
  function Encode(bytes: seq<Byte>): (s: string)
    ensures |s| == 2 * |bytes|
    ensures forall i :: 0 <= i < |s| ==> IsHexChar(s[i])
    decreases |bytes|
  {
    if |bytes| == 0 then ""
    else [Digit(bytes[0] / 16), Digit(bytes[0] % 16)] + Encode(bytes[1..])
  }

  /** Reads pairs of lower-case hex digits back into bytes; None for an odd
      length or a character outside '0'..'9', 'a'..'f'. */
  function Decode(s: string): Option<seq<Byte>>
    decreases |s|
  {
    if |s| == 0 then Some([])
    else if |s| == 1 || !IsHexChar(s[0]) || !IsHexChar(s[1]) then None
    else
      match Decode(s[2..])
      case None => None
      case Some(rest) => Some([DigitValue(s[0]) * 16 + DigitValue(s[1])] + rest)
  }

  /** Decoding recovers the bytes, so distinct byte strings render as
      distinct texts. */
  lemma {:induction false} DecodeEncode(bytes: seq<Byte>)
    ensures Decode(Encode(bytes)) == Some(bytes)
    decreases |bytes|
  {
    if |bytes| > 0 {
      var s := Encode(bytes);
      assert s[2..] == Encode(bytes[1..]);
      DecodeEncode(bytes[1..]);
      var b := bytes[0];
      assert DigitValue(s[0]) == b / 16;
      assert DigitValue(s[1]) == b % 16;
      assert [b] + bytes[1..] == bytes;
    }
  }

  /** Encoding is injective. */
  lemma EncodeInjective(a: seq<Byte>, b: seq<Byte>)
    requires Encode(a) == Encode(b)
    ensures a == b
  {
    DecodeEncode(a);
    DecodeEncode(b);
  }
}
