/**
 * Base 64 encoding as section 4 of RFC 4648 defines it: every three bytes
 * become four characters of a 64-letter alphabet, and a short last group is
 * padded with `=`. The tool hands the key's bytes to a library encoder; this
 * module states what that encoder computes.
 */
module Base64 {

  type Byte = b: int | 0 <= b < 256

  const Pad: char := '='

  /**
   * The letter for a 6-bit value in the alphabet of RFC 4648, section 4
   * (Table 1): `A`..`Z`, `a`..`z`, `0`..`9`, `+`, `/`.
   */
  function Digit(v: int): char
    requires 0 <= v < 64
  {
    if v < 26 then ('A' as int + v) as char
    else if v < 52 then ('a' as int + (v - 26)) as char
    else if v < 62 then ('0' as int + (v - 52)) as char
    else if v == 62 then '+'
    else '/'
  }

  /** One character of the encoding: a letter of the alphabet or the pad. */
  predicate IsEncodingChar(c: char) {
    'A' <= c <= 'Z' || 'a' <= c <= 'z' || '0' <= c <= '9' || c == '+' || c == '/' || c == Pad
  }

  /**
   * The encoding of `bytes`. Its length is four characters per started group
   * of three bytes, and every character is an alphabet letter or the pad.
   */
  function Encode(bytes: seq<Byte>): (r: string)
    ensures |r| == 4 * ((|bytes| + 2) / 3)
    ensures forall i :: 0 <= i < |r| ==> IsEncodingChar(r[i])
    decreases |bytes|
  {
    if |bytes| == 0 then ""
    else if |bytes| == 1 then
      [Digit(bytes[0] / 4), Digit(bytes[0] % 4 * 16), Pad, Pad]
    else if |bytes| == 2 then
      [Digit(bytes[0] / 4), Digit(bytes[0] % 4 * 16 + bytes[1] / 16), Digit(bytes[1] % 16 * 4), Pad]
    else
      var group := [Digit(bytes[0] / 4), Digit(bytes[0] % 4 * 16 + bytes[1] / 16),
                    Digit(bytes[1] % 16 * 4 + bytes[2] / 64), Digit(bytes[2] % 64)];
      var rest := Encode(bytes[3..]);
      assert forall i :: 0 <= i < |group| ==> IsEncodingChar(group[i]);
      group + rest
  }

  /** An encoding never contains a line break, so a PEM body's breaks are all inserted ones. */
  lemma EncodingHasNoLineBreak(bytes: seq<Byte>)
    ensures '\n' !in Encode(bytes)
  {
  }
}
