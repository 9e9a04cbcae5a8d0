/**
 * Bytes and their lower-case hexadecimal rendering, as PHP's `bin2hex` produces
 * it, and the generation of a session key from `KEY_LENGTH` random bytes.
 */
module Encoding {
  import opened Wrappers

  /** A PHP string is a string of bytes. */
  type Byte = b: int | 0 <= b < 256
  type Bytes = seq<Byte>

  /** A session key: the string that names the session's log and keys its cipher. */
  type Key = string

  /** Number of random bytes in a session key. */
  const KeyLength: nat := 16

  predicate IsHexDigit(c: char) {
    '0' <= c <= '9' || 'a' <= c <= 'f'
  }

  /** The lower-case hexadecimal digit for a nibble. */
  function Digit(n: int): (c: char)
    requires 0 <= n < 16
    ensures IsHexDigit(c)
  {
    if n < 10 then ('0' as int + n) as char else ('a' as int + n - 10) as char
  }

  /** The value of a lower-case hexadecimal digit, the inverse of Digit. */
  function DigitValue(c: char): (r: Option<int>)
    ensures r.Some? <==> IsHexDigit(c)
    ensures forall n :: 0 <= n < 16 ==> (c == Digit(n) <==> r == Some(n))
  {
    if '0' <= c <= '9' then Some(c as int - '0' as int)
    else if 'a' <= c <= 'f' then Some(c as int - 'a' as int + 10)
    else None
  }

  /** `bin2hex`: two lower-case digits per byte, high nibble first. */
  function HexEncode(b: Bytes): (hex: string)
    ensures |hex| == 2 * |b|
    ensures forall i :: 0 <= i < |hex| ==> IsHexDigit(hex[i])
    ensures forall i :: 0 <= i < |b| ==> hex[2 * i] == Digit(b[i] / 16) && hex[2 * i + 1] == Digit(b[i] % 16)
  {
    if b == [] then []
    else
      var rest := HexEncode(b[1..]);
      assert forall i :: 1 <= i < |b| ==> b[i] == b[1..][i - 1];
      [Digit(b[0] / 16), Digit(b[0] % 16)] + rest
  }

  /** Reads back a rendering made by HexEncode; None for an odd length or a non-digit. */
  function HexDecode(s: string): (r: Option<Bytes>)
    decreases |s|
  {
    if |s| == 0 then Some([])
    else if |s| == 1 then None
    else
      match (DigitValue(s[0]), DigitValue(s[1]), HexDecode(s[2..]))
      case (Some(hi), Some(lo), Some(rest)) => Some([hi * 16 + lo] + rest)
      case _ => None
  }

  /** Decoding a hexadecimal rendering gives back the bytes it was made from. */
  lemma {:induction false} HexRoundTrip(b: Bytes)
    ensures HexDecode(HexEncode(b)) == Some(b)
  {
    if b != [] {
      HexRoundTrip(b[1..]);
      var hex := HexEncode(b);
      assert hex[2..] == HexEncode(b[1..]);
      assert DigitValue(hex[0]) == Some(b[0] / 16);
      assert DigitValue(hex[1]) == Some(b[0] % 16);
      assert [b[0]] + b[1..] == b;
    }
  }

  /** `generateRandomKey`: the hexadecimal rendering of KeyLength random bytes. */
  function GenerateRandomKey(random: Bytes): (key: Key)
    requires |random| == KeyLength
    ensures |key| == 32
    ensures forall i :: 0 <= i < |key| ==> IsHexDigit(key[i])
    ensures HexDecode(key) == Some(random)
  {
    HexRoundTrip(random);
    HexEncode(random)
  }

  /** Different random bytes never give the same session key. */
  lemma {:induction false} KeysDistinct(r1: Bytes, r2: Bytes)
    requires |r1| == KeyLength && |r2| == KeyLength
    ensures GenerateRandomKey(r1) == GenerateRandomKey(r2) <==> r1 == r2
  {
  }
}
