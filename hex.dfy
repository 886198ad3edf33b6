/**
  Reading the hexadecimal constant tables of the Poseidon parameters:
  `decode_hex` and `get_scalar_from_hex`.
 */
module Hex {
  import opened Field

  predicate IsAscii(c: char) { c as int < 128 }

  predicate IsHexDigit(c: char)
  {
    '0' <= c <= '9' || 'a' <= c <= 'f' || 'A' <= c <= 'F'
  }

  function DigitValue(c: char): (d: nat)
    requires IsHexDigit(c)
    ensures d < 16
  {
    if '0' <= c <= '9' then c as int - '0' as int
    else if 'a' <= c <= 'f' then c as int - 'a' as int + 10
    else c as int - 'A' as int + 10
  }

  /**
    The two-character strings `u8::from_str_radix(_, 16)` accepts: two hex
    digits, or a `+` sign followed by one hex digit.
   */
  predicate IsBytePair(c0: char, c1: char)
  {
    IsHexDigit(c1) && (IsHexDigit(c0) || c0 == '+')
  }

  function PairValue(c0: char, c1: char): Byte
    requires IsBytePair(c0, c1)
  {
    if c0 == '+' then DigitValue(c1) else 16 * DigitValue(c0) + DigitValue(c1)
  }

  /**
    The strings `decode_hex` accepts without panicking: at least the two
    (one-byte) characters it skips, then an even number of characters read
    pair by pair.
   */
  predicate IsHexString(s: string)
  {
    && |s| >= 2
    && IsAscii(s[0]) && IsAscii(s[1])
    && |s| % 2 == 0
    && forall k :: 0 <= k < (|s| - 2) / 2 ==> IsBytePair(s[2 + 2 * k], s[3 + 2 * k])
  }

  /** `decode_hex`: drop the first two characters, then read one byte per pair of characters. */
  function DecodeHex(s: string): (r: seq<Byte>)
    requires IsHexString(s)
    ensures |r| == (|s| - 2) / 2
  {
    seq((|s| - 2) / 2, k requires 0 <= k < (|s| - 2) / 2 => PairValue(s[2 + 2 * k], s[3 + 2 * k]))
  }

  /** The strings `get_scalar_from_hex` accepts: hex strings that decode to exactly 32 bytes. */
  predicate IsScalarHex(s: string)
  {
    IsHexString(s) && |s| == 66
  }

  /** `get_scalar_from_hex`: the 32 decoded bytes, read little-endian and reduced modulo L. */
  function ScalarFromHex(s: string): (r: Scalar)
    requires IsScalarHex(s)
    ensures LeValue(DecodeHex(s)) < L ==> r == LeValue(DecodeHex(s))
  {
    FromBytesModOrder(DecodeHex(s))
  }

  // ---------------------------------------------------------------------------
  // The encoding the tables are written in

  function HexDigit(d: nat): (c: char)
    requires d < 16
    ensures IsHexDigit(c) && DigitValue(c) == d
  {
    if d < 10 then ('0' as int + d) as char else ('a' as int + d - 10) as char
  }

  /** A byte string written as `0x` followed by two lower-case hex digits per byte. */
  function EncodeHex(bytes: seq<Byte>): (s: string)
    ensures |s| == 2 + 2 * |bytes|
  {
    "0x" + seq(2 * |bytes|, k requires 0 <= k < 2 * |bytes| =>
      if k % 2 == 0 then HexDigit(bytes[k / 2] / 16) else HexDigit(bytes[k / 2] % 16))
  }

  /** Characters `2 + 2 k` and `3 + 2 k` of the encoding are the two digits of byte `k`. */
  lemma EncodeHexAt(bytes: seq<Byte>, k: nat)
    requires k < |bytes|
    ensures EncodeHex(bytes)[2 + 2 * k] == HexDigit(bytes[k] / 16)
    ensures EncodeHex(bytes)[3 + 2 * k] == HexDigit(bytes[k] % 16)
  {
    var digits := EncodeHex(bytes)[2..];
    assert (2 * k + 1) / 2 == k && (2 * k) / 2 == k;
    assert EncodeHex(bytes)[2 + 2 * k] == digits[2 * k];
    assert EncodeHex(bytes)[3 + 2 * k] == digits[2 * k + 1];
  }

  /** A byte's two digits read back as the byte. */
  lemma PairOfDigits(b: Byte)
    ensures IsBytePair(HexDigit(b / 16), HexDigit(b % 16))
    ensures PairValue(HexDigit(b / 16), HexDigit(b % 16)) == b
  {
  }

  /** The table encoding is always a string `decode_hex` accepts. */
  lemma EncodeHexWellFormed(bytes: seq<Byte>)
    ensures IsHexString(EncodeHex(bytes))
    ensures (|EncodeHex(bytes)| - 2) / 2 == |bytes|
  {
    var s := EncodeHex(bytes);
    forall k | 0 <= k < |bytes|
      ensures IsBytePair(s[2 + 2 * k], s[3 + 2 * k])
    {
      EncodeHexAt(bytes, k);
      PairOfDigits(bytes[k]);
    }
  }

  /** `decode_hex` inverts the table encoding: every byte string comes back unchanged. */
  lemma DecodeEncodeHex(bytes: seq<Byte>)
    ensures IsHexString(EncodeHex(bytes))
    ensures DecodeHex(EncodeHex(bytes)) == bytes
  {
    EncodeHexWellFormed(bytes);
    var decoded := DecodeHex(EncodeHex(bytes));
    forall k | 0 <= k < |bytes|
      ensures decoded[k] == bytes[k]
    {
      EncodeHexAt(bytes, k);
      PairOfDigits(bytes[k]);
    }
  }

  /** Every scalar, written as the 32-byte hex literal of its encoding, is read back by `get_scalar_from_hex`. */
  lemma ScalarHexRoundTrip(x: Scalar)
    ensures IsScalarHex(EncodeHex(ToBytes(x)))
    ensures ScalarFromHex(EncodeHex(ToBytes(x))) == x
  {
    DecodeEncodeHex(ToBytes(x));
    ScalarBytesRoundTrip(x);
  }
}
