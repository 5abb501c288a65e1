/** Byte strings: the contents of a std::string, one Byte per char of the original. */
module ByteStrings {
  type Byte = c: char | (c as int) < 256 witness 'a'

  type Bytes = seq<Byte>

  predicate IsDigit(c: Byte) {
    '0' <= c <= '9'
  }

  // isalnum in the C locale: bytes of 0x80 and above are never letters.
  predicate IsAlnum(c: Byte) {
    IsDigit(c) || 'A' <= c <= 'Z' || 'a' <= c <= 'z'
  }

  // isxdigit in the C locale.
  predicate IsHex(c: Byte) {
    IsDigit(c) || 'A' <= c <= 'F' || 'a' <= c <= 'f'
  }

  function HexValue(c: Byte): (v: nat)
    requires IsHex(c)
    ensures v < 16
  {
    if IsDigit(c) then c as int - '0' as int
    else if 'A' <= c <= 'F' then c as int - 'A' as int + 10
    else c as int - 'a' as int + 10
  }

  const UPPER_XDIGITS: Bytes := ['0', '1', '2', '3', '4', '5', '6', '7', '8', '9', 'A', 'B', 'C', 'D', 'E', 'F']

  const LOWER_XDIGITS: Bytes := ['0', '1', '2', '3', '4', '5', '6', '7', '8', '9', 'a', 'b', 'c', 'd', 'e', 'f']

  lemma LowerDigitsRoundTrip(n: nat)
    requires n < 16
    ensures IsHex(LOWER_XDIGITS[n]) && HexValue(LOWER_XDIGITS[n]) == n
  {}

  // The byte with code n.
  function ByteOf(n: nat): (c: Byte)
    requires n < 256
    ensures c as int == n
  {
    n as char
  }
}
