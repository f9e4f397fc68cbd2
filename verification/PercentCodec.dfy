/** Percent escapes (RFC 3986, section 2.1) as the two signers write and read them. */
module PercentCodec {
  import opened Bytes

  const PERCENT: byte := 0x25

  predicate IsUpper(b: byte) { 0x41 <= b <= 0x5A }

  predicate IsLower(b: byte) { 0x61 <= b <= 0x7A }

  predicate IsDigit(b: byte) { 0x30 <= b <= 0x39 }

  /** "-", "_", "." and "~" complete the unreserved set of RFC 3986, section 2.3. */
  predicate IsUnreserved(b: byte)
  {
    IsLower(b) || IsUpper(b) || IsDigit(b) || b == 0x2D || b == 0x5F || b == 0x2E || b == 0x7E
  }

  /** The upper-case digit table of both encoders. */
  function HexUpper(nibble: byte): byte
    requires nibble < 16
  {
    if nibble < 10 then 0x30 + nibble else 0x41 + nibble - 10
  }

  function Escaped(b: byte): Bytes { [PERCENT, HexUpper(b / 16), HexUpper(b % 16)] }

  /** Hex digits are read in either case. */
  function HexValue(d: byte): (v: int)
    ensures -1 <= v < 16
  {
    if IsDigit(d) then d - 0x30
    else if 0x41 <= d <= 0x46 then d - 0x41 + 10
    else if 0x61 <= d <= 0x66 then d - 0x61 + 10
    else -1
  }

  lemma HexRoundTrip(b: byte)
    ensures HexValue(HexUpper(b / 16)) == b / 16 && HexValue(HexUpper(b % 16)) == b % 16
    ensures 16 * HexValue(HexUpper(b / 16)) + HexValue(HexUpper(b % 16)) == b
    ensures IsUnreserved(HexUpper(b / 16)) && IsUnreserved(HexUpper(b % 16))
    ensures !IsLower(HexUpper(b / 16)) && !IsLower(HexUpper(b % 16))
  {
  }
}
