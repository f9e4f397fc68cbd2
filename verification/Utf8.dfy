/** Go's range-over-string decoding and rune encoding: ill-formed input becomes U+FFFD one byte at a time. */
module Utf8 {
  import opened Bytes

  const REPLACEMENT: int := 0xFFFD

  /** A decoded rune and its width; width 1 with the replacement rune is the mark of ill-formed input. */
  datatype Decoded = Decoded(rune: int, width: nat)

  predicate IsTail(b: byte) { 0x80 <= b <= 0xBF }

  /** The second byte of a sequence is restricted further after some lead bytes. */
  predicate IsSecond(lead: byte, b: byte)
  {
    if lead == 0xE0 then 0xA0 <= b <= 0xBF
    else if lead == 0xED then 0x80 <= b <= 0x9F
    else if lead == 0xF0 then 0x90 <= b <= 0xBF
    else if lead == 0xF4 then 0x80 <= b <= 0x8F
    else IsTail(b)
  }

  /** The payload bits of a byte whose marker bits are base. */
  function Bits(b: byte, base: int): int { b as int - base }

  function DecodeRune(s: Bytes): (d: Decoded)
    requires s != []
    ensures 1 <= d.width <= |s|
  {
    var b := s[0];
    if b < 0x80 then Decoded(b, 1)
    else if 0xC2 <= b <= 0xDF && |s| >= 2 && IsTail(s[1]) then Decoded(Bits(b, 0xC0) * 64 + Bits(s[1], 0x80), 2)
    else if 0xE0 <= b <= 0xEF && |s| >= 3 && IsSecond(b, s[1]) && IsTail(s[2]) then
      Decoded(Bits(b, 0xE0) * 4096 + Bits(s[1], 0x80) * 64 + Bits(s[2], 0x80), 3)
    else if 0xF0 <= b <= 0xF4 && |s| >= 4 && IsSecond(b, s[1]) && IsTail(s[2]) && IsTail(s[3]) then
      Decoded(Bits(b, 0xF0) * 262144 + Bits(s[1], 0x80) * 4096 + Bits(s[2], 0x80) * 64 + Bits(s[3], 0x80), 4)
    else Decoded(REPLACEMENT, 1)
  }

  predicate IllFormed(d: Decoded) { d == Decoded(REPLACEMENT, 1) }

  /** The runes UTF-8 can carry: everything up to U+10FFFF except the surrogates. */
  predicate IsScalar(r: int) { 0 <= r < 0xD800 || 0xE000 <= r <= 0x10FFFF }

  function EncodeRune(r: int): Bytes
    requires IsScalar(r)
  {
    if r < 0x80 then [r]
    else if r < 0x800 then [0xC0 + r / 64, 0x80 + r % 64]
    else if r < 0x10000 then [0xE0 + r / 4096, 0x80 + r / 64 % 64, 0x80 + r % 64]
    else [0xF0 + r / 262144, 0x80 + r / 4096 % 64, 0x80 + r / 64 % 64, 0x80 + r % 64]
  }

  lemma DecodedIsScalar(s: Bytes)
    requires s != []
    ensures IsScalar(DecodeRune(s).rune)
  {
  }

  lemma SplitOff(high: int, low: int)
    requires 0 <= low < 64
    ensures (high * 64 + low) / 64 == high && (high * 64 + low) % 64 == low
  {
  }

  lemma ThreeGroups(x: int, y: int, z: int)
    requires 0 <= y < 64 && 0 <= z < 64
    ensures var r := x * 4096 + y * 64 + z; r / 4096 == x && r / 64 % 64 == y && r % 64 == z
  {
    SplitOff(x * 64 + y, z);
    SplitOff(x, y);
  }

  lemma FourGroups(x: int, y: int, z: int, w: int)
    requires 0 <= y < 64 && 0 <= z < 64 && 0 <= w < 64
    ensures var r := x * 262144 + y * 4096 + z * 64 + w;
            r / 262144 == x && r / 4096 % 64 == y && r / 64 % 64 == z && r % 64 == w
  {
    var r := x * 262144 + y * 4096 + z * 64 + w;
    SplitOff(x * 4096 + y * 64 + z, w);
    ThreeGroups(x, y, z);
    assert r / 64 == x * 4096 + y * 64 + z;
    assert r / 4096 == r / 64 / 64;
    assert r / 262144 == r / 64 / 4096;
  }

  /** Re-encoding a well-formed rune gives back the very bytes it was decoded from. */
  lemma EncodeDecoded(s: Bytes)
    requires s != []
    ensures IsScalar(DecodeRune(s).rune)
    ensures !IllFormed(DecodeRune(s)) ==> EncodeRune(DecodeRune(s).rune) == s[..DecodeRune(s).width]
  {
    DecodedIsScalar(s);
    match DecodeRune(s).width {
      case 3 => EncodeDecodedThree(s);
      case 4 => EncodeDecodedFour(s);
      case _ =>
    }
  }

  lemma EncodeDecodedThree(s: Bytes)
    requires s != [] && DecodeRune(s).width == 3
    ensures IsScalar(DecodeRune(s).rune) && EncodeRune(DecodeRune(s).rune) == s[..3]
  {
    ThreeGroups(Bits(s[0], 0xE0), Bits(s[1], 0x80), Bits(s[2], 0x80));
  }

  lemma EncodeDecodedFour(s: Bytes)
    requires s != [] && DecodeRune(s).width == 4
    ensures IsScalar(DecodeRune(s).rune) && EncodeRune(DecodeRune(s).rune) == s[..4]
  {
    FourGroups(Bits(s[0], 0xF0), Bits(s[1], 0x80), Bits(s[2], 0x80), Bits(s[3], 0x80));
  }

  lemma DecodeEncoded(r: int, t: Bytes)
    requires IsScalar(r)
    ensures DecodeRune(EncodeRune(r) + t) == Decoded(r, |EncodeRune(r)|)
  {
    if r < 0x800 {
      DecodeShort(r, t);
    } else if r < 0x10000 {
      DecodeThree(r, t);
    } else {
      DecodeFour(r, t);
    }
  }

  lemma DecodeShort(r: int, t: Bytes)
    requires 0 <= r < 0x800
    ensures DecodeRune(EncodeRune(r) + t) == Decoded(r, |EncodeRune(r)|)
  {
  }

  lemma DecodeThree(r: int, t: Bytes)
    requires IsScalar(r) && 0x800 <= r < 0x10000
    ensures DecodeRune(EncodeRune(r) + t) == Decoded(r, 3)
  {
    var s := EncodeRune(r) + t;
    assert r == (r / 4096) * 4096 + (r / 64 % 64) * 64 + r % 64;
    assert s[0] == 0xE0 + r / 4096 && s[1] == 0x80 + r / 64 % 64 && s[2] == 0x80 + r % 64;
  }

  lemma DecodeFour(r: int, t: Bytes)
    requires 0x10000 <= r <= 0x10FFFF
    ensures DecodeRune(EncodeRune(r) + t) == Decoded(r, 4)
  {
    var x, y, z, w := r / 262144, r / 4096 % 64, r / 64 % 64, r % 64;
    FourDigits(r);
    assert EncodeRune(r) + t == [0xF0 + x, 0x80 + y, 0x80 + z, 0x80 + w] + t;
    DecodeFourBytes(x, y, z, w, t);
  }

  lemma FourDigits(r: int)
    requires 0x10000 <= r <= 0x10FFFF
    ensures var x, y, z, w := r / 262144, r / 4096 % 64, r / 64 % 64, r % 64;
            && r == x * 262144 + y * 4096 + z * 64 + w
            && 0 <= x <= 4 && (x == 0 ==> y >= 16) && (x == 4 ==> y < 16)
  {
  }

  lemma DecodeFourBytes(x: int, y: int, z: int, w: int, t: Bytes)
    requires 0 <= x <= 4 && 0 <= y < 64 && 0 <= z < 64 && 0 <= w < 64
    requires (x == 0 ==> y >= 16) && (x == 4 ==> y < 16)
    ensures DecodeRune([0xF0 + x, 0x80 + y, 0x80 + z, 0x80 + w] + t)
         == Decoded(x * 262144 + y * 4096 + z * 64 + w, 4)
  {
  }

  predicate Valid(s: Bytes)
  {
    s == [] || (!IllFormed(DecodeRune(s)) && Valid(s[DecodeRune(s).width..]))
  }

  /** What a string looks like after one pass through runes. */
  function Sanitise(s: Bytes): Bytes
  {
    if s == [] then []
    else
      DecodedIsScalar(s);
      EncodeRune(DecodeRune(s).rune) + Sanitise(s[DecodeRune(s).width..])
  }

  lemma {:induction false} SanitiseIsIdentity(s: Bytes)
    ensures |Sanitise(s)| >= |s|
    ensures Sanitise(s) == s <==> Valid(s)
    ensures !Valid(s) ==> |Sanitise(s)| > |s|
  {
    if s != [] {
      var w := DecodeRune(s).width;
      EncodeDecoded(s);
      SanitiseIsIdentity(s[w..]);
      assert s[..w] + s[w..] == s;
    }
  }

  lemma {:induction false} SanitisedIsValid(s: Bytes)
    ensures Valid(Sanitise(s))
  {
    if s != [] {
      var d := DecodeRune(s);
      DecodedIsScalar(s);
      var rest := Sanitise(s[d.width..]);
      DecodeEncoded(d.rune, rest);
      assert (EncodeRune(d.rune) + rest)[|EncodeRune(d.rune)|..] == rest;
      SanitisedIsValid(s[d.width..]);
    }
  }
}
