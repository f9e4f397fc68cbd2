/** Byte layouts of the SMC wire structure. */
module SmcCodec {
  import opened Bytes

  const KEY_DATA_SIZE: nat := 80
  const OFF_KEY: nat := 0
  const OFF_KEY_INFO_SIZE: nat := 28
  const OFF_RESULT: nat := 40
  const OFF_DATA8: nat := 42
  const OFF_BYTES: nat := 48
  const CMD_READ_BYTES: byte := 5
  const CMD_WRITE_BYTES: byte := 6
  const CMD_READ_KEY_INFO: byte := 9

  const TWO32: int := 0x1_0000_0000

  type U32 = x: int | 0 <= x < 0x1_0000_0000

  /** Conversion of a machine integer to 32 bits. */
  function ToU32(x: int): U32 { x % TWO32 }

  /** The number whose base-256 digits are the bytes, the most significant one first. */
  function FoldBytes(bs: Bytes): int
  {
    if bs == [] then 0 else FoldBytes(bs[..|bs| - 1]) * 256 + bs[|bs| - 1]
  }

  // ---- big-endian fields ----

  function Be32(v: U32): (b: Bytes)
    ensures |b| == 4
  {
    [v / 0x1000000, v / 0x10000 % 256, v / 0x100 % 256, v % 256]
  }

  function Weigh(a: int, b: int, c: int, d: int): int { a * 0x1000000 + b * 0x10000 + c * 0x100 + d }

  function FromBe32(b: Bytes): U32
    requires |b| == 4
  {
    Weigh(b[0], b[1], b[2], b[3])
  }

  lemma Digits(a: byte, b: byte, c: byte, d: byte)
    ensures var v := Weigh(a, b, c, d);
            v / 0x1000000 == a && v / 0x10000 % 256 == b && v / 0x100 % 256 == c && v % 256 == d
  {
    var v := Weigh(a, b, c, d);
    assert v / 0x100 == a * 0x10000 + b * 0x100 + c;
    assert v / 0x10000 == a * 0x100 + b;
  }

  lemma WeighDigits(v: U32)
    ensures Weigh(v / 0x1000000, v / 0x10000 % 256, v / 0x100 % 256, v % 256) == v
  {
    assert v / 0x10000 == v / 0x100 / 0x100;
    assert v / 0x1000000 == v / 0x10000 / 0x100;
  }

  lemma Be32RoundTrip(v: U32, b: Bytes)
    requires |b| == 4
    ensures FromBe32(Be32(v)) == v
    ensures Be32(FromBe32(b)) == b
  {
    WeighDigits(v);
    Digits(b[0], b[1], b[2], b[3]);
  }

  method PutU32(buf: array<byte>, off: nat, v: U32)
    requires off + 4 <= buf.Length
    modifies buf
    ensures buf[..] == old(buf[..off]) + Be32(v) + old(buf[off + 4..])
    ensures buf[off..off + 4] == Be32(v)
  {
    buf[off] := v / 0x1000000;
    buf[off + 1] := v / 0x10000 % 256;
    buf[off + 2] := v / 0x100 % 256;
    buf[off + 3] := v % 256;
  }

  // ---- little-endian percentages ----

  function Le32b(v: U32): (b: Bytes)
    ensures |b| == 4
  {
    [v % 256, v / 0x100 % 256, v / 0x10000 % 256, v / 0x1000000]
  }

  function Le32(b: Bytes): U32
    requires |b| == 4
  {
    Weigh(b[3], b[2], b[1], b[0])
  }

  lemma Le32RoundTrip(v: U32, b: Bytes)
    requires |b| == 4
    ensures Le32(Le32b(v)) == v
    ensures Le32b(Le32(b)) == b
  {
    WeighDigits(v);
    Digits(b[3], b[2], b[1], b[0]);
  }

  /** The words' byte orders: the first byte weighs most in one and least in the other. */
  lemma WordsArePositional(b: Bytes)
    requires |b| == 4
    ensures FromBe32(b) == FoldBytes(b)
    ensures Le32(b) == FoldBytes([b[3], b[2], b[1], b[0]])
  {
    FoldFour(b);
    FoldFour([b[3], b[2], b[1], b[0]]);
  }

  lemma FoldFour(b: Bytes)
    requires |b| == 4
    ensures FoldBytes(b) == Weigh(b[0], b[1], b[2], b[3])
  {
    assert b[..3][..2] == b[..2] && b[..2][..1] == b[..1] && b[..1][..0] == [];
    assert FoldBytes(b[..1]) == b[0];
    assert FoldBytes(b[..2]) == FoldBytes(b[..1]) * 256 + b[1];
    assert FoldBytes(b[..3]) == FoldBytes(b[..2]) * 256 + b[2];
  }

  // ---- four-character keys ----

  function Padded(s: Bytes): (p: Bytes)
    requires |s| <= 4
    ensures |p| == 4
  {
    s + seq(4 - |s|, _ => 0)
  }

  predicate IsKeyText(s: Bytes) { 1 <= |s| <= 4 }

  method FourCc(s: Bytes) returns (k: U32, ok: bool)
    ensures ok <==> IsKeyText(s)
    ensures ok ==> k == KeyCode(s)
  {
    if s == [] || |s| > 4 {
      return 0, false;
    }
    var v := 0;
    ghost var p := Padded(s);
    for i := 0 to 4
      invariant v == FoldBytes(p[..i])
      invariant 0 <= v < if i == 0 then 1 else if i == 1 then 0x100 else if i == 2 then 0x10000
                         else if i == 3 then 0x1000000 else TWO32
    {
      var c: byte := if i < |s| then s[i] else 0;
      assert p[..i + 1][..i] == p[..i];
      v := v * 256 % TWO32 + c;
    }
    FoldOfFour(p);
    assert p[..4] == p;
    return v, true;
  }

  function KeyCode(s: Bytes): U32
    requires IsKeyText(s)
  {
    FromBe32(Padded(s))
  }

  lemma FoldOfFour(p: Bytes)
    requires |p| == 4
    ensures FoldBytes(p) == FromBe32(p)
  {
    var p3, p2, p1 := p[..3], p[..2], p[..1];
    assert p3[..2] == p2 && p2[..1] == p1 && p1[..0] == [];
    assert FoldBytes(p1) == p[0];
    assert FoldBytes(p2) == FoldBytes(p1) * 256 + p[1];
    assert FoldBytes(p3) == FoldBytes(p2) * 256 + p[2];
  }

  function TrimRightNul(s: Bytes): Bytes
  {
    if s != [] && s[|s| - 1] == 0 then TrimRightNul(s[..|s| - 1]) else s
  }

  function KeyName(k: U32): Bytes { TrimRightNul(Be32(k)) }

  lemma {:induction false} TrimPadding(s: Bytes, n: nat)
    ensures TrimRightNul(s + seq(n, _ => 0)) == TrimRightNul(s)
  {
    var p := s + seq(n, _ => 0);
    if n == 0 {
      assert p == s;
    } else {
      TrimPadding(s, n - 1);
      assert p[..|p| - 1] == s + seq(n - 1, _ => 0);
    }
  }

  /** A key text survives packing and printing exactly when it does not end in NUL. */
  lemma KeyNameRoundTrip(s: Bytes)
    requires IsKeyText(s)
    ensures KeyName(KeyCode(s)) == TrimRightNul(s)
    ensures KeyName(KeyCode(s)) == s <==> s[|s| - 1] != 0
  {
    NameOfCode(Padded(s));
    TrimPadding(s, 4 - |s|);
    TrimShortens(s);
  }

  lemma NameOfCode(p: Bytes)
    requires |p| == 4
    ensures KeyName(FromBe32(p)) == TrimRightNul(p)
  {
    Be32RoundTrip(0, p);
  }

  lemma {:induction false} TrimShortens(s: Bytes)
    ensures |TrimRightNul(s)| <= |s|
    ensures s != [] && s[|s| - 1] == 0 ==> |TrimRightNul(s)| < |s|
  {
    if s != [] {
      TrimShortens(s[..|s| - 1]);
    }
  }

  /** Distinct key texts that do not end in NUL never share a code. */
  lemma KeyCodesAreDistinct(s: Bytes, t: Bytes)
    requires IsKeyText(s) && IsKeyText(t) && s[|s| - 1] != 0 && t[|t| - 1] != 0
    ensures KeyCode(s) == KeyCode(t) <==> s == t
  {
    KeyNameRoundTrip(s);
    KeyNameRoundTrip(t);
  }
}
