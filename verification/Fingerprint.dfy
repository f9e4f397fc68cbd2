/** The b1 fingerprint's quote, split on '%' and reconstruct replay. */
module Fingerprint {
  import opened Bytes
  import opened PercentCodec

  /** Unreserved bytes plus the safe set "!*'()". */
  predicate IsSafe(b: byte)
  {
    IsUnreserved(b) || b == 0x21 || b == 0x2A || b == 0x27 || b == 0x28 || b == 0x29
  }

  function QuoteByte(b: byte): Bytes { if IsSafe(b) then [b] else Escaped(b) }

  function Quote(s: Bytes): Bytes
  {
    if s == [] then [] else QuoteByte(s[0]) + Quote(s[1..])
  }

  lemma {:induction false} QuoteSnoc(s: Bytes, b: byte)
    ensures Quote(s + [b]) == Quote(s) + QuoteByte(b)
  {
    if s == [] {
      assert s + [b] == [b];
      assert Quote([b]) == QuoteByte(b) + Quote([]);
    } else {
      QuoteSnoc(s[1..], b);
      assert (s + [b])[1..] == s[1..] + [b];
      ConcatAssociates(QuoteByte(s[0]), Quote(s[1..]), QuoteByte(b));
    }
  }

  method UrllibQuoteAscii(s: Bytes) returns (q: Bytes)
    ensures q == Quote(s)
  {
    q := [];
    for i := 0 to |s|
      invariant q == Quote(s[..i])
    {
      QuoteSnoc(s[..i], s[i]);
      assert s[..i] + [s[i]] == s[..i + 1];
      if IsSafe(s[i]) {
        q := q + [s[i]];
      } else {
        q := q + [PERCENT, HexUpper(s[i] / 16), HexUpper(s[i] % 16)];
      }
    }
    assert s[..|s|] == s;
  }

  // ---- reconstruction ----

  datatype Rebuilt = Rebuilt(bytes: Bytes) | NoSegments | BadSegment

  predicate IsShort(seg: Bytes) { |seg| < 2 }

  predicate HasHexPrefix(seg: Bytes) { |seg| >= 2 && HexValue(seg[0]) >= 0 && HexValue(seg[1]) >= 0 }

  function SegmentBytes(seg: Bytes): Bytes
    requires HasHexPrefix(seg)
  {
    [16 * HexValue(seg[0]) + HexValue(seg[1])] + seg[2..]
  }

  /** The loop over the segments after the first; a short segment is copied, a bad escape aborts. */
  function FromSegments(segs: seq<Bytes>): Rebuilt
  {
    if segs == [] then Rebuilt([])
    else if IsShort(segs[0]) then Prepend(segs[0], FromSegments(segs[1..]))
    else if !HasHexPrefix(segs[0]) then BadSegment
    else Prepend(SegmentBytes(segs[0]), FromSegments(segs[1..]))
  }

  function Prepend(front: Bytes, r: Rebuilt): Rebuilt
  {
    if r.Rebuilt? then Rebuilt(front + r.bytes) else r
  }

  function Reconstruct(quoted: Bytes): Rebuilt
  {
    var segs := Split(quoted, PERCENT);
    if |segs| == 1 then NoSegments else FromSegments(segs[1..])
  }

  lemma PrependTwice(a: Bytes, b: Bytes, r: Rebuilt)
    ensures Prepend(a, Prepend(b, r)) == Prepend(a + b, r)
  {
    if r.Rebuilt? {
      assert a + (b + r.bytes) == a + b + r.bytes;
    }
  }

  /** What one more segment does to the bytes rebuilt so far. */
  lemma OneMoreSegment(recon: Bytes, segs: seq<Bytes>, i: nat)
    requires i < |segs|
    ensures Prepend(recon, FromSegments(segs[i..]))
         == if IsShort(segs[i]) then Prepend(recon + segs[i], FromSegments(segs[i + 1..]))
            else if !HasHexPrefix(segs[i]) then BadSegment
            else Prepend(recon + SegmentBytes(segs[i]), FromSegments(segs[i + 1..]))
  {
    assert segs[i..][0] == segs[i] && segs[i..][1..] == segs[i + 1..];
    PrependTwice(recon, segs[i], FromSegments(segs[i + 1..]));
    if HasHexPrefix(segs[i]) {
      PrependTwice(recon, SegmentBytes(segs[i]), FromSegments(segs[i + 1..]));
    }
  }

  method ReconstructQuoted(quoted: Bytes) returns (r: Rebuilt)
    ensures r == Reconstruct(quoted)
  {
    var segs := Split(quoted, PERCENT);
    if |segs| == 1 {
      return NoSegments;
    }
    var recon: Bytes := [];
    for i := 1 to |segs|
      invariant Prepend(recon, FromSegments(segs[i..])) == FromSegments(segs[1..])
    {
      var seg := segs[i];
      OneMoreSegment(recon, segs, i);
      if |seg| < 2 {
        recon := recon + seg;
        continue;
      }
      var hi, lo := HexValue(seg[0]), HexValue(seg[1]);
      if hi < 0 || lo < 0 {
        return BadSegment;
      }
      ConcatAssociates(recon, [16 * hi + lo], seg[2..]);
      recon := recon + [16 * hi + lo] + seg[2..];
    }
    assert segs[|segs|..] == [];
    r := Rebuilt(recon);
    assert recon + [] == recon;
  }

  // ---- what the replay computes ----

  /** The input without its leading run of safe bytes. */
  function DropSafePrefix(s: Bytes): Bytes
  {
    if s == [] || !IsSafe(s[0]) then s else DropSafePrefix(s[1..])
  }

  /** The parts of the quoted form of s: the safe run before the first escape, then one good segment per escape. */
  ghost predicate AreSegmentsOf(segs: seq<Bytes>, s: Bytes)
  {
    && |segs| >= 1
    && FromSegments(segs[1..]) == Rebuilt(DropSafePrefix(s))
    && (forall i :: 1 <= i < |segs| ==> HasHexPrefix(segs[i]))
    && segs[0] + DropSafePrefix(s) == s
    && (|segs| == 1 <==> DropSafePrefix(s) == [])
  }

  lemma AddSafeByte(b: byte, segs: seq<Bytes>, s: Bytes)
    requires IsSafe(b) && AreSegmentsOf(segs, s)
    ensures AreSegmentsOf([[b] + segs[0]] + segs[1..], [b] + s)
  {
    assert ([[b] + segs[0]] + segs[1..])[1..] == segs[1..];
    assert ([b] + s)[1..] == s;
    Regroup(b, segs[0], DropSafePrefix(s));
  }

  lemma Regroup(b: byte, a: Bytes, t: Bytes)
    ensures ([b] + a) + t == [b] + (a + t)
  {
  }

  lemma AddUnsafeByte(b: byte, segs: seq<Bytes>, s: Bytes)
    requires !IsSafe(b) && AreSegmentsOf(segs, s)
    ensures AreSegmentsOf([[]] + ([Digits(b) + segs[0]] + segs[1..]), [b] + s)
  {
    var seg := Digits(b) + segs[0];
    SegmentOfEscaped(b, segs[0]);
    var all := [[]] + ([seg] + segs[1..]);
    assert all[1..] == [seg] + segs[1..];
    assert ([seg] + segs[1..])[1..] == segs[1..];
    assert FromSegments(all[1..]) == Rebuilt(SegmentBytes(seg) + DropSafePrefix(s));
    assert ([b] + segs[0]) + DropSafePrefix(s) == [b] + s;
    assert [] + ([b] + s) == [b] + s;
  }

  lemma {:induction false} SegmentsOfQuoted(s: Bytes)
    ensures AreSegmentsOf(Split(Quote(s), PERCENT), s)
  {
    if s == [] {
      assert Split(Quote(s), PERCENT)[1..] == [];
    } else {
      SegmentsOfQuoted(s[1..]);
      AddByte(s[0], s[1..], Quote(s[1..]));
      assert [s[0]] + s[1..] == s;
    }
  }

  lemma AddByte(b: byte, t: Bytes, q: Bytes)
    requires AreSegmentsOf(Split(q, PERCENT), t)
    ensures AreSegmentsOf(Split(QuoteByte(b) + q, PERCENT), [b] + t)
  {
    if IsSafe(b) {
      SplitOrdinary(b, q);
      AddSafeByte(b, Split(q, PERCENT), t);
    } else {
      SplitEscaped(b, q);
      AddUnsafeByte(b, Split(q, PERCENT), t);
    }
  }

  function Digits(b: byte): Bytes { [HexUpper(b / 16), HexUpper(b % 16)] }

  lemma SegmentOfEscaped(b: byte, t: Bytes)
    ensures HasHexPrefix(Digits(b) + t) && SegmentBytes(Digits(b) + t) == [b] + t
  {
    HexRoundTrip(b);
    assert (Digits(b) + t)[2..] == t;
  }

  lemma SplitEscaped(b: byte, t: Bytes)
    ensures Split(Escaped(b) + t, PERCENT) == [[]] + ([Digits(b) + Split(t, PERCENT)[0]] + Split(t, PERCENT)[1..])
  {
    HexRoundTrip(b);
    var d := Digits(b);
    assert Escaped(b) + t == [] + [PERCENT] + ([d[0]] + ([d[1]] + t));
    SplitAfterPart([], PERCENT, [d[0]] + ([d[1]] + t));
    SplitOrdinary(d[1], t);
    SplitOrdinary(d[0], [d[1]] + t);
    var rest := Split(t, PERCENT);
    assert [d[0]] + ([d[1]] + rest[0]) == d + rest[0];
  }

  lemma SplitOrdinary(b: byte, t: Bytes)
    requires b != PERCENT
    ensures Split([b] + t, PERCENT) == [[b] + Split(t, PERCENT)[0]] + Split(t, PERCENT)[1..]
  {
    assert ([b] + t)[1..] == t;
  }

  predicate AllSafe(s: Bytes) { forall b <- s :: IsSafe(b) }

  lemma {:induction false} NothingLeftIffAllSafe(s: Bytes)
    ensures DropSafePrefix(s) == [] <==> AllSafe(s)
  {
    if s != [] && IsSafe(s[0]) {
      NothingLeftIffAllSafe(s[1..]);
      assert s == [s[0]] + s[1..];
    }
  }

  /**
    The replay never meets a short or malformed segment. It fails exactly on all-safe input, and otherwise returns
    the input from its first unsafe byte on.
   */
  lemma QuoteReplay(s: Bytes)
    ensures Reconstruct(Quote(s)) == if AllSafe(s) then NoSegments else Rebuilt(DropSafePrefix(s))
    ensures forall i :: 1 <= i < |Split(Quote(s), PERCENT)| ==> HasHexPrefix(Split(Quote(s), PERCENT)[i])
    ensures exists safe :: AllSafe(safe) && safe + DropSafePrefix(s) == s
    ensures DropSafePrefix(s) == [] || !IsSafe(DropSafePrefix(s)[0])
  {
    SegmentsOfQuoted(s);
    NothingLeftIffAllSafe(s);
    SafePrefix(s);
  }

  lemma {:induction false} SafePrefix(s: Bytes)
    ensures exists safe :: AllSafe(safe) && safe + DropSafePrefix(s) == s
    ensures DropSafePrefix(s) == [] || !IsSafe(DropSafePrefix(s)[0])
  {
    if s == [] || !IsSafe(s[0]) {
      assert AllSafe([]) && [] + DropSafePrefix(s) == s;
    } else {
      SafePrefix(s[1..]);
      var safe :| AllSafe(safe) && safe + DropSafePrefix(s[1..]) == s[1..];
      assert AllSafe([s[0]] + safe);
      ConcatAssociates([s[0]], safe, DropSafePrefix(s[1..]));
      assert [s[0]] + s[1..] == s;
    }
  }

  /** The replay is the identity exactly when the first byte is unsafe; a ciphertext's first byte may be either. */
  lemma ReplayIsIdentity(s: Bytes)
    ensures Reconstruct(Quote(s)) == Rebuilt(s) <==> s != [] && !IsSafe(s[0])
  {
    QuoteReplay(s);
  }
}
