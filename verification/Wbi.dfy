/** WBI request signing: percent-encoding of strings, the sorted query, the signature parameter. */
module Wbi {
  import Utf8
  import opened Bytes
  import opened Options
  import opened PercentCodec
  import opened SortedKeys

  const AMPERSAND: byte := 0x26
  const EQUALS: byte := 0x3D

  /** "wts" and "w_rid". */
  const WTS: Bytes := [0x77, 0x74, 0x73]
  const W_RID: Bytes := [0x77, 0x5F, 0x72, 0x69, 0x64]

  type Params = map<Bytes, Bytes>

  // ---- percent-encoding ----

  function EscapeAll(bs: Bytes): Bytes
  {
    if bs == [] then [] else Escaped(bs[0]) + EscapeAll(bs[1..])
  }

  function EncodeOneRune(r: int): Bytes
    requires Utf8.IsScalar(r)
  {
    if r < 256 && IsUnreserved(r) then [r] else EscapeAll(Utf8.EncodeRune(r))
  }

  function UriEncode(s: Bytes): Bytes
  {
    if s == [] then []
    else
      Utf8.DecodedIsScalar(s);
      EncodeOneRune(Utf8.DecodeRune(s).rune) + UriEncode(s[Utf8.DecodeRune(s).width..])
  }

  lemma {:induction false} EscapeAllSnoc(bs: Bytes, b: byte)
    ensures EscapeAll(bs + [b]) == EscapeAll(bs) + Escaped(b)
  {
    if bs == [] {
      assert bs + [b] == [b];
      assert EscapeAll([b]) == Escaped(b) + EscapeAll([]);
    } else {
      EscapeAllSnoc(bs[1..], b);
      assert (bs + [b])[1..] == bs[1..] + [b];
    }
  }

  method EscapeBytes(bs: Bytes) returns (out: Bytes)
    ensures out == EscapeAll(bs)
  {
    out := [];
    for i := 0 to |bs|
      invariant out == EscapeAll(bs[..i])
    {
      EscapeAllSnoc(bs[..i], bs[i]);
      assert bs[..i] + [bs[i]] == bs[..i + 1];
      out := out + [PERCENT, HexUpper(bs[i] / 16), HexUpper(bs[i] % 16)];
    }
    assert bs[..|bs|] == bs;
  }

  /** The loop body: the encoding of the first rune and how many bytes it takes. */
  method EncodeHead(s: Bytes) returns (piece: Bytes, width: nat)
    requires s != []
    ensures 1 <= width <= |s|
    ensures UriEncode(s) == piece + UriEncode(s[width..])
  {
    Utf8.DecodedIsScalar(s);
    var d := Utf8.DecodeRune(s);
    width := d.width;
    if d.rune < 256 && IsUnreserved(d.rune) {
      piece := [d.rune];
    } else {
      piece := EscapeBytes(Utf8.EncodeRune(d.rune));
    }
    assert piece == EncodeOneRune(d.rune);
  }

  method UriEncodeCaps(s: Bytes) returns (out: Bytes)
    ensures out == UriEncode(s)
  {
    out := [];
    var rest := s;
    while rest != []
      invariant out + UriEncode(rest) == UriEncode(s)
      decreases |rest|
    {
      var piece, width := EncodeHead(rest);
      ConcatAssociates(out, piece, UriEncode(rest[width..]));
      out := out + piece;
      rest := rest[width..];
    }
  }

  /** The reader's side: RFC 3986 percent-decoding; none when an escape is broken. */
  function PercentDecode(s: Bytes): Option<Bytes>
  {
    if s == [] then Some([])
    else if s[0] != PERCENT then Push([s[0]], PercentDecode(s[1..]))
    else if |s| >= 3 && HexValue(s[1]) >= 0 && HexValue(s[2]) >= 0 then
      Push([16 * HexValue(s[1]) + HexValue(s[2])], PercentDecode(s[3..]))
    else None
  }

  function Push(front: Bytes, r: Option<Bytes>): Option<Bytes>
  {
    if r.Some? then Some(front + r.value) else None
  }

  lemma DecodeEscaped(b: byte, t: Bytes)
    ensures PercentDecode(Escaped(b) + t) == Push([b], PercentDecode(t))
  {
    HexRoundTrip(b);
    var s := Escaped(b) + t;
    assert s[3..] == t;
  }

  lemma PushTwice(a: Bytes, b: Bytes, r: Option<Bytes>)
    ensures Push(a, Push(b, r)) == Push(a + b, r)
    ensures Push([], r) == r
  {
    if r.Some? {
      ConcatAssociates(a, b, r.value);
      assert [] + r.value == r.value;
    }
  }

  lemma {:induction false} DecodeEscapeAll(bs: Bytes, t: Bytes)
    ensures PercentDecode(EscapeAll(bs) + t) == Push(bs, PercentDecode(t))
  {
    if bs == [] {
      assert EscapeAll(bs) + t == t;
      PushTwice([], [], PercentDecode(t));
    } else {
      DecodeEscapeAll(bs[1..], t);
      ConcatAssociates(Escaped(bs[0]), EscapeAll(bs[1..]), t);
      DecodeEscaped(bs[0], EscapeAll(bs[1..]) + t);
      PushTwice([bs[0]], bs[1..], PercentDecode(t));
      assert [bs[0]] + bs[1..] == bs;
    }
  }

  lemma DecodeOneRune(r: int, t: Bytes)
    requires Utf8.IsScalar(r)
    ensures PercentDecode(EncodeOneRune(r) + t) == Push(Utf8.EncodeRune(r), PercentDecode(t))
  {
    if r < 256 && IsUnreserved(r) {
      assert ([r] + t)[1..] == t;
    } else {
      DecodeEscapeAll(Utf8.EncodeRune(r), t);
    }
  }

  lemma {:induction false} DecodedIsSanitised(s: Bytes)
    ensures PercentDecode(UriEncode(s)) == Some(Utf8.Sanitise(s))
  {
    if s != [] {
      var d := Utf8.DecodeRune(s);
      Utf8.DecodedIsScalar(s);
      DecodedIsSanitised(s[d.width..]);
      DecodeOneRune(d.rune, UriEncode(s[d.width..]));
    }
  }

  /** Percent-decoding returns the string that was encoded exactly when that string is valid UTF-8. */
  lemma EncodeRoundTrip(s: Bytes)
    ensures PercentDecode(UriEncode(s)) == Some(s) <==> Utf8.Valid(s)
  {
    DecodedIsSanitised(s);
    Utf8.SanitiseIsIdentity(s);
  }

  predicate IsWireByte(b: byte) { IsUnreserved(b) || b == PERCENT }

  lemma {:induction false} EscapeAllAlphabet(bs: Bytes)
    ensures forall b <- EscapeAll(bs) :: IsWireByte(b)
  {
    if bs != [] {
      HexRoundTrip(bs[0]);
      EscapeAllAlphabet(bs[1..]);
    }
  }

  /** Encoded strings use unreserved bytes and '%' only, so the query's delimiters stay unambiguous. */
  lemma {:induction false} EncodedAlphabet(s: Bytes)
    ensures forall b <- UriEncode(s) :: IsWireByte(b)
    ensures AMPERSAND !in UriEncode(s) && EQUALS !in UriEncode(s)
  {
    if s != [] {
      var d := Utf8.DecodeRune(s);
      Utf8.DecodedIsScalar(s);
      EscapeAllAlphabet(Utf8.EncodeRune(d.rune));
      EncodedAlphabet(s[d.width..]);
    }
  }

  lemma {:induction false} EscapeAllLength(bs: Bytes)
    ensures |EscapeAll(bs)| == 3 * |bs|
  {
    if bs != [] {
      EscapeAllLength(bs[1..]);
    }
  }

  /** An unreserved byte is copied; the encoding of any other rune is longer than the rune. */
  lemma OneRuneLength(s: Bytes)
    requires s != []
    ensures Utf8.IsScalar(Utf8.DecodeRune(s).rune)
    ensures var d := Utf8.DecodeRune(s); var piece := EncodeOneRune(d.rune);
            if IsUnreserved(s[0]) then d.width == 1 && piece == [s[0]] else |piece| > d.width
  {
    Utf8.EncodeDecoded(s);
    var d := Utf8.DecodeRune(s);
    if !IsUnreserved(s[0]) {
      assert !(d.rune < 256 && IsUnreserved(d.rune));
      EscapeAllLength(Utf8.EncodeRune(d.rune));
    }
  }

  predicate AllUnreserved(s: Bytes) { forall b <- s :: IsUnreserved(b) }

  lemma FirstAndRest(s: Bytes)
    requires s != []
    ensures AllUnreserved(s) <==> IsUnreserved(s[0]) && AllUnreserved(s[1..])
  {
    assert s == [s[0]] + s[1..];
  }

  lemma {:induction false} EncodingGrows(s: Bytes)
    ensures |UriEncode(s)| >= |s|
    ensures |UriEncode(s)| == |s| ==> AllUnreserved(s)
  {
    if s != [] {
      OneRuneLength(s);
      EncodingGrows(s[Utf8.DecodeRune(s).width..]);
      FirstAndRest(s);
    }
  }

  lemma {:induction false} UnreservedStays(s: Bytes)
    requires AllUnreserved(s)
    ensures UriEncode(s) == s
  {
    if s != [] {
      FirstAndRest(s);
      OneRuneLength(s);
      UnreservedStays(s[1..]);
      assert s == [s[0]] + s[1..];
    }
  }

  /** Nothing is escaped without need: a string is left as it is if and only if all its bytes are unreserved. */
  lemma OnlyUnreservedStay(s: Bytes)
    ensures UriEncode(s) == s <==> forall b <- s :: IsUnreserved(b)
  {
    EncodingGrows(s);
    if AllUnreserved(s) {
      UnreservedStays(s);
    }
  }

  // ---- the query string ----

  function PairText(k: Bytes, v: Bytes): Bytes { UriEncode(k) + [EQUALS] + UriEncode(v) }

  function PairTexts(ks: seq<Bytes>, m: Params): (ts: seq<Bytes>)
    requires forall k <- ks :: k in m
    ensures |ts| == |ks|
    ensures forall i :: 0 <= i < |ks| ==> ts[i] == PairText(ks[i], m[ks[i]])
  {
    seq(|ks|, i requires 0 <= i < |ks| => PairText(ks[i], m[ks[i]]))
  }

  ghost function Query(m: Params): Bytes { Join(PairTexts(Sorted(m.Keys), m), AMPERSAND) }

  method BuildQuery(m: Params) returns (q: Bytes)
    ensures q == Query(m)
  {
    var keys := SortStrings(m.Keys);
    var pairs := BuildPairs(keys, m);
    q := Join(pairs, AMPERSAND);
  }

  method BuildPairs(keys: seq<Bytes>, m: Params) returns (pairs: seq<Bytes>)
    requires forall k <- keys :: k in m
    ensures pairs == PairTexts(keys, m)
  {
    pairs := [];
    for i := 0 to |keys|
      invariant |pairs| == i
      invariant forall j :: 0 <= j < i ==> pairs[j] == PairText(keys[j], m[keys[j]])
    {
      var k := UriEncodeCaps(keys[i]);
      var v := UriEncodeCaps(m[keys[i]]);
      pairs := pairs + [k + [EQUALS] + v];
    }
  }

  /** How a server reads a query: split at '&', then at '=', and percent-decode both sides. */
  function ParsePair(t: Bytes): Option<(Bytes, Bytes)>
  {
    var parts := Split(t, EQUALS);
    if |parts| != 2 then None
    else
      match (PercentDecode(parts[0]), PercentDecode(parts[1]))
      case (Some(k), Some(v)) => Some((k, v))
      case _ => None
  }

  function ParsePairs(ts: seq<Bytes>): Option<Params>
  {
    if ts == [] then Some(map[])
    else
      match (ParsePairs(ts[..|ts| - 1]), ParsePair(ts[|ts| - 1]))
      case (Some(m), Some(p)) => Some(m[p.0 := p.1])
      case _ => None
  }

  function ParseQuery(q: Bytes): Option<Params>
  {
    if q == [] then Some(map[]) else ParsePairs(Split(q, AMPERSAND))
  }

  lemma PairTextShape(k: Bytes, v: Bytes)
    ensures AMPERSAND !in PairText(k, v) && PairText(k, v) != []
    ensures Split(PairText(k, v), EQUALS) == [UriEncode(k), UriEncode(v)]
    ensures ParsePair(PairText(k, v)) == Some((Utf8.Sanitise(k), Utf8.Sanitise(v)))
  {
    EncodedAlphabet(k);
    EncodedAlphabet(v);
    SplitAfterPart(UriEncode(k), EQUALS, UriEncode(v));
    SplitWithoutSeparator(UriEncode(v), EQUALS);
    DecodedIsSanitised(k);
    DecodedIsSanitised(v);
  }

  /** The parameters as they come out at the other end. */
  function Received(ks: seq<Bytes>, m: Params): Params
    requires forall k <- ks :: k in m
  {
    if ks == [] then map[]
    else
      var k := ks[|ks| - 1];
      Received(ks[..|ks| - 1], m)[Utf8.Sanitise(k) := Utf8.Sanitise(m[k])]
  }

  lemma {:induction false} ParsePairTexts(ks: seq<Bytes>, m: Params)
    requires forall k <- ks :: k in m
    ensures ParsePairs(PairTexts(ks, m)) == Some(Received(ks, m))
  {
    if ks != [] {
      var init := ks[..|ks| - 1];
      ParsePairTexts(init, m);
      assert PairTexts(ks, m)[..|ks| - 1] == PairTexts(init, m);
      PairTextShape(ks[|ks| - 1], m[ks[|ks| - 1]]);
    }
  }

  lemma QuerySplits(ks: seq<Bytes>, m: Params)
    requires ks != [] && forall k <- ks :: k in m
    ensures Join(PairTexts(ks, m), AMPERSAND) != []
    ensures Split(Join(PairTexts(ks, m), AMPERSAND), AMPERSAND) == PairTexts(ks, m)
  {
    var ts := PairTexts(ks, m);
    forall i | 0 <= i < |ts|
      ensures AMPERSAND !in ts[i] && ts[i] != []
    {
      PairTextShape(ks[i], m[ks[i]]);
    }
    SplitJoin(ts, AMPERSAND);
    assert Split([], AMPERSAND) == [[]];
  }

  lemma {:induction false} ReceivedWhenValid(ks: seq<Bytes>, m: Params)
    requires forall k <- ks :: k in m && Utf8.Valid(k) && Utf8.Valid(m[k])
    ensures forall k :: k in Received(ks, m) <==> k in ks
    ensures forall k <- ks :: Received(ks, m)[k] == m[k]
  {
    if ks != [] {
      var last := ks[|ks| - 1];
      assert ks == ks[..|ks| - 1] + [last];
      ReceivedWhenValid(ks[..|ks| - 1], m);
      Utf8.SanitiseIsIdentity(last);
      Utf8.SanitiseIsIdentity(m[last]);
    }
  }

  lemma {:induction false} ReceivedIsValid(ks: seq<Bytes>, m: Params)
    requires forall k <- ks :: k in m
    ensures forall k <- Received(ks, m) :: Utf8.Valid(k) && Utf8.Valid(Received(ks, m)[k])
  {
    if ks != [] {
      var last := ks[|ks| - 1];
      ReceivedIsValid(ks[..|ks| - 1], m);
      Utf8.SanitisedIsValid(last);
      Utf8.SanitisedIsValid(m[last]);
    }
  }

  predicate AllValid(m: Params) { forall k <- m :: Utf8.Valid(k) && Utf8.Valid(m[k]) }

  /** What a server recovers from any query: the parameters as their encodings show them. */
  lemma QueryIsReceived(m: Params)
    ensures forall k <- Sorted(m.Keys) :: k in m
    ensures m != map[] ==> ParseQuery(Query(m)) == Some(Received(Sorted(m.Keys), m))
  {
    var ks := Sorted(m.Keys);
    if m != map[] {
      var k :| k in m;
      assert k in ks;
      QuerySplits(ks, m);
      ParsePairTexts(ks, m);
    }
  }

  lemma ValidIsReceived(m: Params)
    requires AllValid(m)
    ensures forall k <- Sorted(m.Keys) :: k in m
    ensures Received(Sorted(m.Keys), m) == m
  {
    ReceivedWhenValid(Sorted(m.Keys), m);
  }

  lemma OnlyValidIsReceived(m: Params)
    requires forall k <- Sorted(m.Keys) :: k in m
    requires Received(Sorted(m.Keys), m) == m
    ensures AllValid(m)
  {
    ReceivedIsValid(Sorted(m.Keys), m);
  }

  /** A server recovers every parameter exactly when all keys and values are valid UTF-8. */
  lemma QueryRoundTrip(m: Params)
    ensures ParseQuery(Query(m)) == Some(m) <==> AllValid(m)
  {
    QueryIsReceived(m);
    if m == map[] {
      assert Sorted(m.Keys) == [];
    } else if AllValid(m) {
      ValidIsReceived(m);
    } else if Received(Sorted(m.Keys), m) == m {
      OnlyValidIsReceived(m);
    }
  }

  // ---- the signature ----

  /** What a server hashes: the received query without its w_rid pair. */
  function KeepUnsigned(ts: seq<Bytes>): seq<Bytes>
  {
    if ts == [] then []
    else (if Split(ts[0], EQUALS)[0] == W_RID then [] else [ts[0]]) + KeepUnsigned(ts[1..])
  }

  function DropSignature(q: Bytes): Bytes { Join(KeepUnsigned(Split(q, AMPERSAND)), AMPERSAND) }

  lemma {:induction false} AsciiSanitised(s: Bytes)
    requires forall b <- Utf8.Sanitise(s) :: b < 0x80
    ensures Utf8.Sanitise(s) == s
  {
    if s != [] {
      var d := Utf8.DecodeRune(s);
      Utf8.DecodedIsScalar(s);
      Utf8.EncodeDecoded(s);
      var e := Utf8.EncodeRune(d.rune);
      assert e[0] in Utf8.Sanitise(s);
      assert forall b <- Utf8.Sanitise(s[d.width..]) :: b in Utf8.Sanitise(s);
      AsciiSanitised(s[d.width..]);
      assert s[..d.width] + s[d.width..] == s;
    }
  }

  lemma {:induction false} UnreservedSpelling(s: Bytes)
    requires forall b <- s :: IsUnreserved(b)
    ensures UriEncode(s) == s && Utf8.Sanitise(s) == s
  {
    if s != [] {
      assert s[0] in s;
      UnreservedSpelling(s[1..]);
      UnreservedHead(s);
      assert [s[0]] + s[1..] == s;
    }
  }

  lemma UnreservedHead(s: Bytes)
    requires s != [] && IsUnreserved(s[0])
    ensures UriEncode(s) == [s[0]] + UriEncode(s[1..])
    ensures Utf8.Sanitise(s) == [s[0]] + Utf8.Sanitise(s[1..])
  {
    assert Utf8.DecodeRune(s) == Utf8.Decoded(s[0], 1);
  }

  /** A name of unreserved bytes is the only key that is spelled like itself. */
  lemma SpellingIsUnique(k: Bytes, name: Bytes)
    requires forall b <- name :: IsUnreserved(b)
    ensures UriEncode(k) == name <==> k == name
  {
    UnreservedSpelling(name);
    if UriEncode(k) == name {
      SpelledLikeItself(k, name);
    }
  }

  lemma SpelledLikeItself(k: Bytes, name: Bytes)
    requires (forall b <- name :: IsUnreserved(b)) && UriEncode(k) == UriEncode(name) && Utf8.Sanitise(name) == name
    ensures k == name
  {
    SameSpelling(k, name);
    SanitisedToAscii(k, name);
  }

  lemma SanitisedToAscii(k: Bytes, name: Bytes)
    requires Utf8.Sanitise(k) == name && forall b <- name :: IsUnreserved(b)
    ensures k == name
  {
    AsciiSanitised(k);
  }

  lemma SameSpelling(k: Bytes, name: Bytes)
    requires UriEncode(k) == UriEncode(name)
    ensures Utf8.Sanitise(k) == Utf8.Sanitise(name)
  {
    DecodedIsSanitised(k);
    DecodedIsSanitised(name);
  }

  lemma PairTextOfSignature(k: Bytes, v: Bytes)
    ensures Split(PairText(k, v), EQUALS)[0] == W_RID <==> k == W_RID
  {
    PairTextShape(k, v);
    SpellingIsUnique(k, W_RID);
  }

  lemma {:induction false} KeepUnsignedPairs(ks: seq<Bytes>, m: Params)
    requires forall k <- ks :: k in m
    ensures forall k <- Without(ks, W_RID) :: k in m
    ensures KeepUnsigned(PairTexts(ks, m)) == PairTexts(Without(ks, W_RID), m)
  {
    if ks != [] {
      var k, t, rest := ks[0], PairText(ks[0], m[ks[0]]), Without(ks[1..], W_RID);
      KeepUnsignedPairs(ks[1..], m);
      PairTextOfSignature(k, m[k]);
      PairTextsCons(k, ks[1..], m);
      KeepUnsignedStep(t, PairTexts(ks[1..], m));
      PairTextsCons(k, rest, m);
      assert [k] + ks[1..] == ks;
      assert [] + PairTexts(rest, m) == PairTexts(rest, m) && [] + rest == rest;
    }
  }

  lemma PairTextsCons(k: Bytes, ks: seq<Bytes>, m: Params)
    requires k in m && forall k' <- ks :: k' in m
    ensures PairTexts([k] + ks, m) == [PairText(k, m[k])] + PairTexts(ks, m)
  {
  }

  lemma KeepUnsignedStep(t: Bytes, ts: seq<Bytes>)
    ensures KeepUnsigned([t] + ts)
         == (if Split(t, EQUALS)[0] == W_RID then [] else [t]) + KeepUnsigned(ts)
  {
    assert ([t] + ts)[1..] == ts;
  }

  lemma PairTextsWithout(m: Params)
    ensures forall k <- Without(Sorted(m.Keys), W_RID) :: k in m
    ensures PairTexts(Without(Sorted(m.Keys), W_RID), m)
         == PairTexts(Sorted((m - {W_RID}).Keys), m - {W_RID})
  {
    SortedWithout(m.Keys, W_RID);
    var rest := m - {W_RID};
    assert rest.Keys == m.Keys - {W_RID};
  }

  lemma DropSignatureOfQuery(m: Params)
    requires m != map[]
    ensures DropSignature(Query(m)) == Query(m - {W_RID})
  {
    var ks := Sorted(m.Keys);
    assert ks != [] by {
      var k :| k in m;
      assert k in ks;
    }
    QuerySplits(ks, m);
    KeepUnsignedPairs(ks, m);
    PairTextsWithout(m);
  }

  /** A query with a w_rid pair differs from the query without it. */
  lemma QueryShowsSignature(m: Params)
    requires W_RID in m && WTS in m
    ensures Query(m - {W_RID}) != Query(m)
  {
    var rest := m - {W_RID};
    var ks, ks' := Sorted(m.Keys), Sorted(rest.Keys);
    assert WTS in ks && WTS in ks' && W_RID in ks && W_RID !in ks';
    QuerySplits(ks, m);
    QuerySplits(ks', rest);
    if Query(rest) == Query(m) {
      var i :| 0 <= i < |ks| && ks[i] == W_RID;
      assert PairTexts(ks, m)[i] == PairTexts(ks', rest)[i];
      PairTextOfSignature(ks[i], m[ks[i]]);
      PairTextOfSignature(ks'[i], rest[ks'[i]]);
      assert false;
    }
  }

  // ---- the mixin key ----

  /** The first half of the front-end's reorder table, all that the 32-byte key uses. */
  const MIXIN_ORDER: seq<nat> := [
    46, 47, 18, 2, 53, 8, 23, 32, 15, 50, 10, 31, 58, 3, 45, 35,
    27, 43, 5, 49, 33, 9, 42, 19, 29, 28, 14, 39, 12, 38, 41, 13]

  function Pick(raw: Bytes, order: seq<nat>): Bytes
  {
    if order == [] then []
    else
      var last := order[|order| - 1];
      Pick(raw, order[..|order| - 1]) + if last < |raw| then [raw[last]] else []
  }

  method WbiMixinFromKeys(imgKey: Bytes, subKey: Bytes) returns (mixinKey: Bytes)
    ensures mixinKey == Pick(imgKey + subKey, MIXIN_ORDER)
    ensures |mixinKey| <= 32
    ensures |mixinKey| == 32 <==> |imgKey| + |subKey| > 58
    ensures |imgKey| + |subKey| > 58 ==>
              forall i :: 0 <= i < 32 ==> MIXIN_ORDER[i] <= 58 && mixinKey[i] == (imgKey + subKey)[MIXIN_ORDER[i]]
  {
    mixinKey := PickLoop(imgKey + subKey, MIXIN_ORDER);
    PickIsFull(imgKey + subKey, MIXIN_ORDER);
    MixinOrderReaches58();
  }

  lemma MixinOrderReaches58()
    ensures |MIXIN_ORDER| == 32 && MIXIN_ORDER[12] == 58
    ensures forall i :: 0 <= i < |MIXIN_ORDER| ==> MIXIN_ORDER[i] <= 58
  {
  }

  method PickLoop(raw: Bytes, order: seq<nat>) returns (picked: Bytes)
    ensures picked == Pick(raw, order)
  {
    picked := [];
    for i := 0 to |order|
      invariant picked == Pick(raw, order[..i])
    {
      assert order[..i + 1][..i] == order[..i];
      if order[i] < |raw| {
        picked := picked + [raw[order[i]]];
      }
    }
    assert order[..|order|] == order;
  }

  lemma {:induction false} PickIsFull(raw: Bytes, order: seq<nat>)
    ensures |Pick(raw, order)| <= |order|
    ensures |Pick(raw, order)| == |order| <==> forall i :: 0 <= i < |order| ==> order[i] < |raw|
    ensures |Pick(raw, order)| == |order| ==>
              forall i :: 0 <= i < |order| ==> order[i] < |raw| && Pick(raw, order)[i] == raw[order[i]]
  {
    if order != [] {
      PickIsFull(raw, order[..|order| - 1]);
    }
  }

  // ---- signing ----

  function HexLower(nibble: byte): byte
    requires nibble < 16
  {
    if nibble < 10 then 0x30 + nibble else 0x61 + nibble - 10
  }

  function HexString(bs: Bytes): (h: Bytes)
  {
    if bs == [] then [] else [HexLower(bs[0] / 16), HexLower(bs[0] % 16)] + HexString(bs[1..])
  }

  lemma {:induction false} HexStringAlphabet(bs: Bytes)
    ensures forall b <- HexString(bs) :: IsUnreserved(b)
  {
    if bs != [] {
      HexStringAlphabet(bs[1..]);
    }
  }

  predicate IsLowerHex(b: byte) { IsDigit(b) || 0x61 <= b <= 0x66 }

  /** Two lower-case digits for each byte, the higher half first. */
  lemma {:induction false} HexStringReads(bs: Bytes)
    ensures |HexString(bs)| == 2 * |bs|
    ensures forall i :: 0 <= i < |bs| ==>
              var hi, lo := HexString(bs)[2 * i], HexString(bs)[2 * i + 1];
              IsLowerHex(hi) && IsLowerHex(lo) && 16 * HexValue(hi) + HexValue(lo) == bs[i]
  {
    if bs != [] {
      HexStringReads(bs[1..]);
      var h, t := HexString(bs), HexString(bs[1..]);
      forall i | 0 <= i < |bs|
        ensures IsLowerHex(h[2 * i]) && IsLowerHex(h[2 * i + 1])
        ensures 16 * HexValue(h[2 * i]) + HexValue(h[2 * i + 1]) == bs[i]
      {
        if i > 0 {
          assert h[2 * i] == t[2 * (i - 1)] && h[2 * i + 1] == t[2 * (i - 1) + 1] && bs[i] == bs[1..][i - 1];
        }
      }
    }
  }

  datatype Signed = Signed(query: Bytes) | KeyNotReady

  /** The parameter map is updated in place by every signature. */
  class SigningRequest {
    var params: Params

    constructor (params: Params)
      ensures this.params == params
    {
      this.params := params;
    }

    /** md5 is the digest function, now the decimal clock reading. */
    method WbiSign(mixinKey: Bytes, now: Bytes, md5: Bytes -> Bytes) returns (r: Signed)
      modifies this
      ensures mixinKey == [] ==> r == KeyNotReady && params == old(params)
      ensures mixinKey != [] ==>
                var hashed := Query(old(params)[WTS := now]);
                && params == old(params)[WTS := now][W_RID := HexString(md5(hashed + mixinKey))]
                && r == Signed(Query(params))
    {
      if mixinKey == [] {
        return KeyNotReady;
      }
      params := params[WTS := now];
      var queryStr := BuildQuery(params);
      params := params[W_RID := HexString(md5(queryStr + mixinKey))];
      var q := BuildQuery(params);
      r := Signed(q);
    }
  }

  ghost function HashedText(params: Params, now: Bytes): Bytes { Query(params[WTS := now]) }

  ghost function SignedQuery(params: Params, now: Bytes, wRid: Bytes): Bytes
  {
    Query(params[WTS := now][W_RID := wRid])
  }

  lemma RemoveAfterUpdate(m: Params, k: Bytes, v: Bytes)
    ensures m[k := v] - {k} == m - {k}
    ensures k !in m ==> m - {k} == m
  {
  }

  /** A server that removes w_rid sees the hashed text exactly when the caller's map did not already hold one. */
  lemma SignatureCoversQuery(params: Params, now: Bytes, wRid: Bytes)
    ensures DropSignature(SignedQuery(params, now, wRid)) == HashedText(params, now) <==> W_RID !in params
  {
    var hashed := params[WTS := now];
    var signed := hashed[W_RID := wRid];
    assert W_RID in signed && (W_RID in hashed <==> W_RID in params) by {
      assert |WTS| != |W_RID|;
    }
    DropSignatureOfQuery(signed);
    RemoveAfterUpdate(hashed, W_RID, wRid);
    if W_RID in params {
      QueryShowsSignature(hashed);
    }
  }

  /** A string of unreserved bytes is valid UTF-8. */
  lemma {:induction false} UnreservedIsValid(s: Bytes)
    requires forall b <- s :: IsUnreserved(b)
    ensures Utf8.Valid(s)
  {
    if s != [] {
      assert s[0] in s;
      assert Utf8.DecodeRune(s) == Utf8.Decoded(s[0], 1);
      UnreservedIsValid(s[1..]);
    }
  }

  lemma ValidUpdate(m: Params, k: Bytes, v: Bytes)
    requires Utf8.Valid(k)
    ensures AllValid(m[k := v]) <==> Utf8.Valid(v) && AllValid(m - {k})
  {
    var m', rest := m[k := v], m - {k};
    assert k in m' && m'[k] == v;
    if AllValid(m') {
      forall j | j in rest
        ensures Utf8.Valid(j) && Utf8.Valid(rest[j])
      {
        assert j in m' && m'[j] == rest[j];
      }
    }
    if Utf8.Valid(v) && AllValid(rest) {
      forall j | j in m'
        ensures Utf8.Valid(j) && Utf8.Valid(m'[j])
      {
        assert j != k ==> j in rest && m'[j] == rest[j];
      }
    }
  }

  lemma UpdateCommutes(m: Params, k: Bytes, v: Bytes, j: Bytes)
    requires k != j
    ensures m[k := v] - {j} == (m - {j})[k := v]
    ensures m - {j} - {k} == m - {k, j}
  {
  }

  lemma SignedValidity(params: Params, now: Bytes, wRid: Bytes)
    requires Utf8.Valid(wRid)
    ensures AllValid(params[WTS := now][W_RID := wRid]) <==> Utf8.Valid(now) && AllValid(params - {WTS, W_RID})
  {
    UnreservedIsValid(WTS);
    UnreservedIsValid(W_RID);
    assert WTS != W_RID by {
      assert |WTS| != |W_RID|;
    }
    ValidUpdate(params[WTS := now], W_RID, wRid);
    UpdateCommutes(params, WTS, now, W_RID);
    ValidUpdate(params - {W_RID}, WTS, now);
  }

  /** The signed query reads back as the caller's parameters plus wts and w_rid exactly when those are valid UTF-8. */
  lemma SignedRoundTrip(params: Params, now: Bytes, digest: Bytes)
    ensures var wRid := HexString(digest);
            ParseQuery(SignedQuery(params, now, wRid)) == Some(params[WTS := now][W_RID := wRid])
            <==> Utf8.Valid(now) && AllValid(params - {WTS, W_RID})
  {
    var wRid := HexString(digest);
    HexStringAlphabet(digest);
    UnreservedIsValid(wRid);
    SignedValidity(params, now, wRid);
    QueryRoundTrip(params[WTS := now][W_RID := wRid]);
  }
}
