/** Engine.IO text packets over HTTP long-polling: the packet codec and the buffering reader. */
module EngineIo {
  import opened Bytes

  const OPEN: byte := 0
  const CLOSE: byte := 1
  const PING: byte := 2
  const PONG: byte := 3
  const MESSAGE: byte := 4
  const UPGRADE: byte := 5
  const NOOP: byte := 6

  const ZERO_DIGIT: byte := 0x30
  const SEPARATOR: byte := 0x1e

  datatype Packet = Packet(kind: byte, data: Bytes)

  // ---- codec ----

  /** The type digit is computed in eight bits, so it wraps for kinds above 207. */
  function EncodeTextPacket(p: Packet): Bytes
  {
    [(ZERO_DIGIT + p.kind) % 256] + p.data
  }

  predicate IsControl(kind: byte) { kind == CLOSE || kind == PING || kind == PONG || kind == NOOP }

  predicate CarriesData(kind: byte) { kind == OPEN || kind == MESSAGE || kind == UPGRADE }

  /** What one packet may look like on the wire: a known kind, data only where the kind has any, no separator. */
  predicate WellFormed(p: Packet)
  {
    ((IsControl(p.kind) && p.data == []) || CarriesData(p.kind)) && SEPARATOR !in p.data
  }

  function KindOf(digit: byte): byte { (digit - ZERO_DIGIT) % 256 }

  /** A run without separators: a data packet takes everything that follows it, unknown digits are skipped. */
  function DecodeRun(s: Bytes): seq<Packet>
  {
    if s == [] then []
    else if CarriesData(KindOf(s[0])) then [Packet(KindOf(s[0]), s[1..])]
    else if IsControl(KindOf(s[0])) then [Packet(KindOf(s[0]), [])] + DecodeRun(s[1..])
    else DecodeRun(s[1..])
  }

  function DecodeParts(parts: seq<Bytes>): seq<Packet>
  {
    if parts == [] then [] else DecodeRun(parts[0]) + DecodeParts(parts[1..])
  }

  function Decode(data: Bytes): seq<Packet>
  {
    if SEPARATOR in data then DecodeParts(Split(data, SEPARATOR)) else DecodeRun(data)
  }

  lemma {:induction false} DecodePartsSnoc(parts: seq<Bytes>, p: Bytes)
    ensures DecodeParts(parts + [p]) == DecodeParts(parts) + DecodeRun(p)
  {
    if parts == [] {
      assert parts + [p] == [p];
    } else {
      DecodePartsSnoc(parts[1..], p);
      assert (parts + [p])[1..] == parts[1..] + [p];
      ConcatAssociates(DecodeRun(parts[0]), DecodeParts(parts[1..]), DecodeRun(p));
    }
  }

  method DecodeTextPackets(data: Bytes) returns (packets: seq<Packet>)
    ensures packets == Decode(data)
    decreases if SEPARATOR in data then 1 else 0
  {
    packets := [];
    if SEPARATOR in data {
      var parts := Split(data, SEPARATOR);
      PartsHaveNoSeparator(data, SEPARATOR);
      for i := 0 to |parts|
        invariant packets == DecodeParts(parts[..i])
      {
        DecodePartsSnoc(parts[..i], parts[i]);
        assert parts[..i] + [parts[i]] == parts[..i + 1];
        if |parts[i]| == 0 {
          continue;
        }
        var inner := DecodeTextPackets(parts[i]);
        packets := packets + inner;
      }
      assert parts[..|parts|] == parts;
      return;
    }
    var s := data;
    while |s| > 0
      invariant packets + DecodeRun(s) == DecodeRun(data)
      decreases |s|
    {
      var kind := KindOf(s[0]);
      s := s[1..];
      if CarriesData(kind) {
        packets := packets + [Packet(kind, s)];
        s := [];
      } else if IsControl(kind) {
        packets := packets + [Packet(kind, [])];
      }
    }
  }

  // ---- what decoding can produce ----

  lemma {:induction false} DecodedRunWellFormed(s: Bytes)
    requires SEPARATOR !in s
    ensures forall p <- DecodeRun(s) :: WellFormed(p)
    ensures forall i :: 0 <= i < |DecodeRun(s)| - 1 ==> IsControl(DecodeRun(s)[i].kind)
  {
    if s != [] {
      DecodedRunWellFormed(s[1..]);
    }
  }

  lemma {:induction false} DecodedPartsWellFormed(parts: seq<Bytes>)
    requires forall part <- parts :: SEPARATOR !in part
    ensures forall p <- DecodeParts(parts) :: WellFormed(p)
  {
    if parts != [] {
      DecodedRunWellFormed(parts[0]);
      DecodedPartsWellFormed(parts[1..]);
    }
  }

  /** Whatever bytes a server sends, every packet handed on is well-formed. */
  lemma DecodedWellFormed(data: Bytes)
    ensures forall p <- Decode(data) :: WellFormed(p)
  {
    if SEPARATOR in data {
      PartsHaveNoSeparator(data, SEPARATOR);
      DecodedPartsWellFormed(Split(data, SEPARATOR));
    } else {
      DecodedRunWellFormed(data);
    }
  }

  // ---- round trips ----

  function EncodeEach(ps: seq<Packet>): (parts: seq<Bytes>)
    ensures |parts| == |ps|
    ensures forall i :: 0 <= i < |ps| ==> parts[i] == EncodeTextPacket(ps[i])
  {
    seq(|ps|, i requires 0 <= i < |ps| => EncodeTextPacket(ps[i]))
  }

  /** A polling payload: the encoded packets joined by the record separator. */
  function EncodePayload(ps: seq<Packet>): Bytes { Join(EncodeEach(ps), SEPARATOR) }

  lemma DecodeRunOfOne(p: Packet, rest: Bytes)
    requires WellFormed(p)
    ensures SEPARATOR !in EncodeTextPacket(p)
    ensures DecodeRun(EncodeTextPacket(p)) == [p]
    ensures IsControl(p.kind) ==> DecodeRun(EncodeTextPacket(p) + rest) == [p] + DecodeRun(rest)
  {
    var e := EncodeTextPacket(p);
    assert KindOf(e[0]) == p.kind;
    assert e[1..] == p.data;
    if IsControl(p.kind) {
      assert e == [e[0]];
      assert (e + rest)[1..] == rest;
      assert DecodeRun(e[1..]) == [];
    }
  }

  lemma {:induction false} DecodeEncodedParts(ps: seq<Packet>)
    requires forall p <- ps :: WellFormed(p)
    ensures DecodeParts(EncodeEach(ps)) == ps
    ensures forall part <- EncodeEach(ps) :: SEPARATOR !in part
  {
    if ps != [] {
      DecodeRunOfOne(ps[0], []);
      DecodeEncodedParts(ps[1..]);
      assert EncodeEach(ps)[1..] == EncodeEach(ps[1..]);
      assert EncodeEach(ps) == [EncodeTextPacket(ps[0])] + EncodeEach(ps[1..]);
    }
  }

  /** The payload codec loses nothing on exactly the lists of well-formed packets. */
  lemma PayloadRoundTrip(ps: seq<Packet>)
    ensures Decode(EncodePayload(ps)) == ps <==> forall p <- ps :: WellFormed(p)
  {
    if forall p <- ps :: WellFormed(p) {
      var parts := EncodeEach(ps);
      DecodeEncodedParts(ps);
      JoinOfNonEmptyParts(parts, SEPARATOR);
      if |ps| > 1 {
        SplitJoin(parts, SEPARATOR);
      } else if |ps| == 1 {
        DecodeRunOfOne(ps[0], []);
        assert ps == [ps[0]];
      }
    } else {
      DecodedWellFormed(EncodePayload(ps));
    }
  }

  /** Decoding is a normal form: whatever arrived, re-encoding it decodes to the same packets. */
  lemma DecodeIsStable(data: Bytes)
    ensures Decode(EncodePayload(Decode(data))) == Decode(data)
  {
    DecodedWellFormed(data);
    PayloadRoundTrip(Decode(data));
  }

  function Concat(parts: seq<Bytes>): Bytes
  {
    if parts == [] then [] else parts[0] + Concat(parts[1..])
  }

  lemma {:induction false} DecodeConcatenated(ps: seq<Packet>)
    requires forall p <- ps :: WellFormed(p)
    requires forall i :: 0 <= i < |ps| - 1 ==> IsControl(ps[i].kind)
    ensures SEPARATOR !in Concat(EncodeEach(ps))
    ensures DecodeRun(Concat(EncodeEach(ps))) == ps
  {
    if ps != [] {
      var rest := Concat(EncodeEach(ps[1..]));
      DecodeRunOfOne(ps[0], rest);
      DecodeConcatenated(ps[1..]);
      assert EncodeEach(ps)[1..] == EncodeEach(ps[1..]);
      if |ps| == 1 {
        assert EncodeTextPacket(ps[0]) + rest == EncodeTextPacket(ps[0]);
        assert ps == [ps[0]];
      }
    }
  }

  lemma {:induction false} ConcatKeepsSeparators(parts: seq<Bytes>)
    ensures (SEPARATOR in Concat(parts)) <==> exists part <- parts :: SEPARATOR in part
  {
    if parts != [] {
      ConcatKeepsSeparators(parts[1..]);
      assert parts == [parts[0]] + parts[1..];
    }
  }

  /** Without separators a list survives exactly when it is well-formed and only its last packet may carry data. */
  lemma UnseparatedRoundTrip(ps: seq<Packet>)
    ensures Decode(Concat(EncodeEach(ps))) == ps
        <==> (forall p <- ps :: WellFormed(p)) && (forall i :: 0 <= i < |ps| - 1 ==> IsControl(ps[i].kind))
  {
    var wire := Concat(EncodeEach(ps));
    if (forall p <- ps :: WellFormed(p)) && (forall i :: 0 <= i < |ps| - 1 ==> IsControl(ps[i].kind)) {
      DecodeConcatenated(ps);
    } else if Decode(wire) == ps {
      DecodedWellFormed(wire);
      DecodeEncodedParts(ps);
      ConcatKeepsSeparators(EncodeEach(ps));
      DecodedRunWellFormed(wire);
    }
  }

  // ---- what the reader makes of its polls ----

  datatype Poll = Body(data: Bytes) | PollError

  datatype ReadResult = Delivered(packet: Packet) | PollFailed | PongFailed

  predicate IsMessage(p: Packet) { p.kind == MESSAGE || p.kind == UPGRADE }

  /** The packets the reader passes on to its caller. */
  function Messages(ps: seq<Packet>): seq<Packet>
  {
    if ps == [] then [] else MessageOf(ps[0]) + Messages(ps[1..])
  }

  function MessageOf(p: Packet): seq<Packet> { if IsMessage(p) then [p] else [] }

  function Pings(ps: seq<Packet>): nat
  {
    if ps == [] then 0 else (if ps[0].kind == PING then 1 else 0) + Pings(ps[1..])
  }

  function DecodeBodies(polls: seq<Poll>): seq<Packet>
  {
    if polls == [] then []
    else (match polls[0] case Body(data) => Decode(data) case PollError => []) + DecodeBodies(polls[1..])
  }

  /** Write number n is refused; writes beyond the list are. */
  predicate WriteFails(writes: seq<bool>, n: nat) { n >= |writes| || !writes[n] }

  /** The first n writes succeed. */
  predicate Answered(writes: seq<bool>, n: nat)
  {
    n <= |writes| && forall i :: 0 <= i < n ==> writes[i]
  }

  function After(writes: seq<bool>, n: nat): seq<bool> { if n <= |writes| then writes[n..] else [] }

  /** How many packets of a body are handled: those before a close, or before a ping whose pong cannot be written. */
  function FirstStop(body: seq<Packet>, writes: seq<bool>): (n: nat)
    ensures n <= |body|
  {
    if body == [] || body[0].kind == CLOSE then 0
    else if body[0].kind != PING then 1 + FirstStop(body[1..], writes)
    else if WriteFails(writes, 0) then 0
    else 1 + FirstStop(body[1..], writes[1..])
  }

  /** What one read returns and leaves behind, with the packets handled and the messages lost on the way. */
  datatype Reading = Reading(
    result: ReadResult, buf: seq<Packet>, rest: seq<Poll>, handled: seq<Packet>, lost: seq<Packet>)

  /** Reading with an empty buffer. */
  function ReadPolls(polls: seq<Poll>, writes: seq<bool>): Reading
  {
    if polls == [] then Reading(PollFailed, [], [], [], [])
    else if polls[0].PollError? then Reading(PollFailed, [], polls[1..], [], [])
    else
      var body := Decode(polls[0].data);
      var n := FirstStop(body, writes);
      if n < |body| then StoppedAt(body, n, polls[1..])
      else if Messages(body) != [] then FirstOf(Messages(body), polls[1..], body)
      else Later(body, ReadPolls(polls[1..], After(writes, Pings(body))))
  }

  /** A close takes the messages of its whole body with it, an unwritable pong those behind its ping. */
  function StoppedAt(body: seq<Packet>, n: nat, rest: seq<Poll>): Reading
    requires n < |body|
  {
    if body[n].kind == CLOSE then Reading(Delivered(body[n]), [], rest, body[..n], Messages(body))
    else Reading(PongFailed, Messages(body[..n]), rest, body[..n], Messages(body[n..]))
  }

  function FirstOf(messages: seq<Packet>, rest: seq<Poll>, handled: seq<Packet>): Reading
    requires messages != []
  {
    Reading(Delivered(messages[0]), messages[1..], rest, handled, [])
  }

  function Later(body: seq<Packet>, x: Reading): Reading { x.(handled := body + x.handled) }

  /** One read, from what is buffered if anything is. */
  function Read(buf: seq<Packet>, polls: seq<Poll>, writes: seq<bool>): Reading
  {
    if buf != [] then FirstOf(buf, polls, []) else ReadPolls(polls, writes)
  }

  // ---- facts about the packets handled ----

  lemma {:induction false} MessagesAppend(a: seq<Packet>, b: seq<Packet>)
    ensures Messages(a + b) == Messages(a) + Messages(b)
  {
    if a == [] {
      assert a + b == b;
    } else {
      MessagesAppend(a[1..], b);
      assert (a + b)[1..] == a[1..] + b;
      ConcatAssociates(MessageOf(a[0]), Messages(a[1..]), Messages(b));
    }
  }

  lemma {:induction false} PingsAppend(a: seq<Packet>, b: seq<Packet>)
    ensures Pings(a + b) == Pings(a) + Pings(b)
  {
    if a == [] {
      assert a + b == b;
    } else {
      PingsAppend(a[1..], b);
      assert (a + b)[1..] == a[1..] + b;
    }
  }

  lemma MessagesSplit(body: seq<Packet>, n: nat)
    requires n <= |body|
    ensures Messages(body) == Messages(body[..n]) + Messages(body[n..])
  {
    assert body == body[..n] + body[n..];
    MessagesOfTwo(body, body[..n], body[n..]);
  }

  lemma MessagesOfTwo(body: seq<Packet>, a: seq<Packet>, b: seq<Packet>)
    requires body == a + b
    ensures Messages(body) == Messages(a) + Messages(b)
  {
    MessagesAppend(a, b);
  }

  predicate HasNoMessage(ps: seq<Packet>) { forall p <- ps :: !IsMessage(p) }

  lemma {:induction false} NoMessages(ps: seq<Packet>)
    ensures Messages(ps) == [] <==> HasNoMessage(ps)
  {
    if ps != [] {
      NoMessages(ps[1..]);
      assert ps == [ps[0]] + ps[1..];
    }
  }

  lemma {:induction false} MessagesAreMessages(ps: seq<Packet>)
    ensures forall m <- Messages(ps) :: IsMessage(m)
  {
    if ps != [] {
      MessagesAreMessages(ps[1..]);
    }
  }

  /** Handling stops at the first close or unanswerable ping: none before it, and every ping before it answered. */
  lemma {:induction false} FirstStopIsFirst(body: seq<Packet>, writes: seq<bool>)
    ensures var n := FirstStop(body, writes);
            && (forall i :: 0 <= i < n ==> body[i].kind != CLOSE)
            && Answered(writes, Pings(body[..n]))
            && (n < |body| ==>
                  body[n].kind == CLOSE || (body[n].kind == PING && WriteFails(writes, Pings(body[..n]))))
  {
    var n := FirstStop(body, writes);
    if n > 0 {
      var rest := if body[0].kind == PING then writes[1..] else writes;
      FirstStopIsFirst(body[1..], rest);
      assert body[..n][0] == body[0] && body[..n][1..] == body[1..][..n - 1];
      if body[0].kind == PING {
        AnsweredCons(writes, Pings(body[1..][..n - 1]));
      }
    }
  }

  lemma AnsweredCons(writes: seq<bool>, n: nat)
    requires !WriteFails(writes, 0) && Answered(writes[1..], n)
    ensures Answered(writes, n + 1)
    ensures WriteFails(writes[1..], n) ==> WriteFails(writes, n + 1)
  {
    forall i | 0 <= i < n + 1
      ensures writes[i]
    {
      assert i > 0 ==> writes[i] == writes[1..][i - 1];
    }
  }

  // ---- how a read ends ----

  /** No close among the first n packets, and every ping among them answered. */
  ghost predicate OpenUpTo(body: seq<Packet>, n: nat, writes: seq<bool>)
    requires n <= |body|
  {
    (forall i :: 0 <= i < n ==> body[i].kind != CLOSE) && Answered(writes, Pings(body[..n]))
  }

  predicate Unanswerable(body: seq<Packet>, n: nat, writes: seq<bool>)
    requires n < |body|
  {
    body[n].kind == PING && WriteFails(writes, Pings(body[..n]))
  }

  lemma PingsBefore(body: seq<Packet>, m: nat, n: nat)
    requires m < n <= |body|
    ensures Pings(body[..m]) + (if body[m].kind == PING then 1 else 0) <= Pings(body[..n])
  {
    OneMorePacket(body, m);
    assert body[..n] == body[..m + 1] + body[m + 1..n];
    PingsAppend(body[..m + 1], body[m + 1..n]);
  }

  lemma StopIsThere(body: seq<Packet>, n: nat, writes: seq<bool>)
    requires n <= |body| && OpenUpTo(body, n, writes)
    requires n < |body| ==> body[n].kind == CLOSE || Unanswerable(body, n, writes)
    ensures FirstStop(body, writes) == n
  {
    FirstStopIsFirst(body, writes);
    var f := FirstStop(body, writes);
    if f < n {
      PingsBefore(body, f, n);
    } else if n < f {
      PingsBefore(body, n, f);
    }
  }

  /**
    What the first body does to a read, wherever its first close or unanswerable ping is: a close is handed over and
    leaves nothing, a failed pong is reported and leaves the messages before it, and otherwise the first message is
    handed over, or, with none, reading goes on with the next poll.
   */
  lemma ReadEnds(polls: seq<Poll>, writes: seq<bool>, n: nat)
    requires polls != [] && polls[0].Body? && n <= |Decode(polls[0].data)|
    requires OpenUpTo(Decode(polls[0].data), n, writes)
    ensures var body, x := Decode(polls[0].data), ReadPolls(polls, writes);
            if n < |body| then
              && (body[n].kind == CLOSE ==> x.result == Delivered(body[n]) && x.buf == [] && x.rest == polls[1..])
              && (Unanswerable(body, n, writes) ==>
                    x.result == PongFailed && x.buf == Messages(body[..n]) && x.rest == polls[1..])
            else if exists p <- body :: IsMessage(p) then
              x.result.Delivered? && [x.result.packet] + x.buf == Messages(body) && x.rest == polls[1..]
            else ReadsOn(x, body, ReadPolls(polls[1..], After(writes, Pings(body))))
  {
    var body := Decode(polls[0].data);
    if n == |body| || body[n].kind == CLOSE || Unanswerable(body, n, writes) {
      StopIsThere(body, n, writes);
      NoMessages(body);
    }
  }

  // ---- conservation ----

  /** The message handed to the caller; a close is no message. */
  function Taken(r: ReadResult): seq<Packet>
  {
    if r.Delivered? && r.packet.kind != CLOSE then [r.packet] else []
  }

  /** The bodies polled by a read. */
  function Consumed(polls: seq<Poll>, rest: seq<Poll>): seq<Poll>
  {
    if |rest| <= |polls| then polls[..|polls| - |rest|] else []
  }

  ghost predicate Accounted(polls: seq<Poll>, x: Reading)
  {
    && |x.rest| <= |polls| && x.rest == polls[|polls| - |x.rest|..]
    && Messages(DecodeBodies(Consumed(polls, x.rest))) == Taken(x.result) + x.buf + x.lost
    && x.handled <= DecodeBodies(Consumed(polls, x.rest))
  }

  lemma BodiesCons(polls: seq<Poll>, rest: seq<Poll>)
    requires polls != [] && |rest| < |polls|
    ensures Consumed(polls, rest) == [polls[0]] + Consumed(polls[1..], rest)
    ensures DecodeBodies(Consumed(polls, rest))
         == (if polls[0].Body? then Decode(polls[0].data) else []) + DecodeBodies(Consumed(polls[1..], rest))
  {
    var consumed := Consumed(polls, rest);
    assert consumed == [polls[0]] + Consumed(polls[1..], rest);
    assert consumed[1..] == Consumed(polls[1..], rest);
  }

  lemma OneBody(polls: seq<Poll>)
    requires polls != []
    ensures DecodeBodies(Consumed(polls, polls[1..])) == if polls[0].Body? then Decode(polls[0].data) else []
  {
    BodiesCons(polls, polls[1..]);
    assert Consumed(polls[1..], polls[1..]) == [];
  }

  lemma StopIsAccounted(polls: seq<Poll>, n: nat)
    requires polls != [] && polls[0].Body? && n < |Decode(polls[0].data)|
    ensures Accounted(polls, StoppedAt(Decode(polls[0].data), n, polls[1..]))
  {
    var body := Decode(polls[0].data);
    OneBody(polls);
    StopFlow(body, n, polls[1..]);
    StopPrefix(body, n, polls[1..]);
  }

  lemma StopFlow(body: seq<Packet>, n: nat, rest: seq<Poll>)
    requires n < |body|
    ensures var x := StoppedAt(body, n, rest); Messages(body) == Taken(x.result) + x.buf + x.lost
  {
    if body[n].kind == CLOSE {
      EmptyFront([], Messages(body));
    } else {
      PongFlow(body, n);
    }
  }

  lemma PongFlow(body: seq<Packet>, n: nat)
    requires n < |body|
    ensures Messages(body) == [] + Messages(body[..n]) + Messages(body[n..])
  {
    MessagesSplit(body, n);
    EmptyFront(Messages(body[..n]), Messages(body[n..]));
  }

  lemma StopPrefix(body: seq<Packet>, n: nat, rest: seq<Poll>)
    requires n < |body|
    ensures StoppedAt(body, n, rest).handled <= body && StoppedAt(body, n, rest).rest == rest
  {
  }

  lemma EmptyFront(a: seq<Packet>, b: seq<Packet>)
    ensures [] + a + b == a + b
    ensures [] + b == b && b + [] == b
  {
  }

  lemma DeliveryIsAccounted(polls: seq<Poll>)
    requires polls != [] && polls[0].Body? && Messages(Decode(polls[0].data)) != []
    ensures var body := Decode(polls[0].data); Accounted(polls, FirstOf(Messages(body), polls[1..], body))
  {
    OneBody(polls);
    MessagesAreMessages(Decode(polls[0].data));
    FirstTaken(Messages(Decode(polls[0].data)));
  }

  lemma FirstTaken(ms: seq<Packet>)
    requires ms != [] && IsMessage(ms[0])
    ensures ms == Taken(Delivered(ms[0])) + ms[1..] + []
  {
    assert ms == [ms[0]] + ms[1..];
    EmptyFront([], [ms[0]] + ms[1..]);
  }

  lemma LaterIsAccounted(polls: seq<Poll>, x: Reading)
    requires polls != [] && polls[0].Body? && Messages(Decode(polls[0].data)) == [] && Accounted(polls[1..], x)
    ensures Accounted(polls, Later(Decode(polls[0].data), x))
  {
    var body := Decode(polls[0].data);
    BodiesCons(polls, x.rest);
    MessagesAppend(body, DecodeBodies(Consumed(polls[1..], x.rest)));
  }

  /** Every message polled by a read is handed over, buffered or lost, in this order and once. */
  lemma {:induction false} PolledIsAccounted(polls: seq<Poll>, writes: seq<bool>)
    ensures Accounted(polls, ReadPolls(polls, writes))
  {
    if polls == [] {
      assert Consumed(polls, []) == [];
    } else if polls[0].PollError? {
      OneBody(polls);
    } else {
      var body := Decode(polls[0].data);
      var n := FirstStop(body, writes);
      if n < |body| {
        StopIsAccounted(polls, n);
      } else if Messages(body) != [] {
        DeliveryIsAccounted(polls);
      } else {
        PolledIsAccounted(polls[1..], After(writes, Pings(body)));
        LaterIsAccounted(polls, ReadPolls(polls[1..], After(writes, Pings(body))));
      }
    }
  }

  /** Every ping handled is answered and no close is handled. */
  lemma {:induction false} HandledIsAnswered(polls: seq<Poll>, writes: seq<bool>)
    ensures var x := ReadPolls(polls, writes);
            Answered(writes, Pings(x.handled)) && forall p <- x.handled :: p.kind != CLOSE
  {
    if polls != [] && polls[0].Body? {
      var body := Decode(polls[0].data);
      var n := FirstStop(body, writes);
      FirstStopIsFirst(body, writes);
      if n == |body| {
        assert body[..n] == body;
        if Messages(body) == [] {
          var x := ReadPolls(polls[1..], After(writes, Pings(body)));
          HandledIsAnswered(polls[1..], After(writes, Pings(body)));
          PingsAppend(body, x.handled);
          AnsweredChain(writes, Pings(body), Pings(x.handled));
        }
      }
    }
  }

  lemma AnsweredChain(writes: seq<bool>, m: nat, n: nat)
    requires Answered(writes, m) && Answered(After(writes, m), n)
    ensures Answered(writes, m + n)
  {
    forall i | 0 <= i < m + n
      ensures writes[i]
    {
      assert i >= m ==> writes[i] == writes[m..][i - m];
    }
  }

  /** Whether a read keeps every message, told from what the polls will bring and which writes will succeed. */
  function KeepsAll(polls: seq<Poll>, writes: seq<bool>): bool
  {
    if polls == [] || polls[0].PollError? then true
    else
      var body := Decode(polls[0].data);
      var n := FirstStop(body, writes);
      if n < |body| then HasNoMessage(if body[n].kind == CLOSE then body else body[n..])
      else Messages(body) != [] || KeepsAll(polls[1..], After(writes, Pings(body)))
  }

  lemma {:induction false} LostNothingIff(polls: seq<Poll>, writes: seq<bool>)
    ensures ReadPolls(polls, writes).lost == [] <==> KeepsAll(polls, writes)
  {
    if polls != [] && polls[0].Body? {
      var body := Decode(polls[0].data);
      var n := FirstStop(body, writes);
      NoMessages(body);
      NoMessages(body[n..]);
      if n == |body| && Messages(body) == [] {
        LostNothingIff(polls[1..], After(writes, Pings(body)));
      }
    }
  }

  /**
    A read keeps every message if and only if something is buffered already, or the first body that makes it stop has
    no message at all (when it closes) or none from its unanswerable ping on.
   */
  lemma NothingLostIff(buf: seq<Packet>, polls: seq<Poll>, writes: seq<bool>)
    requires forall p <- buf :: IsMessage(p)
    ensures var x := Read(buf, polls, writes);
            buf + Messages(DecodeBodies(Consumed(polls, x.rest))) == Taken(x.result) + x.buf
            <==> buf != [] || KeepsAll(polls, writes)
  {
    var x := Read(buf, polls, writes);
    if buf != [] {
      assert Consumed(polls, polls) == [];
      assert IsMessage(buf[0]);
      assert buf == [buf[0]] + buf[1..];
    } else {
      PolledIsAccounted(polls, writes);
      LostNothingIff(polls, writes);
      var kept := Taken(x.result) + x.buf;
      assert x.lost == [] ==> kept + x.lost == kept;
      assert |kept + x.lost| == |kept| + |x.lost|;
    }
  }

  // ---- the reader ----

  datatype Outcome = AllHandled | SawClose | WriteError

  /** The body has been handled up to packet n. */
  ghost predicate HandledUpTo(
    body: seq<Packet>, n: nat, buf0: seq<Packet>, writes0: seq<bool>, buf: seq<Packet>, writes: seq<bool>)
  {
    && n <= |body|
    && FirstStop(body, writes0) == n + FirstStop(body[n..], writes)
    && buf == buf0 + Messages(body[..n])
    && writes == After(writes0, Pings(body[..n]))
  }

  lemma NothingHandled(body: seq<Packet>, buf0: seq<Packet>, writes0: seq<bool>)
    ensures HandledUpTo(body, 0, buf0, writes0, buf0, writes0)
  {
    assert body[0..] == body && body[..0] == [];
    assert buf0 + [] == buf0;
  }

  lemma OneMoreHandled(
    body: seq<Packet>, n: nat, buf0: seq<Packet>, writes0: seq<bool>, buf: seq<Packet>, writes: seq<bool>)
    requires HandledUpTo(body, n, buf0, writes0, buf, writes) && n < |body| && body[n].kind != CLOSE
    requires body[n].kind == PING ==> !WriteFails(writes, 0)
    ensures HandledUpTo(body, n + 1, buf0, writes0, if IsMessage(body[n]) then buf + [body[n]] else buf,
                        if body[n].kind == PING then writes[1..] else writes)
  {
    OneMorePacket(body, n);
    StopMovesOn(body, n, writes);
    AfterOne(writes0, Pings(body[..n]), body[n].kind == PING);
    if IsMessage(body[n]) {
      ConcatAssociates(buf0, Messages(body[..n]), [body[n]]);
    }
  }

  lemma StopMovesOn(body: seq<Packet>, n: nat, writes: seq<bool>)
    requires n < |body| && body[n].kind != CLOSE && (body[n].kind == PING ==> !WriteFails(writes, 0))
    ensures FirstStop(body[n..], writes)
         == 1 + FirstStop(body[n + 1..], if body[n].kind == PING then writes[1..] else writes)
  {
    assert body[n..][0] == body[n] && body[n..][1..] == body[n + 1..];
  }

  lemma AfterOne(writes: seq<bool>, n: nat, one: bool)
    ensures After(writes, n) != [] && one ==> After(writes, n)[1..] == After(writes, n + 1)
  {
  }

  lemma OneMorePacket(ps: seq<Packet>, n: nat)
    requires n < |ps|
    ensures Messages(ps[..n + 1]) == if IsMessage(ps[n]) then Messages(ps[..n]) + [ps[n]] else Messages(ps[..n])
    ensures Pings(ps[..n + 1]) == Pings(ps[..n]) + if ps[n].kind == PING then 1 else 0
  {
    assert ps[..n + 1] == ps[..n] + [ps[n]];
    MessagesAppend(ps[..n], [ps[n]]);
    PingsAppend(ps[..n], [ps[n]]);
    assert Messages([ps[n]]) == MessageOf(ps[n]) + Messages([]) == MessageOf(ps[n]);
    assert Messages(ps[..n]) + [] == Messages(ps[..n]);
  }

  lemma StopsHere(
    body: seq<Packet>, n: nat, buf0: seq<Packet>, writes0: seq<bool>, buf: seq<Packet>, writes: seq<bool>)
    requires HandledUpTo(body, n, buf0, writes0, buf, writes)
    requires n < |body| ==> body[n].kind == CLOSE || (body[n].kind == PING && WriteFails(writes, 0))
    ensures n == FirstStop(body, writes0)
  {
    if n < |body| {
      assert body[n..][0] == body[n];
    }
  }

  /** The outcome of a poll, the buffer and what is left of polls and writes are those of a whole read. */
  predicate EndsTheRead(
    polls: seq<Poll>, writes: seq<bool>, stop: ReadResult, buf: seq<Packet>, rest: seq<Poll>, left: seq<bool>)
  {
    var x := ReadPolls(polls, writes);
    stop == x.result && buf == x.buf && rest == x.rest && left == WritesLeft(writes, x)
  }

  lemma StopEndsTheRead(
    polls: seq<Poll>, writes: seq<bool>, n: nat, stop: ReadResult, buf: seq<Packet>, left: seq<bool>)
    requires polls != [] && polls[0].Body? && n == FirstStop(Decode(polls[0].data), writes)
    requires n < |Decode(polls[0].data)|
    requires var body := Decode(polls[0].data);
             if body[n].kind == CLOSE then
               stop == Delivered(body[n]) && buf == [] && left == After(writes, Pings(body[..n]))
             else
               stop == PongFailed && buf == Messages(body[..n]) && left == After(After(writes, Pings(body[..n])), 1)
    ensures EndsTheRead(polls, writes, stop, buf, polls[1..], left)
  {
    var body := Decode(polls[0].data);
    assert ReadPolls(polls, writes) == StoppedAt(body, n, polls[1..]);
    AfterTwice(writes, Pings(body[..n]), 0);
  }

  /** A polling session; the network's future answers and write outcomes are fields it consumes in order. */
  class EioSession {
    var buf: seq<Packet>
    var inbound: seq<Poll>
    var writes: seq<bool>

    ghost predicate Valid()
      reads this
    {
      forall p <- buf :: IsMessage(p)
    }

    constructor (inbound: seq<Poll>, writes: seq<bool>)
      ensures Valid() && buf == []
      ensures this.inbound == inbound && this.writes == writes
    {
      buf := [];
      this.inbound, this.writes := inbound, writes;
    }

    method WritePong() returns (ok: bool)
      modifies this`writes
      ensures ok == !WriteFails(old(writes), 0)
      ensures writes == After(old(writes), 1)
    {
      ok := false;
      if writes != [] {
        ok := writes[0];
        writes := writes[1..];
      }
    }

    /** The switch on one packet. */
    method TakePacket(p: Packet) returns (outcome: Outcome)
      modifies this`buf, this`writes
      ensures outcome == SawClose <==> p.kind == CLOSE
      ensures outcome == WriteError <==> p.kind == PING && WriteFails(old(writes), 0)
      ensures buf == if p.kind == CLOSE then []
                     else if p.kind == MESSAGE || p.kind == UPGRADE then old(buf) + [p] else old(buf)
      ensures writes == if p.kind == PING then After(old(writes), 1) else old(writes)
    {
      outcome := AllHandled;
      if p.kind == PING {
        var ok := WritePong();
        if !ok {
          outcome := WriteError;
        }
      } else if p.kind == CLOSE {
        buf := [];
        outcome := SawClose;
      } else if p.kind == MESSAGE || p.kind == UPGRADE {
        buf := buf + [p];
      }
    }

    /** Handles one polled body; n is where handling stopped. */
    method HandleBody(packets: seq<Packet>) returns (outcome: Outcome, n: nat)
      modifies this`buf, this`writes
      ensures n == FirstStop(packets, old(writes))
      ensures outcome == AllHandled <==> n == |packets|
      ensures outcome == SawClose <==> n < |packets| && packets[n].kind == CLOSE
      ensures buf == if outcome == SawClose then [] else old(buf) + Messages(packets[..n])
      ensures writes
           == After(After(old(writes), Pings(packets[..n])), if outcome == WriteError then 1 else 0)
    {
      n := 0;
      NothingHandled(packets, buf, writes);
      while n < |packets|
        invariant HandledUpTo(packets, n, old(buf), old(writes), buf, writes)
      {
        ghost var buf1, writes1 := buf, writes;
        outcome := TakePacket(packets[n]);
        if outcome != AllHandled {
          StopsHere(packets, n, old(buf), old(writes), buf1, writes1);
          return;
        }
        OneMoreHandled(packets, n, old(buf), old(writes), buf1, writes1);
        n := n + 1;
      }
      StopsHere(packets, n, old(buf), old(writes), buf, writes);
      outcome := AllHandled;
    }

    /** One turn of the read loop with an empty buffer: poll, decode, handle. */
    method PollOnce() returns (stop: ReadResult, more: bool)
      requires buf == []
      modifies this
      ensures !more ==> EndsTheRead(old(inbound), old(writes), stop, buf, inbound, writes)
      ensures more ==>
                && old(inbound) != [] && old(inbound)[0].Body? && inbound == old(inbound)[1..]
                && var body := Decode(old(inbound)[0].data);
                   && FirstStop(body, old(writes)) == |body|
                   && buf == Messages(body) && writes == After(old(writes), Pings(body))
    {
      stop, more := PollFailed, false;
      if inbound == [] {
        return;
      }
      var poll := inbound[0];
      inbound := inbound[1..];
      if poll.PollError? {
        return;
      }
      var packets := DecodeTextPackets(poll.data);
      ghost var writes0 := writes;
      var outcome, n := HandleBody(packets);
      if outcome == WriteError {
        stop := PongFailed;
        EmptyFront(Messages(packets[..n]), []);
        StopEndsTheRead([poll] + inbound, writes0, n, stop, buf, writes);
      } else if outcome == SawClose {
        stop := Delivered(packets[n]);
        StopEndsTheRead([poll] + inbound, writes0, n, stop, buf, writes);
      } else {
        more := true;
        assert packets[..n] == packets;
      }
    }

    /** Returns the next message, polling until there is one or reading must stop; handled are the packets met. */
    method ReadPacket() returns (r: ReadResult, ghost handled: seq<Packet>)
      requires Valid()
      modifies this
      ensures Valid()
      ensures var x := Read(old(buf), old(inbound), old(writes));
              && r == x.result && buf == x.buf && inbound == x.rest && handled == x.handled
              && writes == WritesLeft(old(writes), x)
      ensures Answered(old(writes), Pings(handled)) && forall p <- handled :: p.kind != CLOSE
      ensures old(buf) + Messages(DecodeBodies(Consumed(old(inbound), inbound))) == Taken(r) + buf
              <==> old(buf) != [] || KeepsAll(old(inbound), old(writes))
    {
      ghost var buf0, polls0, writes0 := buf, inbound, writes;
      ReadFacts(buf, inbound, writes);
      handled := [];
      while |buf| == 0
        invariant ReadsOn(Read(buf0, polls0, writes0), handled, Read(buf, inbound, writes))
        invariant writes == After(writes0, Pings(handled))
        decreases |inbound|
      {
        ghost var polls1, writes1 := inbound, writes;
        var stop, more := PollOnce();
        if !more {
          ghost var x := ReadPolls(polls1, writes1);
          LeftAfter(writes0, handled, x);
          handled := handled + x.handled;
          return stop, handled;
        }
        ghost var body := Decode(polls1[0].data);
        BodyIsReadOn(polls1, writes1);
        ReadsOnChain(
          Read(buf0, polls0, writes0), handled, ReadPolls(polls1, writes1), body, Read(buf, inbound, writes));
        LeftAfterBody(writes0, handled, body);
        handled := handled + body;
      }
      r := Delivered(buf[0]);
      buf := buf[1..];
      assert handled + [] == handled;
    }
  }

  /** What writes a read leaves: each answered ping used one up, and so did the one that failed. */
  function WritesLeft(writes: seq<bool>, x: Reading): seq<bool>
  {
    After(After(writes, Pings(x.handled)), if x.result == PongFailed then 1 else 0)
  }

  /** Reading from x on amounts to reading from y on after handling some packets. */
  predicate ReadsOn(x: Reading, handled: seq<Packet>, y: Reading)
  {
    x.result == y.result && x.buf == y.buf && x.rest == y.rest && x.handled == handled + y.handled
  }

  lemma ReadsOnChain(x: Reading, h: seq<Packet>, y: Reading, body: seq<Packet>, z: Reading)
    requires ReadsOn(x, h, y) && ReadsOn(y, body, z)
    ensures ReadsOn(x, h + body, z)
  {
    assert h + (body + z.handled) == h + body + z.handled;
  }

  /** A body handled whole leaves the rest of the read to the buffer it filled, or to the polls behind it. */
  lemma BodyIsReadOn(polls: seq<Poll>, writes: seq<bool>)
    requires polls != [] && polls[0].Body?
    requires var body := Decode(polls[0].data); FirstStop(body, writes) == |body|
    ensures var body := Decode(polls[0].data);
            ReadsOn(ReadPolls(polls, writes), body, Read(Messages(body), polls[1..], After(writes, Pings(body))))
  {
    var body := Decode(polls[0].data);
    assert body + [] == body;
  }

  lemma AfterTwice(writes: seq<bool>, m: nat, n: nat)
    ensures After(After(writes, m), n) == After(writes, m + n)
  {
  }

  lemma LeftAfterBody(writes: seq<bool>, h: seq<Packet>, body: seq<Packet>)
    ensures After(After(writes, Pings(h)), Pings(body)) == After(writes, Pings(h + body))
  {
    PingsAppend(h, body);
    AfterTwice(writes, Pings(h), Pings(body));
  }

  lemma LeftAfter(writes: seq<bool>, h: seq<Packet>, x: Reading)
    ensures WritesLeft(After(writes, Pings(h)), x) == WritesLeft(writes, x.(handled := h + x.handled))
  {
    LeftAfterBody(writes, h, x.handled);
  }

  /** What a read leaves in the buffer are messages, and what it met are answered pings and other open packets. */
  lemma ReadFacts(buf: seq<Packet>, polls: seq<Poll>, writes: seq<bool>)
    requires forall p <- buf :: IsMessage(p)
    ensures var x := Read(buf, polls, writes);
            && (forall p <- x.buf :: IsMessage(p))
            && Answered(writes, Pings(x.handled)) && (forall p <- x.handled :: p.kind != CLOSE)
            && (buf + Messages(DecodeBodies(Consumed(polls, x.rest))) == Taken(x.result) + x.buf
                <==> buf != [] || KeepsAll(polls, writes))
  {
    NothingLostIff(buf, polls, writes);
    HandledIsAnswered(polls, writes);
    BufferedAreMessages(polls, writes);
  }

  lemma {:induction false} BufferedAreMessages(polls: seq<Poll>, writes: seq<bool>)
    ensures forall p <- ReadPolls(polls, writes).buf :: IsMessage(p)
  {
    if polls != [] && polls[0].Body? {
      var body := Decode(polls[0].data);
      var n := FirstStop(body, writes);
      MessagesAreMessages(body);
      MessagesAreMessages(body[..n]);
      if n == |body| && Messages(body) == [] {
        BufferedAreMessages(polls[1..], After(writes, Pings(body)));
      }
    }
  }

  /** One body holding a ping and a message, and no way to write: the message reaches nobody. */
  method PongFailureLosesMessage(text: Bytes) returns (r: ReadResult, left: seq<Packet>, unread: seq<Poll>)
    requires SEPARATOR !in text
    ensures r == PongFailed && left == [] && unread == []
  {
    var data := [ZERO_DIGIT + PING, SEPARATOR, ZERO_DIGIT + MESSAGE] + text;
    PingThenMessage(text);
    var s := new EioSession([Body(data)], [false]);
    ghost var handled;
    r, handled := s.ReadPacket();
    left, unread := s.buf, s.inbound;
    assert FirstStop(Decode(data), [false]) == 0;
    assert Decode(data)[..0] == [];
  }

  lemma PingThenMessage(text: Bytes)
    requires SEPARATOR !in text
    ensures Decode([ZERO_DIGIT + PING, SEPARATOR, ZERO_DIGIT + MESSAGE] + text)
         == [Packet(PING, []), Packet(MESSAGE, text)]
  {
    var ps := [Packet(PING, []), Packet(MESSAGE, text)];
    PayloadRoundTrip(ps);
    var parts := EncodeEach(ps);
    assert parts == [EncodeTextPacket(ps[0]), EncodeTextPacket(ps[1])];
    assert Join(parts, SEPARATOR) == parts[0] + [SEPARATOR] + Join(parts[1..], SEPARATOR);
    assert parts[1..] == [parts[1]];
    assert EncodePayload(ps) == [ZERO_DIGIT + PING, SEPARATOR, ZERO_DIGIT + MESSAGE] + text;
  }
}
