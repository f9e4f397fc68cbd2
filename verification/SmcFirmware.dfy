/** Reading and writing SMC keys through 80-byte messages, and the multi-register firmware charge window. */
module SmcFirmware {
  import opened Bytes
  import opened SmcCodec

  type Regs = map<U32, Bytes>

  /** What one message may meet: success, a refusal, or a failure reported although the write took effect. */
  datatype Fault = Fine | Refused | AppliedButReported

  /** "bfF0" (activation), "bfD0" (upper) and "bfE0" (lower). */
  const KEY_ACTIVE: Bytes := [0x62, 0x66, 0x46, 0x30]
  const KEY_UPPER: Bytes := [0x62, 0x66, 0x44, 0x30]
  const KEY_LOWER: Bytes := [0x62, 0x66, 0x45, 0x30]

  const ACTIVE: U32 := 0x6266_4630
  const UPPER: U32 := 0x6266_4430
  const LOWER: U32 := 0x6266_4530

  lemma KeyCodes()
    ensures KeyCode(KEY_ACTIVE) == ACTIVE && KeyCode(KEY_UPPER) == UPPER && KeyCode(KEY_LOWER) == LOWER
  {
  }

  predicate IsActive(r: Regs) { ACTIVE in r && r[ACTIVE] == [0x02] }

  predicate HasSize(r: Regs, key: U32, size: nat) { key in r && |r[key]| == size }

  /** The three registers of a charge limit, each of its own size. */
  predicate HasLimit(r: Regs) { HasSize(r, ACTIVE, 1) && HasSize(r, UPPER, 4) && HasSize(r, LOWER, 4) }

  datatype Pair = Pair(lower: Bytes, upper: Bytes)

  /** The stored window; an absent key reads as the empty string. */
  function Window(r: Regs): Pair
  {
    Pair(if LOWER in r then r[LOWER] else [], if UPPER in r then r[UPPER] else [])
  }

  function Requested(lower: int, upper: int): Pair { Pair(Le32b(ToU32(lower)), Le32b(ToU32(upper))) }

  /** The four bytes of a register, the least significant one first, denote a number in 32 bits. */
  predicate Holds(r: Regs, key: U32, x: int)
  {
    HasSize(r, key, 4) && Le32(r[key]) == x % 0x1_0000_0000
  }

  lemma RequestedHolds(lower: int, upper: int)
    ensures forall r: Regs :: Window(r) == Requested(lower, upper) ==> Holds(r, LOWER, lower) && Holds(r, UPPER, upper)
  {
    Le32RoundTrip(ToU32(lower), Le32b(0));
    Le32RoundTrip(ToU32(upper), Le32b(0));
  }

  /** The registers a key access leaves behind. */
  ghost predicate WroteAtMost(before: Regs, after: Regs, key: U32, val: Bytes)
  {
    after == before || (key in before && after == before[key := val])
  }

  /** A write must name the key's own size. */
  predicate SizeFits(message: Bytes, size: nat)
    requires |message| == KEY_DATA_SIZE
  {
    message[OFF_DATA8] == CMD_WRITE_BYTES ==> FromBe32(message[OFF_KEY_INFO_SIZE..OFF_KEY_INFO_SIZE + 4]) == size
  }

  class AppleSmc {
    var regs: Regs
    /** Outcomes of the messages still to come; beyond the end everything succeeds. */
    var faults: seq<Fault>
    /** The registers after every message so far. */
    ghost var history: seq<Regs>

    constructor (regs: Regs, faults: seq<Fault>)
      ensures this.regs == regs && this.faults == faults && history == []
    {
      this.regs, this.faults, history := regs, faults, [];
    }

    /** The device: executes the message in buf and answers in out; the status is the kernel's return code. */
    method Transfer(buf: array<byte>, out: array<byte>) returns (kr: int)
      requires buf.Length == KEY_DATA_SIZE && out.Length == KEY_DATA_SIZE && buf != out
      modifies this, out
      ensures history == old(history) + [regs]
      ensures buf[..] == old(buf[..])
      ensures faults == if old(faults) == [] then [] else old(faults)[1..]
      ensures var key := FromBe32(buf[OFF_KEY..OFF_KEY + 4]);
              var fine := old(faults) == [] || old(faults)[0] == Fine;
              && (kr == 0 && out[OFF_RESULT] == 0 ==> fine && key in old(regs) && |old(regs)[key]| <= 32)
              && (fine && key in old(regs) && |old(regs)[key]| <= 32 && SizeFits(buf[..], |old(regs)[key]|) ==>
                    kr == 0 && out[OFF_RESULT] == 0)
              && (buf[OFF_DATA8] == CMD_READ_KEY_INFO || buf[OFF_DATA8] == CMD_READ_BYTES ==> regs == old(regs))
              && (kr == 0 && out[OFF_RESULT] == 0 && buf[OFF_DATA8] == CMD_READ_KEY_INFO ==>
                    FromBe32(out[OFF_KEY_INFO_SIZE..OFF_KEY_INFO_SIZE + 4]) == |old(regs)[key]|)
              && (kr == 0 && out[OFF_RESULT] == 0 && buf[OFF_DATA8] == CMD_READ_BYTES ==>
                    out[OFF_BYTES..OFF_BYTES + |old(regs)[key]|] == old(regs)[key])
              && (buf[OFF_DATA8] == CMD_WRITE_BYTES ==>
                    var size := FromBe32(buf[OFF_KEY_INFO_SIZE..OFF_KEY_INFO_SIZE + 4]);
                    if kr == 0 && out[OFF_RESULT] == 0 then
                      size == |old(regs)[key]| && regs == old(regs)[key := buf[OFF_BYTES..OFF_BYTES + size]]
                    else
                      regs == old(regs) || (key in old(regs) && size == |old(regs)[key]| <= 32 &&
                                            regs == old(regs)[key := buf[OFF_BYTES..OFF_BYTES + size]]))
    {
      var fault := Fine;
      if faults != [] {
        fault, faults := faults[0], faults[1..];
      }
      kr := 0;
      out[OFF_RESULT] := 0;
      var key := FromBe32(buf[OFF_KEY..OFF_KEY + 4]);
      if fault == Refused {
        kr := 1;
      } else if key !in regs || |regs[key]| > 32 {
        out[OFF_RESULT] := 0x84;
      } else if buf[OFF_DATA8] == CMD_READ_KEY_INFO {
        PutU32(out, OFF_KEY_INFO_SIZE, |regs[key]|);
        Be32RoundTrip(|regs[key]|, Be32(0));
        assert out[OFF_RESULT] == 0;
      } else if buf[OFF_DATA8] == CMD_READ_BYTES {
        CopyIn(out, OFF_BYTES, regs[key]);
      } else if buf[OFF_DATA8] == CMD_WRITE_BYTES {
        var size := FromBe32(buf[OFF_KEY_INFO_SIZE..OFF_KEY_INFO_SIZE + 4]);
        if size == |regs[key]| {
          regs := regs[key := buf[OFF_BYTES..OFF_BYTES + size]];
        } else {
          out[OFF_RESULT] := 0x86;
        }
      }
      if fault == AppliedButReported {
        kr := 1;
      }
      history := history + [regs];
    }
  }

  /** copy(buf[off:], val) for a value that fits. */
  method CopyIn(buf: array<byte>, off: nat, val: Bytes)
    requires off + |val| <= buf.Length
    modifies buf
    ensures buf[..] == old(buf[..off]) + val + old(buf[off + |val|..])
    ensures buf[off..off + |val|] == val
  {
    for i := 0 to |val|
      invariant buf[..off] == old(buf[..off]) && buf[off + i..] == old(buf[off + i..])
      invariant buf[off..off + i] == val[..i]
    {
      buf[off + i] := val[i];
    }
    assert buf[..] == buf[..off] + buf[off..off + |val|] + buf[off + |val|..];
  }

  /** A request: key code, command, data size and data, zero elsewhere. */
  method Message(key: Bytes, cmd: byte, size: U32, val: Bytes) returns (buf: array<byte>)
    requires IsKeyText(key) && |val| <= 32
    ensures fresh(buf) && buf.Length == KEY_DATA_SIZE
    ensures FromBe32(buf[OFF_KEY..OFF_KEY + 4]) == KeyCode(key)
    ensures FromBe32(buf[OFF_KEY_INFO_SIZE..OFF_KEY_INFO_SIZE + 4]) == size
    ensures buf[OFF_DATA8] == cmd && buf[OFF_BYTES..OFF_BYTES + |val|] == val
  {
    var k, _ := FourCc(key);
    buf := new byte[KEY_DATA_SIZE](_ => 0);
    PutU32(buf, OFF_KEY, k);
    PutU32(buf, OFF_KEY_INFO_SIZE, size);
    CopyIn(buf, OFF_BYTES, val);
    buf[OFF_DATA8] := cmd;
    assert buf[OFF_KEY..OFF_KEY + 4] == Be32(k);
    assert buf[OFF_KEY_INFO_SIZE..OFF_KEY_INFO_SIZE + 4] == Be32(size);
    Be32RoundTrip(k, Be32(k));
    Be32RoundTrip(size, Be32(size));
  }

  /** Every key of the message fits its data area. */
  predicate ReadableKey(r: Regs, key: U32) { key in r && 1 <= |r[key]| <= 32 }

  class SmcHandle {
    const device: AppleSmc

    constructor (device: AppleSmc)
      ensures this.device == device
    {
      this.device := device;
    }

    /** A zero return code is not enough: the status byte of the answer must be zero too. */
    method CallStruct(buf: array<byte>, out: array<byte>) returns (ok: bool)
      requires buf.Length == KEY_DATA_SIZE && out.Length == KEY_DATA_SIZE && buf != out
      modifies device, out
      ensures device.history == old(device.history) + [device.regs]
      ensures device.faults == if old(device.faults) == [] then [] else old(device.faults)[1..]
      ensures var r := old(device.regs);
              var key := FromBe32(buf[OFF_KEY..OFF_KEY + 4]);
              var fine := old(device.faults) == [] || old(device.faults)[0] == Fine;
              && (ok ==> fine && key in r && |r[key]| <= 32)
              && (fine && key in r && |r[key]| <= 32 && SizeFits(buf[..], |r[key]|) ==> ok)
              && (buf[OFF_DATA8] == CMD_READ_KEY_INFO || buf[OFF_DATA8] == CMD_READ_BYTES ==> device.regs == r)
              && (ok && buf[OFF_DATA8] == CMD_READ_KEY_INFO ==>
                    FromBe32(out[OFF_KEY_INFO_SIZE..OFF_KEY_INFO_SIZE + 4]) == |r[key]|)
              && (ok && buf[OFF_DATA8] == CMD_READ_BYTES ==> out[OFF_BYTES..OFF_BYTES + |r[key]|] == r[key])
              && (buf[OFF_DATA8] == CMD_WRITE_BYTES ==>
                    var size := FromBe32(buf[OFF_KEY_INFO_SIZE..OFF_KEY_INFO_SIZE + 4]);
                    if ok then size == |r[key]| && device.regs == r[key := buf[OFF_BYTES..OFF_BYTES + size]]
                    else device.regs == r || (key in r && size == |r[key]| <= 32 &&
                                              device.regs == r[key := buf[OFF_BYTES..OFF_BYTES + size]]))
    {
      var kr := device.Transfer(buf, out);
      ok := kr == 0 && out[OFF_RESULT] == 0;
    }

    /** The data size the device reports; implausible sizes are errors. */
    method KeySize(key: Bytes) returns (size: nat, ok: bool)
      requires IsKeyText(key)
      modifies device
      ensures device.regs == old(device.regs)
      ensures OnlyStates(old(device.history), device.history, {old(device.regs)})
      ensures device.faults == if old(device.faults) == [] then [] else old(device.faults)[1..]
      ensures ok ==> ReadableKey(old(device.regs), KeyCode(key)) && size == |old(device.regs)[KeyCode(key)]|
      ensures old(device.faults) == [] || old(device.faults)[0] == Fine ==>
                (ok <==> ReadableKey(old(device.regs), KeyCode(key)))
    {
      var buf := Message(key, CMD_READ_KEY_INFO, 0, []);
      var out := new byte[KEY_DATA_SIZE](_ => 0);
      ok := CallStruct(buf, out);
      size := 0;
      if ok {
        size := FromBe32(out[OFF_KEY_INFO_SIZE..OFF_KEY_INFO_SIZE + 4]);
        ok := 1 <= size <= 32;
      }
    }

    method ReadKey(key: Bytes) returns (val: Bytes, ok: bool)
      requires IsKeyText(key)
      modifies device
      ensures device.regs == old(device.regs)
      ensures OnlyStates(old(device.history), device.history, {old(device.regs)})
      ensures ok ==> KeyCode(key) in device.regs && val == device.regs[KeyCode(key)]
      ensures AllFine(old(device.faults)) ==> AllFine(device.faults)
      ensures AllFine(old(device.faults)) && ReadableKey(device.regs, KeyCode(key)) ==> ok
    {
      var size;
      size, ok := KeySize(key);
      val := [];
      if ok {
        var buf := Message(key, CMD_READ_BYTES, size, []);
        var out := new byte[KEY_DATA_SIZE](_ => 0);
        ok := CallStruct(buf, out);
        if ok {
          val := out[OFF_BYTES..OFF_BYTES + size];
        }
      }
    }

    method WriteKeyRaw(key: Bytes, val: Bytes) returns (ok: bool)
      requires IsKeyText(key) && |val| <= 32
      modifies device
      ensures device.history == old(device.history) + [device.regs]
      ensures device.faults == if old(device.faults) == [] then [] else old(device.faults)[1..]
      ensures WroteAtMost(old(device.regs), device.regs, KeyCode(key), val)
      ensures ok ==> KeyCode(key) in old(device.regs) && device.regs == old(device.regs)[KeyCode(key) := val]
      ensures old(device.faults) == [] || old(device.faults)[0] == Fine ==>
                (ok <==> KeyCode(key) in old(device.regs) && |old(device.regs)[KeyCode(key)]| == |val|)
    {
      var buf := Message(key, CMD_WRITE_BYTES, |val|, val);
      var out := new byte[KEY_DATA_SIZE](_ => 0);
      ok := CallStruct(buf, out);
    }

    /** Rejects a value whose length is not the key's. */
    method WriteKey(key: Bytes, val: Bytes) returns (ok: bool)
      requires IsKeyText(key)
      modifies device
      ensures WroteAtMost(old(device.regs), device.regs, KeyCode(key), val)
      ensures OnlyStates(old(device.history), device.history, {old(device.regs), device.regs})
      ensures ok ==> device.regs == old(device.regs)[KeyCode(key) := val] && |val| <= 32
      ensures KeyCode(key) !in old(device.regs) || |val| != |old(device.regs)[KeyCode(key)]| ==>
                !ok && device.regs == old(device.regs)
      ensures AllFine(old(device.faults)) ==> AllFine(device.faults)
      ensures AllFine(old(device.faults)) ==>
                (ok <==> ReadableKey(old(device.regs), KeyCode(key)) && |old(device.regs)[KeyCode(key)]| == |val|)
    {
      var size;
      size, ok := KeySize(key);
      if ok && |val| == size {
        ok := WriteKeyRaw(key, val);
      } else {
        ok := false;
      }
    }

    /** Whether the device is already active with the requested window, as far as it can be read. */
    method WindowIsSet(lower: int, upper: int) returns (same: bool)
      modifies device
      ensures device.regs == old(device.regs)
      ensures OnlyStates(old(device.history), device.history, {old(device.regs)})
      ensures AllFine(old(device.faults)) ==> AllFine(device.faults)
      ensures same ==> IsActive(device.regs) && Window(device.regs) == Requested(lower, upper)
      ensures AllFine(old(device.faults)) && IsActive(device.regs) && Window(device.regs) == Requested(lower, upper)
              ==> same
    {
      KeyCodes();
      same := false;
      var cur, ok := ReadKey(KEY_ACTIVE);
      if ok && |cur| == 1 && cur[0] == 0x02 {
        var u, ok1 := ReadKey(KEY_UPPER);
        var l, ok2 := ReadKey(KEY_LOWER);
        if ok1 && ok2 && |u| == 4 && |l| == 4 {
          same := Le32(u) == ToU32(upper) && Le32(l) == ToU32(lower);
          Le32RoundTrip(ToU32(upper), u);
          Le32RoundTrip(ToU32(lower), l);
        }
      }
    }

    /**
      Deactivate, store upper and lower, reactivate. At every moment, whatever fails, an active limit is entirely the
      old window or entirely the requested one.
     */
    method WriteFirmware(lower: int, upper: int) returns (ok: bool)
      modifies device
      ensures WholeSince(old(device.history), device.history, old(device.regs), lower, upper)
      ensures WholeWindow(device.regs, old(device.regs), lower, upper)
      ensures ok ==> IsActive(device.regs) && Window(device.regs) == Requested(lower, upper)
      ensures ok ==> Holds(device.regs, LOWER, lower) && Holds(device.regs, UPPER, upper)
      ensures device.regs - {ACTIVE, UPPER, LOWER} == old(device.regs) - {ACTIVE, UPPER, LOWER}
      ensures AllFine(old(device.faults)) ==> AllFine(device.faults) && (ok <==> HasLimit(old(device.regs)))
      ensures AllFine(old(device.faults)) && IsActive(old(device.regs))
              && Window(old(device.regs)) == Requested(lower, upper) ==>
                ok && OnlyStates(old(device.history), device.history, {old(device.regs)})
    {
      KeyCodes();
      RequestedHolds(lower, upper);
      ghost var h0, r0 := device.history, device.regs;
      ok := WindowIsSet(lower, upper);
      if ok {
        return;
      }
      StaysWhole(h0, h0, device.history, r0, r0, r0, lower, upper);
      ghost var h1 := device.history;
      ok := WriteKey(KEY_ACTIVE, [0x00]);
      ghost var h2, r1 := device.history, device.regs;
      OneKeyWritten(r0, r1, ACTIVE, [0x00]);
      StaysWhole(h0, h1, h2, r0, r0, r1, lower, upper);
      if !ok {
        return;
      }
      ok := WriteKey(KEY_UPPER, Le32b(ToU32(upper)));
      ghost var h3, r2 := device.history, device.regs;
      OneKeyWritten(r1, r2, UPPER, Le32b(ToU32(upper)));
      StaysWhole(h0, h2, h3, r0, r1, r2, lower, upper);
      if !ok {
        return;
      }
      ok := WriteKey(KEY_LOWER, Le32b(ToU32(lower)));
      ghost var h4, r3 := device.history, device.regs;
      OneKeyWritten(r2, r3, LOWER, Le32b(ToU32(lower)));
      StaysWhole(h0, h3, h4, r0, r2, r3, lower, upper);
      if !ok {
        return;
      }
      assert Window(r3) == Requested(lower, upper);
      ok := WriteKey(KEY_ACTIVE, [0x02]);
      OneKeyWritten(r3, device.regs, ACTIVE, [0x02]);
      StaysWhole(h0, h4, device.history, r0, r3, device.regs, lower, upper);
    }
  }

  /** Which parts of the charge limit one write can touch. */
  lemma OneKeyWritten(r: Regs, r': Regs, key: U32, val: Bytes)
    requires WroteAtMost(r, r', key, val) && key in {ACTIVE, UPPER, LOWER}
    ensures r' - {ACTIVE, UPPER, LOWER} == r - {ACTIVE, UPPER, LOWER}
    ensures key != ACTIVE ==> (IsActive(r') <==> IsActive(r))
    ensures key == ACTIVE ==> Window(r') == Window(r)
  {
  }

  /** Moving from one whole state to another keeps the history whole. */
  lemma StaysWhole(
    h0: seq<Regs>, h: seq<Regs>, h': seq<Regs>, before: Regs, r: Regs, r': Regs, lower: int, upper: int)
    requires WholeSince(h0, h, before, lower, upper) && OnlyStates(h, h', {r, r'})
    requires WholeWindow(r, before, lower, upper) && WholeWindow(r', before, lower, upper)
    ensures WholeSince(h0, h', before, lower, upper)
  {
    forall i | |h0| <= i < |h'|
      ensures WholeWindow(h'[i], before, lower, upper)
    {
      if i < |h| {
        assert h'[i] == h'[..|h|][i];
      }
    }
  }

  ghost predicate WholeSince(h0: seq<Regs>, h: seq<Regs>, before: Regs, lower: int, upper: int)
  {
    h0 <= h && forall i :: |h0| <= i < |h| ==> WholeWindow(h[i], before, lower, upper)
  }

  ghost predicate WholeWindow(r: Regs, before: Regs, lower: int, upper: int)
  {
    IsActive(r) ==> (IsActive(before) && Window(r) == Window(before)) || Window(r) == Requested(lower, upper)
  }

  /** An active limit is the original active one or one of those requested. */
  ghost predicate IsOriginalOrRequested(r: Regs, before: Regs, requests: seq<Request>)
  {
    IsActive(r) ==> (IsActive(before) && Window(r) == Window(before)) || WasRequested(r, requests)
  }

  datatype Request = Request(lower: int, upper: int)

  predicate InForce(r: Regs, q: Request) { IsActive(r) && Window(r) == Requested(q.lower, q.upper) }

  ghost predicate WasRequested(r: Regs, requests: seq<Request>)
  {
    exists q <- requests :: Window(r) == Requested(q.lower, q.upper)
  }

  ghost predicate AllOriginalOrRequested(h0: seq<Regs>, h: seq<Regs>, before: Regs, requests: seq<Request>)
  {
    h0 <= h && forall i :: |h0| <= i < |h| ==> IsOriginalOrRequested(h[i], before, requests)
  }

  lemma OneMoreRequest(r: Regs, start: Regs, before: Regs, requests: seq<Request>, q: Request)
    requires IsOriginalOrRequested(start, before, requests) && WholeWindow(r, start, q.lower, q.upper)
    ensures IsOriginalOrRequested(r, before, requests + [q])
  {
    if IsActive(r) && Window(r) == Requested(q.lower, q.upper) {
      assert q in requests + [q];
    } else if IsActive(r) && WasRequested(start, requests) {
      var p :| p in requests && Window(start) == Requested(p.lower, p.upper);
      assert p in requests + [q];
    }
  }

  lemma RequestsGrow(h0: seq<Regs>, h: seq<Regs>, before: Regs, requests: seq<Request>, q: Request)
    requires AllOriginalOrRequested(h0, h, before, requests)
    ensures AllOriginalOrRequested(h0, h, before, requests + [q])
  {
    forall i | |h0| <= i < |h|
      ensures IsOriginalOrRequested(h[i], before, requests + [q])
    {
      if WasRequested(h[i], requests) {
        var p :| p in requests && Window(h[i]) == Requested(p.lower, p.upper);
        assert p in requests + [q];
      }
    }
  }

  /** One more call: everything it passes through, and where it ends. */
  lemma CallKeepsOriginal(h0: seq<Regs>, h: seq<Regs>, h': seq<Regs>, before: Regs, start: Regs, end: Regs,
                          requests: seq<Request>, q: Request)
    requires AllOriginalOrRequested(h0, h, before, requests) && IsOriginalOrRequested(start, before, requests)
    requires WholeSince(h, h', start, q.lower, q.upper) && WholeWindow(end, start, q.lower, q.upper)
    ensures AllOriginalOrRequested(h0, h', before, requests + [q])
    ensures IsOriginalOrRequested(end, before, requests + [q])
  {
    RequestsGrow(h0, h, before, requests, q);
    OneMoreRequest(end, start, before, requests, q);
    forall i | |h0| <= i < |h'|
      ensures IsOriginalOrRequested(h'[i], before, requests + [q])
    {
      if i >= |h| {
        OneMoreRequest(h'[i], start, before, requests, q);
      }
    }
  }

  /** Any number of updates in a row, each failing or not: no half-written window is ever in force. */
  method WriteWindows(handle: SmcHandle, requests: seq<Request>) returns (oks: seq<bool>)
    modifies handle.device
    ensures |oks| == |requests|
    ensures oks != [] && oks[|oks| - 1] ==> InForce(handle.device.regs, requests[|requests| - 1])
    ensures AllFine(old(handle.device.faults)) && HasLimit(old(handle.device.regs)) ==> forall ok <- oks :: ok
    ensures AllOriginalOrRequested(
              old(handle.device.history), handle.device.history, old(handle.device.regs), requests)
    ensures IsOriginalOrRequested(handle.device.regs, old(handle.device.regs), requests)
  {
    ghost var h0, before := handle.device.history, handle.device.regs;
    ghost var fine := AllFine(handle.device.faults) && HasLimit(before);
    oks := [];
    for k := 0 to |requests|
      invariant |oks| == k && (k > 0 && oks[k - 1] ==> InForce(handle.device.regs, requests[k - 1]))
      invariant fine ==> AllFine(handle.device.faults) && HasLimit(handle.device.regs) && forall ok <- oks :: ok
      invariant AllOriginalOrRequested(h0, handle.device.history, before, requests[..k])
      invariant IsOriginalOrRequested(handle.device.regs, before, requests[..k])
    {
      ghost var h, start := handle.device.history, handle.device.regs;
      var ok := handle.WriteFirmware(requests[k].lower, requests[k].upper);
      oks := oks + [ok];
      CallKeepsOriginal(h0, h, handle.device.history, before, start, handle.device.regs, requests[..k], requests[k]);
      assert requests[..k + 1] == requests[..k] + [requests[k]];
    }
    assert requests[..|requests|] == requests;
  }

  predicate AllFine(faults: seq<Fault>) { forall i :: 0 <= i < |faults| ==> faults[i] == Fine }

  /** The register states passed through after the messages of before. */
  ghost predicate OnlyStates(before: seq<Regs>, after: seq<Regs>, states: set<Regs>)
  {
    && |before| <= |after|
    && after[..|before|] == before
    && forall i :: |before| <= i < |after| ==> after[i] in states
  }
}
