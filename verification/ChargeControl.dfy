/** The battery control loop: threshold window, node writes, hysteresis, effectiveness strikes, backend failover. */
module ChargeControl {
  import opened Options

  const DEFAULT_PAUSE: int := 75
  const DEFAULT_RESUME: int := 30
  const REPROBE_AFTER: nat := 3
  const EFFECTIVE_STRIKES: nat := 3
  const WRITE_RETRIES: nat := 6

  // ---- the window ----

  datatype Window = Window(pause: int, resume: int)

  predicate IsWindow(w: Window) { 1 <= w.pause <= 100 && 0 <= w.resume < w.pause }

  class Thresholds {
    var stored: Option<Window>

    /** Whatever was attempted, the window in force is a valid one. */
    ghost predicate Valid()
      reads this
    {
      stored.Some? ==> IsWindow(stored.value)
    }

    function Current(): (w: Window)
      reads this
      requires Valid()
      ensures IsWindow(w)
    {
      if stored.Some? then stored.value else Window(DEFAULT_PAUSE, DEFAULT_RESUME)
    }

    constructor ()
      ensures Valid() && Current() == Window(DEFAULT_PAUSE, DEFAULT_RESUME)
    {
      stored := None;
    }

    method SetThresholds(pause: int, resume: int) returns (ok: bool)
      requires Valid()
      modifies this
      ensures Valid()
      ensures ok <==> IsWindow(Window(pause, resume))
      ensures Current() == if ok then Window(pause, resume) else old(Current())
    {
      if pause < 1 || pause > 100 {
        return false;
      }
      if resume < 0 || resume > 100 {
        return false;
      }
      if resume >= pause {
        return false;
      }
      stored := Some(Window(pause, resume));
      ok := true;
    }
  }

  // ---- node writes ----

  type Files = map<string, string>

  /** Outcomes of the write attempts in order; attempts beyond the list fail. */
  type Attempts = seq<bool>

  predicate AnySucceeds(attempts: Attempts)
  {
    exists i :: 0 <= i < |attempts| && i < 2 * WRITE_RETRIES && attempts[i]
  }

  /** A write is skipped when the node is readable and already holds the value. */
  predicate WriteOk(files: Files, path: string, val: string, readable: bool, attempts: Attempts)
  {
    (readable && path in files && files[path] == val) || AnySucceeds(attempts)
  }

  function Written(files: Files, path: string, val: string, readable: bool, attempts: Attempts): Files
  {
    if WriteOk(files, path, val, readable, attempts) then files[path := val] else files
  }

  predicate Attempt(attempts: Attempts, i: nat) { i < |attempts| && attempts[i] }

  /** Each round tries the value with a newline, then the bare value. */
  method WriteValue(files: Files, path: string, val: string, readable: bool, attempts: Attempts)
    returns (ok: bool, files': Files)
    ensures ok <==> WriteOk(files, path, val, readable, attempts)
    ensures files' == Written(files, path, val, readable, attempts)
    ensures ok <==> (readable && path in files && files[path] == val) ||
                    exists i :: 0 <= i < |attempts| && i < 12 && attempts[i]
    ensures files' == if ok then files[path := val] else files
  {
    if readable && path in files && files[path] == val {
      assert files[path := val] == files;
      return true, files;
    }
    for i := 0 to WRITE_RETRIES
      invariant forall j :: 0 <= j < 2 * i && j < |attempts| ==> !attempts[j]
    {
      if Attempt(attempts, 2 * i) {
        return true, files[path := val];
      }
      if Attempt(attempts, 2 * i + 1) {
        return true, files[path := val];
      }
    }
    return false, files;
  }

  // ---- one control decision ----

  datatype Mode = Threshold | Level | Switch

  datatype Controller = Controller(
    mode: Mode, name: string, startPath: string, endPath: string, switchPath: string,
    enableVal: string, disableVal: string, degraded: bool)

  datatype Counters = Counters(lastCap: Option<int>, writeFails: nat, ineffective: nat)

  const NO_COUNTS: Counters := Counters(None, 0, 0)

  datatype Battery = NoBattery | Battery(capacity: int)

  /** What one tick meets; avail are the candidates whose node exists and is writable. */
  datatype Env = Env(
    battery: Battery, plugged: bool, charging: bool, readable: bool, first: Attempts, second: Attempts, avail: set<nat>)

  datatype Plant = Plant(ctl: Controller, counts: Counters, files: Files)

  function Decimal(n: int): string
    requires 0 <= n <= 100
  {
    if n == 100 then "100" else if n >= 10 then [Digit(n / 10), Digit(n % 10)] else [Digit(n)]
  }

  function Digit(d: int): char
    requires 0 <= d < 10
  {
    '0' + d as char
  }

  predicate IsDigit(c: char) { '0' <= c <= '9' }

  /** The number that a string of digits denotes. */
  function Number(s: string): int
    requires forall c <- s :: IsDigit(c)
  {
    if s == "" then 0
    else
      var last := s[|s| - 1];
      assert IsDigit(last);
      10 * Number(s[..|s| - 1]) + (last - '0') as int
  }

  /** The text written denotes the percentage and has no leading zero. */
  lemma DecimalDenotes(n: int)
    requires 0 <= n <= 100
    ensures var s := Decimal(n);
            s != "" && (forall c <- s :: IsDigit(c)) && Number(s) == n && (s[0] == '0' ==> n == 0)
  {
    var s := Decimal(n);
    if n == 100 {
      assert Number("1") == 1 by { assert "1"[..0] == ""; }
      assert Number("10") == 10 by { assert "10"[..1] == "1"; }
      assert s[..2] == "10";
    } else if n >= 10 {
      var tens := [Digit(n / 10)];
      assert tens[..0] == "";
      assert Number(tens) == n / 10;
      assert s[..1] == tens;
    } else {
      assert s[..0] == "";
    }
  }

  /** Counts a tick on which the limit looks ineffective, or clears the count. */
  function Effective(w: Window, c: Counters, capacity: int, env: Env): Counters
  {
    var rising := c.lastCap.Some? && capacity > c.lastCap.value;
    c.(lastCap := Some(capacity),
       ineffective := if capacity < w.pause || !env.plugged || (!rising && !env.charging) then 0 else c.ineffective + 1)
  }

  function Noted(c: Counters, ok: bool): Counters { c.(writeFails := if ok then 0 else c.writeFails + 1) }

  /** The end threshold is written first; a failing start threshold degrades the node to end-only. */
  function ThresholdStep(w: Window, p: Plant, capacity: int, env: Env): Plant
    requires IsWindow(w)
  {
    var endOk := WriteOk(p.files, p.ctl.endPath, Decimal(w.pause), env.readable, env.first);
    var files1 := Written(p.files, p.ctl.endPath, Decimal(w.pause), env.readable, env.first);
    var counts := Effective(w, Noted(p.counts, endOk), capacity, env);
    if !endOk || p.ctl.degraded || p.ctl.startPath == "" then Plant(p.ctl, counts, files1)
    else
      var startOk := WriteOk(files1, p.ctl.startPath, Decimal(w.resume), env.readable, env.second);
      Plant(if startOk then p.ctl else p.ctl.(degraded := true, mode := Level), counts,
            Written(files1, p.ctl.startPath, Decimal(w.resume), env.readable, env.second))
  }

  function LevelStep(w: Window, p: Plant, capacity: int, env: Env): Plant
    requires IsWindow(w)
  {
    var ok := WriteOk(p.files, p.ctl.endPath, Decimal(w.pause), env.readable, env.first);
    Plant(p.ctl, Effective(w, Noted(p.counts, ok), capacity, env),
          Written(p.files, p.ctl.endPath, Decimal(w.pause), env.readable, env.first))
  }

  datatype Wish = Stop | Allow | LeaveAsIs

  function Desired(w: Window, capacity: int): Wish
  {
    if capacity >= w.pause then Stop else if capacity <= w.resume then Allow else LeaveAsIs
  }

  /** Between the thresholds nothing is written and the strike count is left alone. */
  function SwitchStep(w: Window, p: Plant, capacity: int, env: Env): Plant
  {
    var wish := Desired(w, capacity);
    if wish == LeaveAsIs then p
    else
      var val := if wish == Stop then p.ctl.disableVal else p.ctl.enableVal;
      var ok := WriteOk(p.files, p.ctl.switchPath, val, env.readable, env.first);
      var counts := Noted(p.counts, ok);
      Plant(p.ctl, if ok then Effective(w, counts, capacity, env) else counts,
            Written(p.files, p.ctl.switchPath, val, env.readable, env.first))
  }

  function Check(w: Window, p: Plant, env: Env): Plant
    requires IsWindow(w)
  {
    if env.battery.NoBattery? || env.battery.capacity < 0 then p
    else
      match p.ctl.mode
      case Threshold => ThresholdStep(w, p, env.battery.capacity, env)
      case Level => LevelStep(w, p, env.battery.capacity, env)
      case Switch => SwitchStep(w, p, env.battery.capacity, env)
  }

  // ---- the loop ----

  datatype Selection = Selection(name: string, tick: nat)

  datatype Loop = Loop(
    ctl: Option<Controller>, counts: Counters, files: Files, bad: set<string>, ticks: nat, selected: seq<Selection>)

  /** The first candidate in probe order that is not skipped and resolves. */
  function Probe(cands: seq<Controller>, avail: set<nat>, skip: set<string>, from: nat): Option<Controller>
    decreases |cands| - from
  {
    if from >= |cands| then None
    else if cands[from].name !in skip && from in avail then Some(cands[from])
    else Probe(cands, avail, skip, from + 1)
  }

  predicate Usable(cands: seq<Controller>, avail: set<nat>, skip: set<string>, i: nat)
    requires i < |cands|
  {
    i in avail && cands[i].name !in skip
  }

  /** The candidate in front of which none is usable; none exactly if no candidate is. */
  ghost predicate IsFirstUsable(cands: seq<Controller>, avail: set<nat>, skip: set<string>, nc: Option<Controller>)
  {
    if nc.None? then forall i :: 0 <= i < |cands| ==> !Usable(cands, avail, skip, i)
    else
      exists i :: 0 <= i < |cands| && nc.value == cands[i] && Usable(cands, avail, skip, i)
                  && forall j :: 0 <= j < i ==> !Usable(cands, avail, skip, j)
  }

  lemma ProbeIsFirst(cands: seq<Controller>, avail: set<nat>, skip: set<string>)
    ensures IsFirstUsable(cands, avail, skip, Probe(cands, avail, skip, 0))
  {
    ProbeIsFirstFrom(cands, avail, skip, 0);
  }

  lemma {:induction false} ProbeIsFirstFrom(cands: seq<Controller>, avail: set<nat>, skip: set<string>, from: nat)
    requires from <= |cands| && forall j :: 0 <= j < from ==> !Usable(cands, avail, skip, j)
    ensures IsFirstUsable(cands, avail, skip, Probe(cands, avail, skip, from))
    decreases |cands| - from
  {
    if from < |cands| && !Usable(cands, avail, skip, from) {
      ProbeIsFirstFrom(cands, avail, skip, from + 1);
    }
  }

  predicate GivesUp(c: Counters) { c.writeFails >= REPROBE_AFTER || c.ineffective >= EFFECTIVE_STRIKES }

  function Adopt(l: Loop, nc: Option<Controller>): Loop
  {
    if nc.Some? then l.(ctl := nc, selected := l.selected + [Selection(nc.value.name, l.ticks)]) else l
  }

  /** Looking for a first backend, or moving on from one that failed; the counters restart either way. */
  function Reselect(cands: seq<Controller>, l: Loop, env: Env): Loop
  {
    if l.ctl.None? then Adopt(l, Probe(cands, env.avail, l.bad, 0))
    else if GivesUp(l.counts) then
      var bad := l.bad + {l.ctl.value.name};
      Adopt(l.(bad := bad, counts := l.counts.(writeFails := 0, ineffective := 0)), Probe(cands, env.avail, bad, 0))
    else l
  }

  function Act(w: Window, l: Loop, env: Env): Loop
    requires IsWindow(w)
  {
    if l.ctl.None? then l
    else
      var p := Check(w, Plant(l.ctl.value, l.counts, l.files), env);
      l.(ctl := Some(p.ctl), counts := p.counts, files := p.files)
  }

  function Started(cands: seq<Controller>, w: Window, files: Files, env: Env): Loop
    requires IsWindow(w)
  {
    Act(w, Adopt(Loop(None, NO_COUNTS, files, {}, 0, []), Probe(cands, env.avail, {}, 0)), env)
  }

  function Tick(cands: seq<Controller>, w: Window, l: Loop, env: Env): Loop
    requires IsWindow(w)
  {
    Act(w, Reselect(cands, l.(ticks := l.ticks + 1), env), env)
  }

  class ControlLoop {
    const cands: seq<Controller>
    var ctl: Option<Controller>
    var counts: Counters
    var files: Files
    var bad: set<string>
    var ticks: nat
    var selected: seq<Selection>

    function Value(): Loop
      reads this
    {
      Loop(ctl, counts, files, bad, ticks, selected)
    }

    constructor (cands: seq<Controller>, files: Files)
      ensures this.cands == cands && Value() == Loop(None, NO_COUNTS, files, {}, 0, [])
    {
      this.cands, this.files := cands, files;
      ctl, counts, bad, ticks, selected := None, NO_COUNTS, {}, 0, [];
    }

    method ProbeControllerSkip(avail: set<nat>) returns (nc: Option<Controller>)
      ensures nc == Probe(cands, avail, bad, 0)
      ensures IsFirstUsable(cands, avail, bad, nc)
    {
      for i := 0 to |cands|
        invariant Probe(cands, avail, bad, 0) == Probe(cands, avail, bad, i)
      {
        if cands[i].name in bad {
          continue;
        }
        if i in avail {
          ProbeIsFirst(cands, avail, bad);
          return Some(cands[i]);
        }
      }
      ProbeIsFirst(cands, avail, bad);
      nc := None;
    }

    method Begin(w: Window, env: Env)
      requires IsWindow(w) && Value() == Loop(None, NO_COUNTS, files, {}, 0, [])
      modifies this
      ensures Value() == Started(cands, w, old(files), env)
    {
      var nc := ProbeControllerSkip(env.avail);
      if nc.Some? {
        ctl, selected := nc, selected + [Selection(nc.value.name, ticks)];
        CheckOnce(w, env);
      }
    }

    /** The window is read afresh on every tick. */
    method OnTick(w: Window, env: Env)
      requires IsWindow(w)
      modifies this
      ensures Value() == Tick(cands, w, old(Value()), env)
    {
      ticks := ticks + 1;
      if ctl.None? {
        var nc := ProbeControllerSkip(env.avail);
        if nc.Some? {
          ctl, selected := nc, selected + [Selection(nc.value.name, ticks)];
        }
      } else if counts.writeFails >= REPROBE_AFTER || counts.ineffective >= EFFECTIVE_STRIKES {
        bad := bad + {ctl.value.name};
        var nc := ProbeControllerSkip(env.avail);
        if nc.Some? {
          ctl, selected := nc, selected + [Selection(nc.value.name, ticks)];
        }
        counts := counts.(writeFails := 0, ineffective := 0);
      }
      if ctl.Some? {
        CheckOnce(w, env);
      }
    }

    method CheckOnce(w: Window, env: Env)
      requires IsWindow(w) && ctl.Some?
      modifies this`ctl, this`counts, this`files
      ensures Value() == Act(w, old(Value()), env)
    {
      if env.battery.NoBattery? || env.battery.capacity < 0 {
        return;
      }
      match ctl.value.mode {
        case Threshold => ApplyThreshold(w, env.battery.capacity, env);
        case Level => ApplyLevel(w, env.battery.capacity, env);
        case Switch => ApplySwitch(w, env.battery.capacity, env);
      }
    }

    method ApplyThreshold(w: Window, capacity: int, env: Env)
      requires IsWindow(w) && ctl.Some?
      modifies this`ctl, this`counts, this`files
      ensures ctl.Some?
      ensures Plant(ctl.value, counts, files)
           == ThresholdStep(w, Plant(old(ctl.value), old(counts), old(files)), capacity, env)
    {
      var ok;
      ok, files := WriteValue(files, ctl.value.endPath, Decimal(w.pause), env.readable, env.first);
      if ok && !ctl.value.degraded && ctl.value.startPath != "" {
        var startOk;
        startOk, files := WriteValue(files, ctl.value.startPath, Decimal(w.resume), env.readable, env.second);
        if !startOk {
          ctl := Some(ctl.value.(degraded := true, mode := Level));
        }
      }
      CountWrite(ok);
      CheckEffective(w, capacity, env);
    }

    method ApplyLevel(w: Window, capacity: int, env: Env)
      requires IsWindow(w) && ctl.Some?
      modifies this`counts, this`files
      ensures Plant(ctl.value, counts, files) == LevelStep(w, Plant(ctl.value, old(counts), old(files)), capacity, env)
    {
      var ok;
      ok, files := WriteValue(files, ctl.value.endPath, Decimal(w.pause), env.readable, env.first);
      CountWrite(ok);
      CheckEffective(w, capacity, env);
    }

    method ApplySwitch(w: Window, capacity: int, env: Env)
      requires ctl.Some?
      modifies this`counts, this`files
      ensures Plant(ctl.value, counts, files) == SwitchStep(w, Plant(ctl.value, old(counts), old(files)), capacity, env)
    {
      var val;
      if capacity >= w.pause {
        val := ctl.value.disableVal;
      } else if capacity <= w.resume {
        val := ctl.value.enableVal;
      } else {
        return;
      }
      var ok;
      ok, files := WriteValue(files, ctl.value.switchPath, val, env.readable, env.first);
      CountWrite(ok);
      if !ok {
        return;
      }
      CheckEffective(w, capacity, env);
    }

    method CountWrite(ok: bool)
      modifies this`counts
      ensures counts == Noted(old(counts), ok)
    {
      counts := counts.(writeFails := if ok then 0 else counts.writeFails + 1);
    }

    method CheckEffective(w: Window, capacity: int, env: Env)
      modifies this`counts
      ensures counts == Effective(w, old(counts), capacity, env)
      ensures counts.lastCap == Some(capacity) && counts.writeFails == old(counts).writeFails
      ensures counts.ineffective ==
              if capacity >= w.pause && env.plugged
                 && (env.charging || (old(counts).lastCap.Some? && capacity > old(counts).lastCap.value))
              then old(counts).ineffective + 1 else 0
    {
      var rising := counts.lastCap.Some? && capacity > counts.lastCap.value;
      counts := counts.(lastCap := Some(capacity));
      if capacity < w.pause || !env.plugged || (!rising && !env.charging) {
        counts := counts.(ineffective := 0);
        return;
      }
      counts := counts.(ineffective := counts.ineffective + 1);
    }
  }
}
