/** Whole runs of the battery control loop: how often the charger toggles and how backends are abandoned. */
module ChargeHistory {
  import opened ChargeControl
  import opened Options

  // ---- hysteresis of a switch node under a fixed window ----

  /** One readable capacity and the circumstances it is read in. */
  datatype Reading = Reading(capacity: nat, env: Env)

  function AsEnv(r: Reading): Env { r.env.(battery := Battery(r.capacity)) }

  /** The plant after a trace of readings. */
  function After(w: Window, p: Plant, trace: seq<Reading>): Plant
    requires IsWindow(w)
  {
    if trace == [] then p
    else Check(w, After(w, p, trace[..|trace| - 1]), AsEnv(trace[|trace| - 1]))
  }

  /** The setting of the controller's node; none while the node has not been seen. */
  function Setting(p: Plant): Option<string>
  {
    if p.ctl.switchPath in p.files then Some(p.files[p.ctl.switchPath]) else None
  }

  /** The node's setting at the start and after each reading. */
  function Settings(w: Window, p: Plant, trace: seq<Reading>): (s: seq<Option<string>>)
    requires IsWindow(w)
    ensures |s| == |trace| + 1
  {
    seq(|trace| + 1, k requires 0 <= k <= |trace| => Setting(After(w, p, trace[..k])))
  }

  function Capacities(trace: seq<Reading>): (caps: seq<nat>)
    ensures |caps| == |trace|
  {
    seq(|trace|, k requires 0 <= k < |trace| => trace[k].capacity)
  }

  /** How often the setting changed. */
  function Changes(s: seq<Option<string>>): nat
  {
    if |s| <= 1 then 0 else Changes(s[..|s| - 1]) + if s[|s| - 1] != s[|s| - 2] then 1 else 0
  }

  function Distance(a: int, b: int): nat { if a < b then b - a else a - b }

  /** How far the capacity travelled. */
  function TotalVariation(caps: seq<nat>): nat
  {
    if |caps| <= 1 then 0
    else TotalVariation(caps[..|caps| - 1]) + Distance(caps[|caps| - 2], caps[|caps| - 1])
  }

  /** The capacity at the last change of the setting, if there was one. */
  function LastChange(s: seq<Option<string>>, caps: seq<nat>): Option<nat>
    requires |s| == |caps| + 1
  {
    if caps == [] then None
    else if s[|s| - 1] != s[|s| - 2] then Some(caps[|caps| - 1])
    else LastChange(s[..|s| - 1], caps[..|caps| - 1])
  }

  lemma {:induction false} SwitchStaysSwitch(w: Window, p: Plant, trace: seq<Reading>)
    requires IsWindow(w) && p.ctl.mode == Switch
    ensures After(w, p, trace).ctl == p.ctl
  {
    if trace != [] {
      SwitchStaysSwitch(w, p, trace[..|trace| - 1]);
    }
  }

  /** The setting left by the last change: its capacity explains it. */
  ghost predicate Explains(w: Window, p: Plant, setting: Option<string>, at: nat)
  {
    (at >= w.pause && setting == Some(p.ctl.disableVal)) || (at <= w.resume && setting == Some(p.ctl.enableVal))
  }

  /** A change happens at an extreme capacity, and away from the capacity of the previous one. */
  lemma OneReading(w: Window, p: Plant, r: Reading)
    requires IsWindow(w) && p.ctl.mode == Switch
    ensures var p' := Check(w, p, AsEnv(r));
            Setting(p') != Setting(p) ==> Explains(w, p, Setting(p'), r.capacity)
  {
  }

  /** The change at reading k, if there is one, happens at a capacity that explains it. */
  ghost predicate ExplainedAt(w: Window, p: Plant, s: seq<Option<string>>, caps: seq<nat>, k: nat)
    requires |s| == |caps| + 1 && k < |caps|
  {
    s[k + 1] != s[k] ==> Explains(w, p, s[k + 1], caps[k])
  }

  ghost predicate AllExplained(w: Window, p: Plant, s: seq<Option<string>>, caps: seq<nat>)
    requires |s| == |caps| + 1
  {
    forall k :: 0 <= k < |caps| ==> ExplainedAt(w, p, s, caps, k)
  }

  lemma SettingsAreExplained(w: Window, p: Plant, trace: seq<Reading>)
    requires IsWindow(w) && p.ctl.mode == Switch
    ensures AllExplained(w, p, Settings(w, p, trace), Capacities(trace))
  {
    forall k | 0 <= k < |trace|
      ensures ExplainedAt(w, p, Settings(w, p, trace), Capacities(trace), k)
    {
      SettingExplainedAt(w, p, trace, k);
    }
  }

  lemma SettingExplainedAt(w: Window, p: Plant, trace: seq<Reading>, k: nat)
    requires IsWindow(w) && p.ctl.mode == Switch && k < |trace|
    ensures Setting(After(w, p, trace[..k + 1])) != Setting(After(w, p, trace[..k])) ==>
              Explains(w, p, Setting(After(w, p, trace[..k + 1])), trace[k].capacity)
  {
    assert trace[..k + 1][..k] == trace[..k];
    SwitchStaysSwitch(w, p, trace[..k]);
    OneReading(w, After(w, p, trace[..k]), trace[k]);
  }

  lemma ChangesAlternate(w: Window, p: Plant, before: Option<string>, at: nat, after: Option<string>, now: nat)
    requires IsWindow(w) && Explains(w, p, before, at) && Explains(w, p, after, now) && before != after
    ensures Distance(at, now) >= w.pause - w.resume
  {
  }

  /** n times the gap. */
  function Gaps(n: nat, gap: nat): nat { if n == 0 then 0 else Gaps(n - 1, gap) + gap }

  lemma {:induction false} GapsMultiply(n: nat, gap: nat)
    ensures Gaps(n, gap) == n * gap
  {
    if n > 0 {
      GapsMultiply(n - 1, gap);
      assert n * gap == (n - 1) * gap + gap;
    }
  }

  lemma GapsAreCovered(n: nat, gap: nat, travelled: int)
    requires Gaps(n, gap) <= travelled
    ensures n * gap <= travelled
  {
    GapsMultiply(n, gap);
  }

  /** n changes so far, the last one at capacity at, and the capacity is now at now. */
  ghost predicate Travelled(n: nat, gap: nat, travelled: int, at: int, now: int)
    requires n > 0
  {
    travelled >= Gaps(n - 1, gap) + Distance(at, now)
  }

  /** Toggling is paid for: after T changes the capacity has crossed T - 1 gaps and moved on since. */
  ghost predicate Paid(w: Window, p: Plant, s: seq<Option<string>>, caps: seq<nat>)
    requires IsWindow(w) && |s| == |caps| + 1
  {
    && caps != [] && Changes(s) > 0
    && LastChange(s, caps).Some?
    && Explains(w, p, s[|caps|], LastChange(s, caps).value)
    && Travelled(Changes(s), w.pause - w.resume, TotalVariation(caps), LastChange(s, caps).value, caps[|caps| - 1])
  }

  /** Whatever made the settings change, if every change is explained by its capacity then toggling is paid for. */
  lemma {:induction false} TravelledSinceLastChange(w: Window, p: Plant, s: seq<Option<string>>, caps: seq<nat>)
    requires IsWindow(w) && |s| == |caps| + 1 && AllExplained(w, p, s, caps) && Changes(s) > 0
    ensures Paid(w, p, s, caps)
  {
    var k := |caps| - 1;
    var s0, caps0 := s[..k + 1], caps[..k];
    assert ExplainedAt(w, p, s, caps, k);
    forall i | 0 <= i < k
      ensures ExplainedAt(w, p, s0, caps0, i)
    {
      assert ExplainedAt(w, p, s, caps, i);
    }
    if Changes(s0) > 0 {
      TravelledSinceLastChange(w, p, s0, caps0);
      OneMoreReading(w, p, s[k], s[k + 1], Changes(s0), TotalVariation(caps0), LastChange(s0, caps0).value,
                     caps[k - 1], caps[k]);
    }
  }

  /** One more reading, with the setting before and after it. */
  lemma OneMoreReading(w: Window, p: Plant, before: Option<string>, after: Option<string>,
                       n: nat, travelled: int, at: nat, now: nat, last: nat)
    requires IsWindow(w) && n > 0 && Explains(w, p, before, at) && Travelled(n, w.pause - w.resume, travelled, at, now)
    requires after != before ==> Explains(w, p, after, last)
    ensures var (n', at') := if after != before then (n + 1, last) else (n, at);
            Explains(w, p, after, at') && Travelled(n', w.pause - w.resume, travelled + Distance(now, last), at', last)
  {
    OneMoreLeg(n, w.pause - w.resume, travelled, at, now, last);
    if after != before {
      ChangesAlternate(w, p, before, at, after, last);
    }
  }

  /** One more leg: the triangle inequality, and a full gap when the setting changes. */
  lemma OneMoreLeg(n: nat, gap: nat, travelled: int, at: int, now: int, last: int)
    requires n > 0 && Travelled(n, gap, travelled, at, now)
    ensures Travelled(n, gap, travelled + Distance(now, last), at, last)
    ensures Distance(at, last) >= gap ==> Travelled(n + 1, gap, travelled + Distance(now, last), last, last)
  {
  }

  lemma GapsTravelled(w: Window, p: Plant, s: seq<Option<string>>, caps: seq<nat>)
    requires IsWindow(w) && |s| == |caps| + 1 && AllExplained(w, p, s, caps) && Changes(s) > 0
    ensures Gaps(Changes(s) - 1, w.pause - w.resume) <= TotalVariation(caps)
  {
    TravelledSinceLastChange(w, p, s, caps);
  }

  /** For any capacity trace and any write failures, T changes need (T - 1) gaps of travelled capacity. */
  lemma TogglingIsBounded(w: Window, p: Plant, trace: seq<Reading>)
    requires IsWindow(w) && p.ctl.mode == Switch && Changes(Settings(w, p, trace)) > 0
    ensures (Changes(Settings(w, p, trace)) - 1) * (w.pause - w.resume) <= TotalVariation(Capacities(trace))
  {
    var s, caps := Settings(w, p, trace), Capacities(trace);
    SettingsAreExplained(w, p, trace);
    GapsTravelled(w, p, s, caps);
    GapsAreCovered(Changes(s) - 1, w.pause - w.resume, TotalVariation(caps));
  }

  function ValueFor(p: Plant, wish: Wish): string
  {
    if wish == Stop then p.ctl.disableVal else p.ctl.enableVal
  }

  /** The last reading outside the open window whose write could be made, and what it asked for. */
  function LastDecision(w: Window, p: Plant, trace: seq<Reading>): Option<Wish>
    requires IsWindow(w)
  {
    if trace == [] then None
    else
      var init, r := trace[..|trace| - 1], trace[|trace| - 1];
      var wish := Desired(w, r.capacity);
      if wish != LeaveAsIs &&
         WriteOk(After(w, p, init).files, p.ctl.switchPath, ValueFor(p, wish), r.env.readable, r.env.first)
      then Some(wish)
      else LastDecision(w, p, init)
  }

  /** The setting is that of the last reading at or beyond a threshold whose write succeeded. */
  lemma {:induction false} LastDecisionDecides(w: Window, p: Plant, trace: seq<Reading>)
    requires IsWindow(w) && p.ctl.mode == Switch
    ensures Setting(After(w, p, trace))
         == match LastDecision(w, p, trace) case Some(wish) => Some(ValueFor(p, wish)) case None => Setting(p)
  {
    if trace != [] {
      LastDecisionDecides(w, p, trace[..|trace| - 1]);
      SwitchStaysSwitch(w, p, trace[..|trace| - 1]);
    }
  }

  // ---- threshold nodes ----

  function At(files: Files, path: string): Option<string> { if path in files then Some(files[path]) else None }

  function Degraded(ctl: Controller): Controller { ctl.(degraded := true, mode := Level) }

  /**
    Under a fixed window a threshold node only ever holds its old limits or the requested ones, other files stay as
    they are, the start limit never moves before the end limit is in force, and degrading is for good.
   */
  lemma {:induction false} LimitsAreOrdered(w: Window, p: Plant, trace: seq<Reading>)
    requires IsWindow(w) && p.ctl.mode == Threshold && p.ctl.startPath != p.ctl.endPath
    ensures var q := After(w, p, trace);
            && (q.ctl == p.ctl || q.ctl == Degraded(p.ctl))
            && (forall path :: path != p.ctl.startPath && path != p.ctl.endPath ==>
                  At(q.files, path) == At(p.files, path))
            && (At(q.files, p.ctl.endPath) == At(p.files, p.ctl.endPath)
                || At(q.files, p.ctl.endPath) == Some(Decimal(w.pause)))
            && (At(q.files, p.ctl.startPath) == At(p.files, p.ctl.startPath)
                || (At(q.files, p.ctl.startPath) == Some(Decimal(w.resume))
                    && At(q.files, p.ctl.endPath) == Some(Decimal(w.pause))))
            && (q.ctl != p.ctl ==> At(q.files, p.ctl.endPath) == Some(Decimal(w.pause)))
  {
    if trace != [] {
      LimitsAreOrdered(w, p, trace[..|trace| - 1]);
    }
  }

  /** Once degraded, a threshold node stays end-only and its start limit is never written again. */
  lemma {:induction false} DegradingIsForGood(w: Window, p: Plant, trace: seq<Reading>, k: nat, l: nat)
    requires IsWindow(w) && k <= l <= |trace| && p.ctl.startPath != p.ctl.endPath
    requires After(w, p, trace[..k]).ctl == Degraded(p.ctl)
    ensures After(w, p, trace[..l]).ctl == Degraded(p.ctl)
    ensures At(After(w, p, trace[..l]).files, p.ctl.startPath) == At(After(w, p, trace[..k]).files, p.ctl.startPath)
  {
    if k < l {
      DegradingIsForGood(w, p, trace, k, l - 1);
      assert trace[..l][..l - 1] == trace[..l - 1];
    }
  }

  // ---- failover ----

  datatype TickInput = TickInput(w: Window, env: Env)

  predicate GoodInputs(ins: seq<TickInput>) { forall i :: 0 <= i < |ins| ==> IsWindow(ins[i].w) }

  /** The loop after its start and a number of ticks; nodes may come and go and windows may change in between. */
  function LoopAfter(cands: seq<Controller>, files: Files, ins: seq<TickInput>): Loop
    requires ins != [] && GoodInputs(ins)
  {
    if |ins| == 1 then Started(cands, ins[0].w, files, ins[0].env)
    else
      Tick(cands, ins[|ins| - 1].w, LoopAfter(cands, files, ins[..|ins| - 1]), ins[|ins| - 1].env)
  }

  function Names(cands: seq<Controller>): set<string> { set c | c in cands :: c.name }

  lemma {:induction false} ProbeFinds(cands: seq<Controller>, avail: set<nat>, skip: set<string>, from: nat)
    ensures var r := Probe(cands, avail, skip, from);
            r.Some? ==> r.value.name in Names(cands) && r.value.name !in skip
    decreases |cands| - from
  {
    if from < |cands| {
      ProbeFinds(cands, avail, skip, from + 1);
    }
  }

  /** How long ago the counters were last known to be zero bounds them. */
  predicate CountsWithin(c: Counters, n: int) { c.writeFails <= n && c.ineffective <= n }

  /**
    All backends chosen so far have different names; all but the current one are on the bad list; a backend's
    counters are no higher than the number of checks since it was chosen; and choices are three ticks apart.
   */
  ghost predicate Inv(cands: seq<Controller>, l: Loop)
  {
    && (forall i, j :: 0 <= i < j < |l.selected| ==> l.selected[i].name != l.selected[j].name)
    && (forall i :: 0 <= i < |l.selected| ==> l.selected[i].name in Names(cands))
    && (forall i :: 0 <= i < |l.selected| - 1 ==> l.selected[i].name in l.bad)
    && (forall i, j :: 0 <= i && j == i + 1 < |l.selected| ==> l.selected[j].tick >= l.selected[i].tick + 3)
    && (l.ctl.None? ==> l.selected == [] && l.counts == NO_COUNTS)
    && (l.ctl.Some? ==>
          && l.selected != [] && l.selected[|l.selected| - 1].name == l.ctl.value.name
          && l.selected[|l.selected| - 1].tick <= l.ticks)
  }

  ghost predicate Checked(l: Loop)
  {
    l.ctl.Some? && l.selected != [] ==> CountsWithin(l.counts, l.ticks - l.selected[|l.selected| - 1].tick + 1)
  }

  lemma ActCounts(cands: seq<Controller>, w: Window, l: Loop, env: Env, n: nat)
    requires IsWindow(w) && Inv(cands, l) && CountsWithin(l.counts, n)
    ensures Inv(cands, Act(w, l, env)) && CountsWithin(Act(w, l, env).counts, n + 1)
    ensures Act(w, l, env).selected == l.selected && Act(w, l, env).ticks == l.ticks
  {
  }

  lemma AdoptKeepsInv(cands: seq<Controller>, l: Loop, nc: Option<Controller>)
    requires Inv(cands, l)
    requires nc.Some? ==> nc.value.name in Names(cands) && nc.value.name !in l.bad
    requires l.ctl.Some? ==> l.ctl.value.name in l.bad && l.ticks >= l.selected[|l.selected| - 1].tick + 3
    ensures Inv(cands, Adopt(l, nc))
  {
    if nc.Some? {
      var l' := Adopt(l, nc);
      assert forall i :: 0 <= i < |l.selected| ==> l'.selected[i] == l.selected[i];
    }
  }

  /** Before the check of a tick the counters are one lower than Checked allows after it. */
  ghost predicate Ready(l: Loop)
  {
    l.ctl.Some? && l.selected != [] ==> CountsWithin(l.counts, l.ticks - l.selected[|l.selected| - 1].tick)
  }

  lemma TimePasses(cands: seq<Controller>, l: Loop)
    requires Inv(cands, l) && Checked(l)
    ensures Inv(cands, l.(ticks := l.ticks + 1)) && Ready(l.(ticks := l.ticks + 1))
  {
  }

  lemma ReselectKeepsInv(cands: seq<Controller>, l: Loop, env: Env)
    requires Inv(cands, l) && Ready(l)
    ensures Inv(cands, Reselect(cands, l, env)) && Ready(Reselect(cands, l, env))
  {
    if l.ctl.None? {
      ProbeFinds(cands, env.avail, l.bad, 0);
      AdoptKeepsInv(cands, l, Probe(cands, env.avail, l.bad, 0));
    } else if GivesUp(l.counts) {
      var bad := l.bad + {l.ctl.value.name};
      ProbeFinds(cands, env.avail, bad, 0);
      AdoptKeepsInv(cands, l.(bad := bad, counts := l.counts.(writeFails := 0, ineffective := 0)),
                    Probe(cands, env.avail, bad, 0));
    }
  }

  lemma TickKeepsInv(cands: seq<Controller>, w: Window, l: Loop, env: Env)
    requires IsWindow(w) && Inv(cands, l) && Checked(l)
    ensures Inv(cands, Tick(cands, w, l, env)) && Checked(Tick(cands, w, l, env))
  {
    var l0 := l.(ticks := l.ticks + 1);
    TimePasses(cands, l);
    ReselectKeepsInv(cands, l0, env);
    var l1 := Reselect(cands, l0, env);
    ActKeepsInv(cands, w, l1, env);
    assert Tick(cands, w, l, env) == Act(w, l1, env);
  }

  lemma ActKeepsInv(cands: seq<Controller>, w: Window, l: Loop, env: Env)
    requires IsWindow(w) && Inv(cands, l) && Ready(l)
    ensures Inv(cands, Act(w, l, env)) && Checked(Act(w, l, env))
  {
    if l.ctl.Some? {
      ActCounts(cands, w, l, env, l.ticks - l.selected[|l.selected| - 1].tick);
    }
  }

  lemma {:induction false} LoopKeepsInv(cands: seq<Controller>, files: Files, ins: seq<TickInput>)
    requires ins != [] && GoodInputs(ins)
    ensures Inv(cands, LoopAfter(cands, files, ins)) && Checked(LoopAfter(cands, files, ins))
  {
    if |ins| == 1 {
      var l0 := Loop(None, NO_COUNTS, files, {}, 0, []);
      ProbeFinds(cands, ins[0].env.avail, {}, 0);
      AdoptKeepsInv(cands, l0, Probe(cands, ins[0].env.avail, {}, 0));
      ActKeepsInv(cands, ins[0].w, Adopt(l0, Probe(cands, ins[0].env.avail, {}, 0)), ins[0].env);
    } else {
      var init, last := ins[..|ins| - 1], ins[|ins| - 1];
      LoopKeepsInv(cands, files, init);
      TickKeepsInv(cands, last.w, LoopAfter(cands, files, init), last.env);
    }
  }

  lemma {:induction false} DistinctNamesFit(sel: seq<Selection>, names: set<string>)
    requires forall i, j :: 0 <= i < j < |sel| ==> sel[i].name != sel[j].name
    requires forall i :: 0 <= i < |sel| ==> sel[i].name in names
    ensures |sel| <= |names|
  {
    if sel != [] {
      var init, last := sel[..|sel| - 1], sel[|sel| - 1].name;
      DistinctNamesFit(init, names - {last});
      assert last in names;
    }
  }

  /**
    In every run a backend once abandoned is never chosen again, there are fewer switches than candidate names, and
    at least three ticks pass between one choice and the next.
   */
  lemma BackendsAreNeverRevisited(cands: seq<Controller>, files: Files, ins: seq<TickInput>)
    requires ins != [] && GoodInputs(ins)
    ensures var sel := LoopAfter(cands, files, ins).selected;
            && (forall i, j :: 0 <= i < j < |sel| ==> sel[i].name != sel[j].name)
            && (sel != [] ==> |sel| - 1 < |Names(cands)|)
            && (forall i, j :: 0 <= i && j == i + 1 < |sel| ==> sel[j].tick >= sel[i].tick + 3)
  {
    LoopKeepsInv(cands, files, ins);
    DistinctNamesFit(LoopAfter(cands, files, ins).selected, Names(cands));
  }

  /** The loop itself, from its start through any number of ticks. */
  method RunLoop(loop: ControlLoop, files: Files, ins: seq<TickInput>)
    requires loop.Value() == Loop(None, NO_COUNTS, files, {}, 0, []) && ins != [] && GoodInputs(ins)
    modifies loop
    ensures loop.Value() == LoopAfter(loop.cands, files, ins)
    ensures var sel := loop.selected;
            && (forall i, j :: 0 <= i < j < |sel| ==> sel[i].name != sel[j].name)
            && (sel != [] ==> |sel| - 1 < |Names(loop.cands)|)
            && (forall i, j :: 0 <= i && j == i + 1 < |sel| ==> sel[j].tick >= sel[i].tick + 3)
  {
    loop.Begin(ins[0].w, ins[0].env);
    assert ins[..1][0] == ins[0];
    for k := 1 to |ins|
      invariant GoodInputs(ins[..k]) && loop.Value() == LoopAfter(loop.cands, files, ins[..k])
    {
      OneMoreTick(loop.cands, files, ins, k);
      loop.OnTick(ins[k].w, ins[k].env);
    }
    assert ins[..|ins|] == ins;
    BackendsAreNeverRevisited(loop.cands, files, ins);
  }

  lemma OneMoreTick(cands: seq<Controller>, files: Files, ins: seq<TickInput>, k: nat)
    requires 1 <= k < |ins| && GoodInputs(ins)
    ensures GoodInputs(ins[..k]) && GoodInputs(ins[..k + 1])
    ensures LoopAfter(cands, files, ins[..k + 1])
         == Tick(cands, ins[k].w, LoopAfter(cands, files, ins[..k]), ins[k].env)
  {
    assert ins[..k + 1][..k] == ins[..k];
  }
}
