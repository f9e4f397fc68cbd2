/** What each check of the control loop finds, and which findings make the loop give a node up. */
module ChargeVerdicts {
  import opened ChargeControl
  import opened ChargeHistory
  import opened Options

  /** What one check finds: whether the node took the write, and whether the limit looks ineffective. */
  datatype Verdict = Verdict(writeOk: Option<bool>, strike: Option<bool>)

  const NO_VERDICT: Verdict := Verdict(None, None)

  /** On wall power, at or above the pause level, and still charging or climbing. */
  predicate LooksIneffective(w: Window, lastCap: Option<int>, capacity: int, env: Env)
  {
    capacity >= w.pause && env.plugged && (env.charging || (lastCap.Some? && capacity > lastCap.value))
  }

  /** Without a readable capacity, and for a switch node in between the thresholds, a check finds nothing. */
  function VerdictOf(w: Window, ctl: Controller, files: Files, lastCap: Option<int>, env: Env): Verdict
    requires IsWindow(w)
  {
    if env.battery.NoBattery? || env.battery.capacity < 0 then NO_VERDICT
    else
      var capacity := env.battery.capacity;
      var strike := Some(LooksIneffective(w, lastCap, capacity, env));
      if ctl.mode != Switch then
        Verdict(Some(WriteOk(files, ctl.endPath, Decimal(w.pause), env.readable, env.first)), strike)
      else if w.resume < capacity < w.pause then NO_VERDICT
      else
        var val := if capacity >= w.pause then ctl.disableVal else ctl.enableVal;
        var ok := WriteOk(files, ctl.switchPath, val, env.readable, env.first);
        Verdict(Some(ok), if ok then strike else None)
  }

  function Counted(n: nat, finding: Option<bool>, bad: bool): nat
  {
    match finding
    case None => n
    case Some(b) => if b == bad then n + 1 else 0
  }

  /** A check counts its verdict and nothing else, and what it does to the node does not change the verdict. */
  lemma CheckCountsVerdict(w: Window, p: Plant, env: Env)
    requires IsWindow(w)
    ensures var p', v := Check(w, p, env), VerdictOf(w, p.ctl, p.files, p.counts.lastCap, env);
            && p'.counts.writeFails == Counted(p.counts.writeFails, v.writeOk, false)
            && p'.counts.ineffective == Counted(p.counts.ineffective, v.strike, true)
            && p'.counts.lastCap == (if v.strike.Some? then Some(env.battery.capacity) else p.counts.lastCap)
            && VerdictOf(w, p'.ctl, p.files, p.counts.lastCap, env) == v
            && p'.ctl.name == p.ctl.name
  {
  }

  // ---- one check of each kind of node ----

  /** The end limit is in force whenever its write could be made; only then is the start limit tried. */
  lemma ThresholdCheck(w: Window, p: Plant, env: Env)
    requires IsWindow(w) && p.ctl.mode == Threshold && p.ctl.startPath != p.ctl.endPath
    requires env.battery.Battery? && env.battery.capacity >= 0
    ensures var q, stop, resume := Check(w, p, env), Decimal(w.pause), Decimal(w.resume);
            var endOk := WriteOk(p.files, p.ctl.endPath, stop, env.readable, env.first);
            var startOk := WriteOk(p.files, p.ctl.startPath, resume, env.readable, env.second);
            if !endOk then q.ctl == p.ctl && q.files == p.files
            else if p.ctl.degraded || p.ctl.startPath == "" then
              q.ctl == p.ctl && q.files == p.files[p.ctl.endPath := stop]
            else if startOk then
              q.ctl == p.ctl && q.files == p.files[p.ctl.endPath := stop][p.ctl.startPath := resume]
            else q.ctl == Degraded(p.ctl) && q.files == p.files[p.ctl.endPath := stop]
  {
  }

  /** An end-only node holds the pause level after every check whose write could be made. */
  lemma LevelCheck(w: Window, p: Plant, env: Env)
    requires IsWindow(w) && p.ctl.mode == Level && env.battery.Battery? && env.battery.capacity >= 0
    ensures var q := Check(w, p, env);
            && q.ctl == p.ctl
            && q.files == if WriteOk(p.files, p.ctl.endPath, Decimal(w.pause), env.readable, env.first)
                          then p.files[p.ctl.endPath := Decimal(w.pause)] else p.files
  {
  }

  /** A switch node holds the stop value at or above the pause level, the allow value at or below the resume level. */
  lemma SwitchCheck(w: Window, p: Plant, env: Env)
    requires IsWindow(w) && p.ctl.mode == Switch && env.battery.Battery? && env.battery.capacity >= 0
    ensures var q, capacity := Check(w, p, env), env.battery.capacity;
            && (w.resume < capacity < w.pause ==> q == p)
            && (capacity >= w.pause ==>
                  var ok := WriteOk(p.files, p.ctl.switchPath, p.ctl.disableVal, env.readable, env.first);
                  q.files == if ok then p.files[p.ctl.switchPath := p.ctl.disableVal] else p.files)
            && (capacity <= w.resume ==>
                  var ok := WriteOk(p.files, p.ctl.switchPath, p.ctl.enableVal, env.readable, env.first);
                  q.files == if ok then p.files[p.ctl.switchPath := p.ctl.enableVal] else p.files)
  {
  }

  // ---- three in a row ----

  /** The last n findings all are bad ones. */
  ghost predicate LastAre(findings: seq<bool>, n: nat, bad: bool)
  {
    |findings| >= n && forall i :: |findings| - n <= i < |findings| ==> findings[i] == bad
  }

  function Streak(findings: seq<bool>, bad: bool): nat
  {
    if findings == [] || findings[|findings| - 1] != bad then 0 else Streak(findings[..|findings| - 1], bad) + 1
  }

  lemma {:induction false} StreakIsLast(findings: seq<bool>, n: nat, bad: bool)
    ensures Streak(findings, bad) >= n <==> LastAre(findings, n, bad)
  {
    if n > 0 && findings != [] && findings[|findings| - 1] == bad {
      StreakIsLast(findings[..|findings| - 1], n - 1, bad);
      assert forall i :: 0 <= i < |findings| - 1 ==> findings[i] == findings[..|findings| - 1][i];
    }
  }

  /** The writes counted, in order. */
  function Writes(vs: seq<Verdict>): seq<bool>
  {
    if vs == [] then []
    else
      var last := vs[|vs| - 1].writeOk;
      Writes(vs[..|vs| - 1]) + if last.Some? then [last.value] else []
  }

  /** The checks for a strike, in order. */
  function Strikes(vs: seq<Verdict>): seq<bool>
  {
    if vs == [] then []
    else
      var last := vs[|vs| - 1].strike;
      Strikes(vs[..|vs| - 1]) + if last.Some? then [last.value] else []
  }

  /** The last three writes counted failed, or the last three checks for a strike were strikes. */
  ghost predicate Failing(vs: seq<Verdict>)
  {
    LastAre(Writes(vs), REPROBE_AFTER, false) || LastAre(Strikes(vs), EFFECTIVE_STRIKES, true)
  }

  predicate CountsAre(c: Counters, vs: seq<Verdict>)
  {
    c.writeFails == Streak(Writes(vs), false) && c.ineffective == Streak(Strikes(vs), true)
  }

  lemma StreakSnoc(s: seq<bool>, b: bool, bad: bool)
    ensures Streak(s + [b], bad) == if b == bad then Streak(s, bad) + 1 else 0
  {
    assert (s + [b])[..|s|] == s;
  }

  lemma OneMoreVerdict(vs: seq<Verdict>, v: Verdict)
    ensures Streak(Writes(vs + [v]), false) == Counted(Streak(Writes(vs), false), v.writeOk, false)
    ensures Streak(Strikes(vs + [v]), true) == Counted(Streak(Strikes(vs), true), v.strike, true)
  {
    assert (vs + [v])[..|vs|] == vs;
    assert Writes(vs) + [] == Writes(vs);
    assert Strikes(vs) + [] == Strikes(vs);
    if v.writeOk.Some? {
      StreakSnoc(Writes(vs), v.writeOk.value, false);
    }
    if v.strike.Some? {
      StreakSnoc(Strikes(vs), v.strike.value, true);
    }
  }

  lemma GivesUpIffFailing(c: Counters, vs: seq<Verdict>)
    requires CountsAre(c, vs)
    ensures GivesUp(c) <==> Failing(vs)
  {
    StreakIsLast(Writes(vs), REPROBE_AFTER, false);
    StreakIsLast(Strikes(vs), EFFECTIVE_STRIKES, true);
  }

  // ---- whole runs ----

  /** What the check of a tick found: of the node in use afterwards, on the files as they were. */
  function Found(l: Loop, l': Loop, last: TickInput): seq<Verdict>
    requires IsWindow(last.w)
  {
    if l'.ctl.None? then [] else [VerdictOf(last.w, l'.ctl.value, l.files, l.counts.lastCap, last.env)]
  }

  /** The verdicts since the node in use was chosen or last given up. */
  ghost function Since(cands: seq<Controller>, files: Files, ins: seq<TickInput>): seq<Verdict>
    requires ins != [] && GoodInputs(ins)
  {
    var last, l' := ins[|ins| - 1], LoopAfter(cands, files, ins);
    if |ins| == 1 then Found(Loop(None, NO_COUNTS, files, {}, 0, []), l', last)
    else
      var init := ins[..|ins| - 1];
      var l, vs := LoopAfter(cands, files, init), Since(cands, files, init);
      (if l.ctl.None? || Failing(vs) then [] else vs) + Found(l, l', last)
  }

  /** One check at the end of a tick, after verdicts the counters stand for. */
  lemma ActCountsVerdict(w: Window, l: Loop, env: Env, vs: seq<Verdict>)
    requires IsWindow(w) && CountsAre(l.counts, vs)
    ensures var l' := Act(w, l, env); CountsAre(l'.counts, vs + Found(l, l', TickInput(w, env)))
  {
    if l.ctl.Some? {
      CheckCountsVerdict(w, Plant(l.ctl.value, l.counts, l.files), env);
      OneMoreVerdict(vs, VerdictOf(w, l.ctl.value, l.files, l.counts.lastCap, env));
    } else {
      assert vs + [] == vs;
    }
  }

  /** One tick, after verdicts the counters stand for. */
  lemma TickCountsVerdict(cands: seq<Controller>, l: Loop, last: TickInput, vs: seq<Verdict>)
    requires IsWindow(last.w) && CountsAre(l.counts, vs) && (l.ctl.None? ==> l.counts == NO_COUNTS)
    ensures var l' := Tick(cands, last.w, l, last.env);
            && CountsAre(l'.counts, (if l.ctl.None? || Failing(vs) then [] else vs) + Found(l, l', last))
            && (l'.ctl.None? ==> l'.counts == NO_COUNTS)
  {
    GivesUpIffFailing(l.counts, vs);
    var l1 := Reselect(cands, l.(ticks := l.ticks + 1), last.env);
    var kept := if l.ctl.None? || Failing(vs) then [] else vs;
    assert CountsAre(l1.counts, kept) && l1.files == l.files && l1.counts.lastCap == l.counts.lastCap;
    ActCountsVerdict(last.w, l1, last.env, kept);
  }

  lemma StartCountsVerdict(cands: seq<Controller>, files: Files, first: TickInput)
    requires IsWindow(first.w)
    ensures var l0, l' := Loop(None, NO_COUNTS, files, {}, 0, []), Started(cands, first.w, files, first.env);
            CountsAre(l'.counts, Found(l0, l', first)) && (l'.ctl.None? ==> l'.counts == NO_COUNTS)
  {
    var l0 := Loop(None, NO_COUNTS, files, {}, 0, []);
    var l1 := Adopt(l0, Probe(cands, first.env.avail, {}, 0));
    ActCountsVerdict(first.w, l1, first.env, []);
    var found := Found(l0, Act(first.w, l1, first.env), first);
    assert [] + found == found;
  }

  /** In every run the two counters stand for the verdicts since the node in use was chosen or last given up. */
  lemma {:induction false} CountersStandForVerdicts(cands: seq<Controller>, files: Files, ins: seq<TickInput>)
    requires ins != [] && GoodInputs(ins)
    ensures var l := LoopAfter(cands, files, ins);
            && CountsAre(l.counts, Since(cands, files, ins))
            && (l.ctl.None? ==> l.counts == NO_COUNTS)
  {
    if |ins| == 1 {
      StartCountsVerdict(cands, files, ins[0]);
    } else {
      var init := ins[..|ins| - 1];
      CountersStandForVerdicts(cands, files, init);
      TickCountsVerdict(cands, LoopAfter(cands, files, init), ins[|ins| - 1], Since(cands, files, init));
    }
  }

  /** The first usable candidate is chosen if there is one; otherwise the choice stays as it was. */
  ghost predicate Chooses(cands: seq<Controller>, avail: set<nat>, bad: set<string>, l: Loop, l': Loop)
  {
    exists nc ::
      && IsFirstUsable(cands, avail, bad, nc)
      && NodeName(l') == (if nc.Some? then Some(nc.value.name) else NodeName(l))
      && l'.selected == l.selected + (if nc.Some? then [Selection(nc.value.name, l'.ticks)] else [])
  }

  function NodeName(l: Loop): Option<string> { if l.ctl.Some? then Some(l.ctl.value.name) else None }

  /**
    In every run a node is given up on a tick if and only if, since it was chosen or last given up, its last three
    counted writes failed or its last three strike checks were strikes. Then its label, and nothing else, goes on the
    bad list, and the first available candidate that is not on it takes over; on all other ticks the node stays.
   */
  lemma GivenUpIffFailing(cands: seq<Controller>, files: Files, ins: seq<TickInput>)
    requires |ins| > 1 && GoodInputs(ins)
    ensures var init, last := ins[..|ins| - 1], ins[|ins| - 1];
            var l, l' := LoopAfter(cands, files, init), LoopAfter(cands, files, ins);
            if l.ctl.None? then l'.bad == l.bad && Chooses(cands, last.env.avail, l.bad, l, l')
            else if Failing(Since(cands, files, init)) then
              l'.bad == l.bad + {l.ctl.value.name} && Chooses(cands, last.env.avail, l'.bad, l, l')
            else l'.bad == l.bad && NodeName(l') == NodeName(l) && l'.selected == l.selected
  {
    var init, last := ins[..|ins| - 1], ins[|ins| - 1];
    var l := LoopAfter(cands, files, init);
    CountersStandForVerdicts(cands, files, init);
    GivesUpIffFailing(l.counts, Since(cands, files, init));
    var l1 := Reselect(cands, l.(ticks := l.ticks + 1), last.env);
    ActKeepsNode(last.w, l1, last.env);
    ProbeIsFirst(cands, last.env.avail, l1.bad);
  }

  lemma ActKeepsNode(w: Window, l: Loop, env: Env)
    requires IsWindow(w)
    ensures var l' := Act(w, l, env);
            NodeName(l') == NodeName(l) && l'.bad == l.bad && l'.selected == l.selected && l'.ticks == l.ticks
  {
    if l.ctl.Some? {
      CheckCountsVerdict(w, Plant(l.ctl.value, l.counts, l.files), env);
    }
  }
}
