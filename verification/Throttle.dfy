/** The rate-limit gate: a doubling, capped cooldown shared by concurrent requests. Times are in nanoseconds. */
module Throttle {
  const SECOND: int := 1_000_000_000
  const RATE_BASE: int := 4 * SECOND
  const RATE_MAX: int := 20 * SECOND

  /** A deadline of zero is the unset time. */
  datatype Gate = Gate(until: int, backoff: int)

  const OPEN_GATE: Gate := Gate(0, 0)

  datatype Step = Limited(now: int) | Succeeded(now: int)

  function Doubled(backoff: int): int
  {
    if backoff == 0 then RATE_BASE else if backoff * 2 > RATE_MAX then RATE_MAX else backoff * 2
  }

  predicate Active(g: Gate, now: int) { g.until > now }

  function Apply(g: Gate, s: Step): Gate
  {
    match s
    case Limited(now) => Gate(now + Doubled(g.backoff), Doubled(g.backoff))
    case Succeeded(now) => if Active(g, now) then g else Gate(0, RATE_BASE)
  }

  function ApplyAll(g: Gate, steps: seq<Step>): Gate
  {
    if steps == [] then g else Apply(ApplyAll(g, steps[..|steps| - 1]), steps[|steps| - 1])
  }

  class RateGate {
    var until: int
    var backoff: int

    function Value(): Gate
      reads this
    {
      Gate(until, backoff)
    }

    constructor ()
      ensures Value() == OPEN_GATE
    {
      until, backoff := 0, 0;
    }

    method NoteRateLimit(now: int)
      modifies this
      ensures Value() == Apply(old(Value()), Limited(now))
      ensures until == now + backoff
      ensures backoff == if old(backoff) == 0 then RATE_BASE
                         else if 2 * old(backoff) > RATE_MAX then RATE_MAX else 2 * old(backoff)
    {
      if backoff == 0 {
        backoff := RATE_BASE;
      } else {
        backoff := backoff * 2;
        if backoff > RATE_MAX {
          backoff := RATE_MAX;
        }
      }
      until := now + backoff;
    }

    method ClearRateLimit(now: int)
      modifies this
      ensures Value() == Apply(old(Value()), Succeeded(now))
      ensures Value() == if old(until) > now then old(Value()) else Gate(0, RATE_BASE)
    {
      if until > now {
        return;
      }
      until, backoff := 0, RATE_BASE;
    }

    method TakeStep(s: Step)
      modifies this
      ensures Value() == Apply(old(Value()), s)
    {
      match s
      case Limited(now) => NoteRateLimit(now);
      case Succeeded(now) => ClearRateLimit(now);
    }

    /**
      Waits for the gate. Each sleep is given by what other requests do meanwhile and by the wake-up time; the wait
      ends the first time it wakes to no active cooldown, however the cooldown was extended in between.
     */
    method WaitRateGate(now: int, sleeps: seq<(seq<Step>, int)>) returns (passed: bool, at: int, ghost n: nat)
      modifies this
      ensures n <= |sleeps|
      ensures at == WokeAt(now, sleeps, n)
      ensures forall k :: 0 <= k < n ==> Active(AfterSleeps(old(Value()), sleeps[..k]), WokeAt(now, sleeps, k))
      ensures Value() == AfterSleeps(old(Value()), sleeps[..n])
      ensures passed <==> !Active(Value(), at)
      ensures !passed ==> n == |sleeps|
    {
      at, n := now, 0;
      var i := 0;
      while until > at && i < |sleeps|
        invariant 0 <= i <= |sleeps| && n == i
        invariant at == WokeAt(now, sleeps, i)
        invariant forall k :: 0 <= k < i ==> Active(AfterSleeps(old(Value()), sleeps[..k]), WokeAt(now, sleeps, k))
        invariant Value() == AfterSleeps(old(Value()), sleeps[..i])
        decreases |sleeps| - i
      {
        var steps := sleeps[i].0;
        ghost var before := Value();
        assert sleeps[..i + 1][..i] == sleeps[..i];
        for j := 0 to |steps|
          invariant Value() == ApplyAll(before, steps[..j])
        {
          assert steps[..j + 1][..j] == steps[..j];
          TakeStep(steps[j]);
        }
        assert steps[..|steps|] == steps;
        at := sleeps[i].1;
        i, n := i + 1, n + 1;
      }
      passed := until <= at;
    }
  }

  /** The time after n sleeps. */
  function WokeAt(now: int, sleeps: seq<(seq<Step>, int)>, n: nat): int
    requires n <= |sleeps|
  {
    if n == 0 then now else sleeps[n - 1].1
  }

  function AfterSleeps(g: Gate, sleeps: seq<(seq<Step>, int)>): Gate
  {
    if sleeps == [] then g
    else ApplyAll(AfterSleeps(g, sleeps[..|sleeps| - 1]), sleeps[|sleeps| - 1].0)
  }

  // ---- every interleaving ----

  ghost predicate Monotone(steps: seq<Step>)
  {
    && (forall i :: 0 <= i < |steps| ==> steps[i].now > 0)
    && forall i, j :: 0 <= i < j < |steps| ==> steps[i].now <= steps[j].now
  }

  /**
    What a history of hits and successes amounts to: how often the limit was hit since the last reset, whether there
    was a reset, and the last hit since. A success resets when the cooldown of that hit is over.
   */
  datatype History = History(hits: nat, wasReset: bool, lastHit: int)

  function Recall(steps: seq<Step>): History
  {
    if steps == [] then History(0, false, 0)
    else
      var h := Recall(steps[..|steps| - 1]);
      match steps[|steps| - 1]
      case Limited(now) => History(h.hits + 1, h.wasReset, now)
      case Succeeded(now) => if h.hits > 0 && now < h.lastHit + CooldownOf(h) then h else History(0, true, 0)
  }

  /** 4, 8, 16, 20, 20, ... seconds. */
  function Cooldown(n: nat): int
  {
    if n == 0 then 4 * SECOND else if n == 1 then 8 * SECOND else if n == 2 then 16 * SECOND else 20 * SECOND
  }

  /** The first reset skips the 4-second rung from then on. */
  function CooldownOf(h: History): int
  {
    if h.wasReset then Cooldown(h.hits) else if h.hits == 0 then 0 else Cooldown(h.hits - 1)
  }

  /**
    In every interleaving the cooldown is a function of the hit count alone, and the deadline is the last hit since
    the reset plus that cooldown; without such a hit there is none.
   */
  lemma {:induction false} BackoffSequence(steps: seq<Step>)
    requires Monotone(steps)
    ensures var h, g := Recall(steps), ApplyAll(OPEN_GATE, steps);
            g.backoff == CooldownOf(h) && g.until == if h.hits > 0 then h.lastHit + CooldownOf(h) else 0
    ensures ApplyAll(OPEN_GATE, steps).backoff == 0 <==> steps == []
  {
    if steps != [] {
      var init := steps[..|steps| - 1];
      assert Monotone(init);
      BackoffSequence(init);
      assert init == [] ==> ApplyAll(OPEN_GATE, init) == OPEN_GATE;
    }
  }

  /** A hit closes the gate at once, for exactly the cooldown it leads to. */
  lemma HitClosesGate(steps: seq<Step>, t: int)
    requires Monotone(steps + [Limited(t)])
    ensures var all := steps + [Limited(t)]; var g := ApplyAll(OPEN_GATE, all);
            && g.backoff == CooldownOf(Recall(all)) >= RATE_BASE
            && forall now :: Active(g, now) <==> now < t + g.backoff
  {
    var all := steps + [Limited(t)];
    assert all[..|all| - 1] == steps;
    BackoffSequence(all);
  }

  /** Between resets the gate is closed at exactly the times before the last hit plus its cooldown. */
  lemma ClosedUntilCooldownIsOver(steps: seq<Step>, now: int)
    requires Monotone(steps) && now > 0
    ensures var h := Recall(steps);
            Active(ApplyAll(OPEN_GATE, steps), now) <==> h.hits > 0 && now < h.lastHit + CooldownOf(h)
  {
    BackoffSequence(steps);
  }

  /** Whatever happens after a hit, the gate is not open again before the hit's cooldown is over. */
  lemma {:induction false} NotOpenBefore(steps: seq<Step>, t: int, more: seq<Step>, at: int)
    requires Monotone(steps + [Limited(t)] + more)
    requires t <= at && forall s <- more :: s.now <= at
    requires !Active(ApplyAll(OPEN_GATE, steps + [Limited(t)] + more), at)
    ensures at >= t + ApplyAll(OPEN_GATE, steps + [Limited(t)]).backoff
  {
    var hit := steps + [Limited(t)];
    if more == [] {
      assert hit + more == hit;
      HitClosesGate(steps, t);
    } else {
      var init, last := more[..|more| - 1], more[|more| - 1];
      var before := hit + init;
      assert hit + more == before + [last];
      PrefixIsMonotone(before, last);
      if Active(ApplyAll(OPEN_GATE, before), last.now) {
        DeadlineNeverMovesEarlier(before, last);
        assert !Active(ApplyAll(OPEN_GATE, before), at);
        NotOpenBefore(steps, t, init, at);
      } else {
        assert t <= last.now by {
          assert (before + [last])[|steps|] == Limited(t) && (before + [last])[|before|] == last;
        }
        assert forall s <- init :: s.now <= last.now by {
          AllBeforeLast(before, last);
          assert forall s <- init :: s in before;
        }
        NotOpenBefore(steps, t, init, last.now);
      }
    }
  }

  lemma PrefixIsMonotone(before: seq<Step>, last: Step)
    requires Monotone(before + [last])
    ensures Monotone(before)
  {
    assert forall i :: 0 <= i < |before| ==> (before + [last])[i] == before[i];
  }

  lemma AllBeforeLast(before: seq<Step>, last: Step)
    requires Monotone(before + [last])
    ensures forall s <- before :: s.now <= last.now
  {
    var all := before + [last];
    assert all[|before|] == last;
    assert forall i :: 0 <= i < |before| ==> all[i] == before[i];
  }

  /** The steps other requests make during some sleeps. */
  function DuringSleeps(sleeps: seq<(seq<Step>, int)>): seq<Step>
  {
    if sleeps == [] then [] else DuringSleeps(sleeps[..|sleeps| - 1]) + sleeps[|sleeps| - 1].0
  }

  lemma {:induction false} ApplyAllAppends(g: Gate, a: seq<Step>, b: seq<Step>)
    ensures ApplyAll(ApplyAll(g, a), b) == ApplyAll(g, a + b)
  {
    if b == [] {
      assert a + b == a;
    } else {
      ApplyAllAppends(g, a, b[..|b| - 1]);
      assert (a + b)[..|a + b| - 1] == a + b[..|b| - 1];
    }
  }

  lemma {:induction false} SleepsAreSteps(g: Gate, sleeps: seq<(seq<Step>, int)>)
    ensures AfterSleeps(g, sleeps) == ApplyAll(g, DuringSleeps(sleeps))
  {
    if sleeps != [] {
      SleepsAreSteps(g, sleeps[..|sleeps| - 1]);
      ApplyAllAppends(g, DuringSleeps(sleeps[..|sleeps| - 1]), sleeps[|sleeps| - 1].0);
    }
  }

  /** A request that enters the gate after a hit passes no earlier than the end of that hit's cooldown. */
  method WaitAfterHit(gate: RateGate, ghost steps: seq<Step>, t: int, now: int, sleeps: seq<(seq<Step>, int)>)
    returns (passed: bool, at: int, ghost n: nat)
    requires gate.Value() == ApplyAll(OPEN_GATE, steps)
    requires t <= now
    modifies gate
    ensures n <= |sleeps| && at == WokeAt(now, sleeps, n)
    ensures passed && OnTime(steps + [Limited(t)] + DuringSleeps(sleeps[..n]), t, at) ==>
              at >= t + ApplyAll(OPEN_GATE, steps + [Limited(t)]).backoff
  {
    gate.NoteRateLimit(t);
    ghost var hit := steps + [Limited(t)];
    assert hit[..|hit| - 1] == steps;
    passed, at, n := gate.WaitRateGate(now, sleeps);
    SleepsAreSteps(ApplyAll(OPEN_GATE, hit), sleeps[..n]);
    ApplyAllAppends(OPEN_GATE, hit, DuringSleeps(sleeps[..n]));
    if passed && OnTime(hit + DuringSleeps(sleeps[..n]), t, at) {
      assert forall s <- DuringSleeps(sleeps[..n]) :: s in hit + DuringSleeps(sleeps[..n]);
      NotOpenBefore(steps, t, DuringSleeps(sleeps[..n]), at);
    }
  }

  /** The clock is monotone through the wake-up time. */
  ghost predicate OnTime(steps: seq<Step>, t: int, at: int)
  {
    Monotone(steps) && t <= at && forall s <- steps :: s.now <= at
  }

  lemma {:induction false} DeadlineBound(steps: seq<Step>)
    requires Monotone(steps)
    ensures var g := ApplyAll(OPEN_GATE, steps);
            0 <= g.backoff <= RATE_MAX && g.until <= g.backoff + if steps == [] then 0 else steps[|steps| - 1].now
  {
    if steps != [] {
      var init := steps[..|steps| - 1];
      assert Monotone(init);
      DeadlineBound(init);
    }
  }

  /** Under a monotone clock no step ever moves a deadline that is still in force to an earlier time. */
  lemma DeadlineNeverMovesEarlier(steps: seq<Step>, next: Step)
    requires Monotone(steps + [next])
    requires Active(ApplyAll(OPEN_GATE, steps), next.now)
    ensures ApplyAll(OPEN_GATE, steps + [next]).until >= ApplyAll(OPEN_GATE, steps).until
  {
    var all := steps + [next];
    assert all[..|all| - 1] == steps;
    assert forall i :: 0 <= i < |steps| ==> steps[i] == all[i];
    DeadlineBound(steps);
  }
}
