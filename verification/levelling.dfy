/**
 `levelling` (called as `wait_for_level`): the two-phase bounded search for a
 level on bit 0 of `uo_out`. Simulated time is an absolute tick number; the
 sampled bit at every tick is given as a trace.
 */
module LevelSearch {
  import opened Bits
  import opened Wrappers

  /** Bit 0 of `uo_out` at each tick, `int(dut.uo_out.value) & 1`. */
  type Trace = nat -> Bit

  /**
   How a search ends, and the tick it ends at: the target level was reached,
   or one of the two `TestFailure` timeouts with the level the bit was stuck at.
   */
  datatype LevelOutcome =
    | Reached(at: nat)
    | PriorTimeout(stuck: Bit, at: nat)
    | TargetTimeout(stuck: Bit, at: nat)

  /** The first tick in `from+1 .. from+budget` at which `sample` shows `level`, if any. */
  function FirstHit(sample: Trace, from: nat, level: Bit, budget: nat): (r: Option<nat>)
    ensures r.Some? ==> from < r.value <= from + budget && sample(r.value) == level
    ensures r.Some? ==> forall t :: from < t < r.value ==> sample(t) != level
    ensures r.None? <==> forall t :: from < t <= from + budget ==> sample(t) != level
    decreases budget
  {
    if budget == 0 then None
    else match FirstHit(sample, from, level, budget - 1)
      case Some(t) => Some(t)
      case None => if sample(from + budget) == level then Some(from + budget) else None
  }

  /**
   `levelling(dut, prev_level, desired_level, max_cycles)` started at tick `t0`.
   Phase 1 advances up to `max_cycles` ticks until the bit equals `prev_level`;
   phase 2 then advances up to `max_cycles` further ticks until it equals
   `desired_level` and returns that tick. Phase 2 always advances at least one
   tick, even when the two levels are equal. The tick returned is the first
   at the desired level after the phase-1 match, and phase 2 times out
   exactly when there is none within its budget.
   */
  function Levelling(sample: Trace, t0: nat, prev: Bit, desired: Bit, maxCycles: nat): (r: LevelOutcome)
    ensures r.PriorTimeout? <==> forall t :: t0 < t <= t0 + maxCycles ==> sample(t) != prev
    ensures r.PriorTimeout? ==> r.at == t0 + maxCycles && r.stuck == sample(t0 + maxCycles)
    ensures r.Reached? ==> t0 + 2 <= r.at <= t0 + 2 * maxCycles && sample(r.at) == desired
    ensures r.TargetTimeout? ==> t0 + 1 + maxCycles <= r.at <= t0 + 2 * maxCycles
    ensures r.TargetTimeout? ==> r.stuck == sample(r.at) && r.stuck != desired
    ensures var h := FirstHit(sample, t0, prev, maxCycles);
      r.Reached? ==> (h.Some? && h.value < r.at <= h.value + maxCycles
                      && forall t :: h.value < t < r.at ==> sample(t) != desired)
    ensures var h := FirstHit(sample, t0, prev, maxCycles);
      r.TargetTimeout? <==> h.Some? && forall t :: h.value < t <= h.value + maxCycles ==> sample(t) != desired
    ensures var h := FirstHit(sample, t0, prev, maxCycles);
      r.TargetTimeout? ==> r.at == h.value + maxCycles
  {
    match FirstHit(sample, t0, prev, maxCycles)
    case None => PriorTimeout(sample(t0 + maxCycles), t0 + maxCycles)
    case Some(t1) =>
      match FirstHit(sample, t1, desired, maxCycles)
      case None => TargetTimeout(sample(t1 + maxCycles), t1 + maxCycles)
      case Some(t2) => Reached(t2)
  }

  /**
   The polling loops of `levelling`, one tick per iteration: a `for ... else`
   for phase 1 and a `for` with an early return for phase 2.
   */
  method WaitForLevel(sample: Trace, t0: nat, prev: Bit, desired: Bit, maxCycles: nat) returns (r: LevelOutcome)
    ensures r == Levelling(sample, t0, prev, desired, maxCycles)
  {
    var now := t0;
    var i := 0;
    var hit := false;
    while i < maxCycles && !hit
      invariant 0 <= i <= maxCycles && now == t0 + i
      invariant hit ==> i >= 1 && sample(now) == prev
      invariant forall t :: t0 < t < now ==> sample(t) != prev
      invariant !hit ==> forall t :: t0 < t <= now ==> sample(t) != prev
    {
      now := now + 1;
      i := i + 1;
      hit := sample(now) == prev;
    }
    if !hit {
      return PriorTimeout(sample(now), now);
    }
    var t1 := now;
    i := 0;
    while i < maxCycles
      invariant 0 <= i <= maxCycles && now == t1 + i
      invariant forall t :: t1 < t <= now ==> sample(t) != desired
    {
      now := now + 1;
      i := i + 1;
      if sample(now) == desired {
        return Reached(now);
      }
    }
    return TargetTimeout(sample(now), now);
  }

  /** A rising (or falling) edge: the bit is `from` at tick `t - 1` and `to` at tick `t`. */
  predicate EdgeAt(sample: Trace, t: nat, from: Bit, to: Bit)
    requires t >= 1
  {
    sample(t - 1) == from && sample(t) == to
  }

  /**
   When the two levels differ, the tick returned is an edge from `prev_level`
   to `desired_level`, and the first such edge after tick `t0 + 1`: the
   settle phase keeps a signal already at the target from reporting a false,
   immediate edge.
   */
  lemma ReachedIsFirstEdge(sample: Trace, t0: nat, prev: Bit, desired: Bit, maxCycles: nat)
    requires prev != desired
    requires Levelling(sample, t0, prev, desired, maxCycles).Reached?
    ensures var at := Levelling(sample, t0, prev, desired, maxCycles).at;
      && EdgeAt(sample, at, prev, desired)
      && forall t :: t0 + 1 < t < at ==> !EdgeAt(sample, t, prev, desired)
  {
    var t1 := FirstHit(sample, t0, prev, maxCycles).value;
    var at := FirstHit(sample, t1, desired, maxCycles).value;
    forall t | t0 + 1 < t < at
      ensures !EdgeAt(sample, t, prev, desired)
    {
      if t <= t1 {
        assert sample(t - 1) != prev;
      } else {
        assert sample(t) != desired;
      }
    }
    if at - 1 > t1 {
      assert sample(at - 1) != desired;
    }
  }

  /**
   An edge from `prev_level` to `desired_level` that lies within the budget is
   found: the search reaches its target no later than that edge.
   */
  lemma EdgeWithinBudgetIsFound(sample: Trace, t0: nat, prev: Bit, desired: Bit, maxCycles: nat, e: nat)
    requires t0 + 1 < e <= t0 + maxCycles + 1
    requires EdgeAt(sample, e, prev, desired)
    ensures Levelling(sample, t0, prev, desired, maxCycles).Reached?
    ensures Levelling(sample, t0, prev, desired, maxCycles).at <= e
  {
    var h1 := FirstHit(sample, t0, prev, maxCycles);
    assert h1.Some? by {
      assert t0 < e - 1 <= t0 + maxCycles && sample(e - 1) == prev;
    }
    var t1 := h1.value;
    assert t1 <= e - 1;
    var h2 := FirstHit(sample, t1, desired, maxCycles);
    assert h2.Some? by {
      assert t1 < e <= t1 + maxCycles && sample(e) == desired;
    }
  }

  /**
   On a bit that never moves, the search fails after exactly `max_cycles`
   ticks when the bit is not at `prev_level`, fails in phase 2 when it is at
   `prev_level` but not at `desired_level`, and otherwise succeeds two ticks in.
   */
  lemma ConstantSignal(sample: Trace, t0: nat, prev: Bit, desired: Bit, maxCycles: nat, c: Bit)
    requires maxCycles >= 1
    requires forall t :: sample(t) == c
    ensures c != prev ==> Levelling(sample, t0, prev, desired, maxCycles) == PriorTimeout(c, t0 + maxCycles)
    ensures c == prev && c != desired ==>
      Levelling(sample, t0, prev, desired, maxCycles) == TargetTimeout(c, t0 + 1 + maxCycles)
    ensures c == prev && c == desired ==> Levelling(sample, t0, prev, desired, maxCycles) == Reached(t0 + 2)
  {
    if c == prev {
      assert sample(t0 + 1) == prev;
      assert FirstHit(sample, t0, prev, maxCycles).value == t0 + 1;
      if c == desired {
        assert sample(t0 + 2) == desired;
        assert FirstHit(sample, t0 + 1, desired, maxCycles).value == t0 + 2;
      }
    }
  }
}
