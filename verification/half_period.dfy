/**
 `await_half_sclk`: the polling wait that spaces the serial clock edges.
 Simulated time is abstracted as a tick counter: every `ClockCycles(clk, 1)`
 advances the time by one tick of `tickNs` nanoseconds.
 */
module HalfPeriod {

  /** Half a serial clock period in nanoseconds, `100*100*0.5`. */
  const HalfSclkNs: nat := 5000

  /** The reference clock period of the test bench, `Clock(dut.clk, 100, units="ns")`. */
  const TickNs: nat := 100

  /**
   Ticks one half-period wait takes: the least tick count whose elapsed time
   strictly exceeds the half period.
   */
  function HalfSclkTicks(tickNs: nat): (n: nat)
    requires tickNs > 0
    ensures n >= 1
    ensures (n - 1) * tickNs <= HalfSclkNs < n * tickNs
  {
    HalfSclkNs / tickNs + 1
  }

  /** At most one tick count brackets the half period. */
  lemma BracketUnique(a: nat, b: nat, tickNs: nat)
    requires a >= 1 && (a - 1) * tickNs <= HalfSclkNs < a * tickNs
    requires b >= 1 && (b - 1) * tickNs <= HalfSclkNs < b * tickNs
    ensures a == b
  {
    if a < b {
      MulMono(a, b - 1, tickNs);
    } else if b < a {
      MulMono(b, a - 1, tickNs);
    }
  }

  lemma MulMono(x: nat, y: nat, t: nat)
    requires x <= y
    ensures x * t <= y * t
  {
  }

  /**
   The polling loop: record `start`, then advance one tick at a time and stop
   at the first tick at which `start + 5000 < now`. Returns the time reached
   and the number of ticks spent.
   */
  method AwaitHalfSclk(start: nat, tickNs: nat) returns (now: nat, ticks: nat)
    requires tickNs > 0
    ensures ticks >= 1
    ensures now == start + ticks * tickNs
    ensures start + HalfSclkNs < now
    ensures start + (ticks - 1) * tickNs <= start + HalfSclkNs
    ensures ticks == HalfSclkTicks(tickNs)
  {
    now := start + tickNs;
    ticks := 1;
    while !(start + HalfSclkNs < now)
      invariant ticks >= 1
      invariant now == start + ticks * tickNs
      invariant (ticks - 1) * tickNs <= HalfSclkNs
      decreases start + HalfSclkNs - now
    {
      now := now + tickNs;
      ticks := ticks + 1;
    }
    BracketUnique(ticks, HalfSclkTicks(tickNs), tickNs);
  }

  /** With the bench's 100 ns reference clock a half period takes 51 ticks (5100 ns). */
  lemma HalfSclkAtBenchClock()
    ensures HalfSclkTicks(TickNs) == 51
    ensures HalfSclkTicks(TickNs) * TickNs == 5100
  {
  }
}
