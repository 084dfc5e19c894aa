/**
 The waveform arithmetic of `test_pwm_freq_1khz` and `test_pwm_duty_25_75`:
 edge times come from successive level searches, and period, high time,
 duty cycle and frequency are computed from them. Python's float division is
 modelled as exact division of reals.
 */
module Metrics {
  import opened Wrappers
  import opened LevelSearch
  import opened HalfPeriod

  /** Dividing by a period of zero raises `ZeroDivisionError`. */
  datatype MetricsError = ZeroDivision

  /** `get_sim_time("ns")` at tick `t` of the bench's reference clock. */
  function SimTimeNs(t: nat): nat
  {
    t * TickNs
  }

  /** `100 * high_ns / period_ns` with `high_ns = pf - p1` and `period_ns = p2 - p1`. */
  function Duty(p1: int, pf: int, p2: int): (r: Result<real, MetricsError>)
    ensures r.Err? <==> p1 == p2
    ensures r.Ok? ==> r.value * (p2 - p1) as real == (100 * (pf - p1)) as real
  {
    var high := pf - p1;
    var period := p2 - p1;
    if period == 0 then Err(ZeroDivision) else Ok((100 * high) as real / period as real)
  }

  /** `1e9 / period_ns` with `period_ns = r2 - r1`. */
  function Frequency(r1: int, r2: int): (r: Result<real, MetricsError>)
    ensures r.Err? <==> r1 == r2
    ensures r.Ok? ==> r.value * (r2 - r1) as real == 1000000000.0
  {
    var period := r2 - r1;
    if period == 0 then Err(ZeroDivision) else Ok(1000000000.0 / period as real)
  }

  /** The assertion `lo <= duty <= hi`. */
  function DutyCheck(p1: int, pf: int, p2: int, lo: int, hi: int): Result<bool, MetricsError>
  {
    match Duty(p1, pf, p2)
    case Err(e) => Err(e)
    case Ok(d) => Ok(lo as real <= d <= hi as real)
  }

  /** The assertion `990 <= freq_hz <= 1010`. */
  function FrequencyCheck(r1: int, r2: int): Result<bool, MetricsError>
  {
    match Frequency(r1, r2)
    case Err(e) => Err(e)
    case Ok(f) => Ok(990.0 <= f <= 1010.0)
  }

  /** Comparing a quotient `q = x / p` with a bound is comparing `x` with the bound times `p`. */
  lemma QuotientBounds(x: real, p: real, q: real, c: real)
    requires p > 0.0 && q * p == x
    ensures c <= q <==> c * p <= x
    ensures q <= c <==> x <= c * p
  {
    if c <= q {
      assert c * p <= q * p;
    } else {
      assert c * p > q * p;
    }
  }

  /**
   For edges in order (`p1 < p2`) the duty check is the exact integer
   inequality `lo * period <= 100 * high <= hi * period`.
   */
  lemma DutyCheckIntegral(p1: int, pf: int, p2: int, lo: int, hi: int)
    requires p1 < p2
    ensures DutyCheck(p1, pf, p2, lo, hi) == Ok(lo * (p2 - p1) <= 100 * (pf - p1) <= hi * (p2 - p1))
  {
    var d := Duty(p1, pf, p2).value;
    var p := (p2 - p1) as real;
    var x := (100 * (pf - p1)) as real;
    QuotientBounds(x, p, d, lo as real);
    QuotientBounds(x, p, d, hi as real);
  }

  /**
   For rising edges in order (`r1 < r2`) the frequency check is the exact
   integer inequality `990 * period <= 10^9 <= 1010 * period`.
   */
  lemma FrequencyCheckIntegral(r1: int, r2: int)
    requires r1 < r2
    ensures FrequencyCheck(r1, r2) == Ok(990 * (r2 - r1) <= 1000000000 <= 1010 * (r2 - r1))
  {
    var f := Frequency(r1, r2).value;
    var p := (r2 - r1) as real;
    QuotientBounds(1000000000.0, p, f, 990.0);
    QuotientBounds(1000000000.0, p, f, 1010.0);
  }

  /** Three edge times in order give a positive period and a duty strictly between 0 and 100. */
  lemma DutyStrictlyBetween(p1: int, pf: int, p2: int)
    requires p1 < pf < p2
    ensures Duty(p1, pf, p2).Ok?
    ensures 0.0 < Duty(p1, pf, p2).value < 100.0
  {
    var d := Duty(p1, pf, p2).value;
    QuotientBounds((100 * (pf - p1)) as real, (p2 - p1) as real, d, 0.0);
    QuotientBounds((100 * (pf - p1)) as real, (p2 - p1) as real, d, 100.0);
  }

  /**
   The bench's expectations on worked numbers: edges at 0, 250000 and
   1000000 ns give a 25% duty, which passes `24 <= duty <= 26`; rising edges
   1000000 ns apart give 1000 Hz, which passes `990 <= freq_hz <= 1010`.
   */
  lemma WorkedNumbers()
    ensures Duty(0, 250000, 1000000) == Ok(25.0)
    ensures DutyCheck(0, 250000, 1000000, 24, 26) == Ok(true)
    ensures Frequency(0, 1000000) == Ok(1000.0)
    ensures FrequencyCheck(0, 1000000) == Ok(true)
  {
    DutyCheckIntegral(0, 250000, 1000000, 24, 26);
    FrequencyCheckIntegral(0, 1000000);
  }

  /**
   `test_pwm_freq_1khz`: two successive searches for a rising edge, the second
   starting where the first returned. Gives the two edge times in ns, or the
   outcome of the search that timed out.
   */
  function MeasurePeriod(sample: Trace, t0: nat, maxCycles: nat): (r: Result<(nat, nat), LevelOutcome>)
    ensures r.Ok? ==> r.value.0 < r.value.1
    ensures var first := Levelling(sample, t0, 0, 1, maxCycles);
      r.Ok? ==> r.value == (SimTimeNs(first.at), SimTimeNs(Levelling(sample, first.at, 0, 1, maxCycles).at))
    ensures var first := Levelling(sample, t0, 0, 1, maxCycles);
      r.Ok? <==> first.Reached? && Levelling(sample, first.at, 0, 1, maxCycles).Reached?
    ensures var first := Levelling(sample, t0, 0, 1, maxCycles);
      !first.Reached? ==> r == Err(first)
    ensures var first := Levelling(sample, t0, 0, 1, maxCycles);
      first.Reached? && !Levelling(sample, first.at, 0, 1, maxCycles).Reached? ==>
        r == Err(Levelling(sample, first.at, 0, 1, maxCycles))
  {
    var first := Levelling(sample, t0, 0, 1, maxCycles);
    if !first.Reached? then Err(first)
    else
      var other := Levelling(sample, first.at, 0, 1, maxCycles);
      if !other.Reached? then Err(other)
      else Ok((SimTimeNs(first.at), SimTimeNs(other.at)))
  }

  /**
   `test_pwm_duty_25_75`: a rising edge, then a falling edge, then a rising
   edge, each search starting where the previous one returned.
   */
  function MeasureDuty(sample: Trace, t0: nat, maxCycles: nat): (r: Result<(nat, nat, nat), LevelOutcome>)
    ensures r.Ok? ==> r.value.0 < r.value.1 < r.value.2
    ensures var rise := Levelling(sample, t0, 0, 1, maxCycles);
      var fall := Levelling(sample, rise.at, 1, 0, maxCycles);
      r.Ok? ==> r.value == (SimTimeNs(rise.at), SimTimeNs(fall.at), SimTimeNs(Levelling(sample, fall.at, 0, 1, maxCycles).at))
    ensures var rise := Levelling(sample, t0, 0, 1, maxCycles);
      var fall := Levelling(sample, rise.at, 1, 0, maxCycles);
      r.Ok? <==> rise.Reached? && fall.Reached? && Levelling(sample, fall.at, 0, 1, maxCycles).Reached?
    ensures var rise := Levelling(sample, t0, 0, 1, maxCycles);
      !rise.Reached? ==> r == Err(rise)
    ensures var rise := Levelling(sample, t0, 0, 1, maxCycles);
      var fall := Levelling(sample, rise.at, 1, 0, maxCycles);
      rise.Reached? && !fall.Reached? ==> r == Err(fall)
    ensures var rise := Levelling(sample, t0, 0, 1, maxCycles);
      var fall := Levelling(sample, rise.at, 1, 0, maxCycles);
      rise.Reached? && fall.Reached? && !Levelling(sample, fall.at, 0, 1, maxCycles).Reached? ==>
        r == Err(Levelling(sample, fall.at, 0, 1, maxCycles))
  {
    var p1 := Levelling(sample, t0, 0, 1, maxCycles);
    if !p1.Reached? then Err(p1)
    else
      var pf := Levelling(sample, p1.at, 1, 0, maxCycles);
      if !pf.Reached? then Err(pf)
      else
        var p2 := Levelling(sample, pf.at, 0, 1, maxCycles);
        if !p2.Reached? then Err(p2)
        else Ok((SimTimeNs(p1.at), SimTimeNs(pf.at), SimTimeNs(p2.at)))
  }

  /**
   A successful frequency measurement spans two consecutive rising edges of
   the PWM bit: both times are rising edges and none lies between them. Its
   frequency never divides by zero.
   */
  lemma PeriodIsConsecutiveRisingEdges(sample: Trace, t0: nat, maxCycles: nat)
    requires MeasurePeriod(sample, t0, maxCycles).Ok?
    ensures var a1 := Levelling(sample, t0, 0, 1, maxCycles).at;
      var a2 := Levelling(sample, a1, 0, 1, maxCycles).at;
      && MeasurePeriod(sample, t0, maxCycles).value == (SimTimeNs(a1), SimTimeNs(a2))
      && EdgeAt(sample, a1, 0, 1) && EdgeAt(sample, a2, 0, 1)
      && (forall t :: a1 < t < a2 ==> !EdgeAt(sample, t, 0, 1))
      && Frequency(SimTimeNs(a1), SimTimeNs(a2)).Ok?
  {
    var first := Levelling(sample, t0, 0, 1, maxCycles);
    var a1 := first.at;
    var other := Levelling(sample, a1, 0, 1, maxCycles);
    assert first.Reached? && other.Reached?;
    var a2 := other.at;
    ReachedIsFirstEdge(sample, t0, 0, 1, maxCycles);
    ReachedIsFirstEdge(sample, a1, 0, 1, maxCycles);
    forall t | a1 < t < a2
      ensures !EdgeAt(sample, t, 0, 1)
    {
      if t == a1 + 1 {
        assert sample(t - 1) == 1;
      }
    }
  }

  /**
   A successful duty measurement returns a rising, a falling and a rising edge
   in order, so the period is positive and the duty lies strictly between 0
   and 100 percent.
   */
  lemma DutyMeasurementWellFormed(sample: Trace, t0: nat, maxCycles: nat)
    requires MeasureDuty(sample, t0, maxCycles).Ok?
    ensures var (p1, pf, p2) := MeasureDuty(sample, t0, maxCycles).value;
      && p2 - p1 > 0
      && Duty(p1, pf, p2).Ok?
      && 0.0 < Duty(p1, pf, p2).value < 100.0
    ensures var a1 := Levelling(sample, t0, 0, 1, maxCycles).at;
      var af := Levelling(sample, a1, 1, 0, maxCycles).at;
      var a2 := Levelling(sample, af, 0, 1, maxCycles).at;
      && MeasureDuty(sample, t0, maxCycles).value == (SimTimeNs(a1), SimTimeNs(af), SimTimeNs(a2))
      && EdgeAt(sample, a1, 0, 1) && EdgeAt(sample, af, 1, 0) && EdgeAt(sample, a2, 0, 1)
  {
    var (p1, pf, p2) := MeasureDuty(sample, t0, maxCycles).value;
    DutyStrictlyBetween(p1, pf, p2);
    var a1 := Levelling(sample, t0, 0, 1, maxCycles).at;
    var af := Levelling(sample, a1, 1, 0, maxCycles).at;
    ReachedIsFirstEdge(sample, t0, 0, 1, maxCycles);
    ReachedIsFirstEdge(sample, a1, 1, 0, maxCycles);
    ReachedIsFirstEdge(sample, af, 0, 1, maxCycles);
  }

  /**
   Two rising edges within the first `max_cycles + 1` ticks after the start
   are enough for the frequency measurement to succeed, and its first time is
   no later than the first of them.
   */
  lemma PeriodFoundWithinBudget(sample: Trace, t0: nat, maxCycles: nat, e1: nat, e2: nat)
    requires t0 + 1 < e1 < e2 <= t0 + maxCycles + 1
    requires EdgeAt(sample, e1, 0, 1) && EdgeAt(sample, e2, 0, 1)
    ensures MeasurePeriod(sample, t0, maxCycles).Ok?
    ensures MeasurePeriod(sample, t0, maxCycles).value.0 <= SimTimeNs(e1)
  {
    EdgeWithinBudgetIsFound(sample, t0, 0, 1, maxCycles, e1);
    ReachedIsFirstEdge(sample, t0, 0, 1, maxCycles);
    var a1 := Levelling(sample, t0, 0, 1, maxCycles).at;
    if a1 < e1 {
      assert sample(e1 - 1) != sample(a1);
      EdgeWithinBudgetIsFound(sample, a1, 0, 1, maxCycles, e1);
    } else {
      assert sample(e2 - 1) != sample(a1);
      EdgeWithinBudgetIsFound(sample, a1, 0, 1, maxCycles, e2);
    }
  }

  /**
   A rise, a fall and a rise within the first `max_cycles + 1` ticks after the
   start, each level held for at least two ticks, are enough for the duty
   measurement to succeed. A level held for one tick only can be missed: the
   next search starts on the tick just after the edge it follows.
   */
  lemma DutyFoundWithinBudget(sample: Trace, t0: nat, maxCycles: nat, e1: nat, ef: nat, e2: nat)
    requires t0 + 1 < e1 && e1 + 1 < ef && ef + 1 < e2 <= t0 + maxCycles + 1
    requires EdgeAt(sample, e1, 0, 1) && EdgeAt(sample, ef, 1, 0) && EdgeAt(sample, e2, 0, 1)
    ensures MeasureDuty(sample, t0, maxCycles).Ok?
  {
    EdgeWithinBudgetIsFound(sample, t0, 0, 1, maxCycles, e1);
    ReachedIsFirstEdge(sample, t0, 0, 1, maxCycles);
    var a1 := Levelling(sample, t0, 0, 1, maxCycles).at;
    EdgeWithinBudgetIsFound(sample, a1, 1, 0, maxCycles, ef);
    var af := Levelling(sample, a1, 1, 0, maxCycles).at;
    EdgeWithinBudgetIsFound(sample, af, 0, 1, maxCycles, e2);
  }
}
