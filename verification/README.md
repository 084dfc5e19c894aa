# SPI driver and PWM waveform checks of the uwasic-onboarding test bench

This project models, in Dafny, the protocol and timing logic of the cocotb
test bench `test/test.py`. The bench drives a Tiny Tapeout design through a
bit-banged SPI interface on its `ui_in` pins and measures the PWM waveform on
bit 0 of `uo_out`. The model has five parts:

- **Bit helpers** (`bits.dfy`, module `Bits`): the Python integer operations
  the bench uses (`>>`, `& 0x1`, `<<`, `|`) over unbounded non-negative
  integers, and the value of a bit string read most significant bit first.
- **Signal vector** (`signal_vector.dfy`, module `SignalVector`):
  `ui_in_logicarray(ncs, bit, sclk)`, the word `00000 ncs bit sclk`.
- **Half-period wait** (`half_period.dfy`, module `HalfPeriod`):
  `await_half_sclk`, a loop that polls once per tick until more than 5000 ns
  have passed.
- **SPI driver** (`spi_driver.dfy`, module `SpiDriver`):
  `send_spi_transaction` as a pure function. Its result is either a
  `ValueError` or the list of `ui_in` writes and waits it performs, plus the
  word it returns. `Replay` carries that list out against a tick counter,
  using the polling wait. A reference SPI receiver (`spi_receiver.dfy`,
  module `SpiReceiver`) samples COPI on each rising SCLK edge while CS is
  low. It is the driver's partner: the frame it receives decodes back to the
  transaction.
- **Level search and waveform metrics** (`levelling.dfy`, module
  `LevelSearch`; `metrics.dfy`, module `Metrics`). `levelling` (called as
  `wait_for_level`) runs over a sampled trace `nat -> Bit` indexed by
  absolute tick. It is given both as a pure function and as the polling
  loops. Period, duty and frequency are computed from the edge times it
  returns, and the bench's pass conditions are restated as exact integer
  inequalities.

Simulated time is an abstract tick counter. A `ClockCycles(dut.clk, n)` wait
advances it by `n` ticks, and `get_sim_time("ns")` is the tick number times
the 100 ns clock period.

Points of `test/test.py` worth stating plainly, because the model follows
them exactly:
- The half-period wait stops only once more than 5000 ns have passed since
  it started.
- The settle time after a frame is a fixed 600 cycles.
- The metrics do not check that the edges are in order. The only error is
  Python's `ZeroDivisionError` on a zero period; `DutyStrictlyBetween` states
  what in-order edges guarantee.
- When `prev_level == desired_level`, phase 2 always advances at least one
  tick, so the search returns the next tick at that level after the phase-1
  match rather than the phase-1 match itself.

## Model

| member | source | states |
|---|---|---|
| `SignalVector.UiIn` | test/test.py:21-23 | the literal "00000{ncs}{bit}{sclk}" has value `4*ncs + 2*bit + sclk`, and bits 2, 1 and 0 of it give back ncs, bit and sclk |
| `SignalVector.UiInHighBitsZero` | test/test.py:23 | bits 7..3 of a `ui_in` word, and every bit above them, are zero |
| `SignalVector.UiInInjective` | test/test.py:21-23 | two `ui_in` words are equal exactly when their CS, data and clock lines are equal |
| `Bits.FromToBits` | test/test.py:57-58 | the 8 bits extracted MSB first by `(v >> (7-i)) & 0x1` read back as `v` for any `v < 256` (generalised to n bits) |
| `Bits.ToFromBits` | test/test.py:57-58 | extracting the bits of the value of a bit string gives the same bit string |
| `Bits.FromBitsAppend` | test/test.py:57-69 | sending one bit string after another is the same as sending the first shifted left past the second |
| `Bits.FromBitsTwoBytes` | test/test.py:57-77 | two bytes sent one after the other, MSB first, read back as `hi*256 + lo` |
| `Bits.OrDisjoint` | test/test.py:48 | `(a << k) \| b == a*2^k + b` when `b` fits in `k` bits, so or-ing the r/w bit over a 7-bit address loses nothing |
| `HalfPeriod.HalfSclkTicks` | test/test.py:13-18 | the wait takes the least tick count whose elapsed time is strictly more than 5000 ns |
| `HalfPeriod.AwaitHalfSclk` | test/test.py:11-19 | the polling loop advances at least one tick, stops at the first tick with `start + 5000 < now`, and spends `5000/T + 1` ticks of length T |
| `HalfPeriod.HalfSclkAtBenchClock` | test/test.py:17 | with the 100 ns bench clock a half period is 51 ticks, 5100 ns |
| `SpiDriver.FirstByte` | test/test.py:48 | `(int(r_w) << 7) \| address` is a byte whose top bit is r_w and whose low 7 bits are the address |
| `SpiDriver.SendSpiTransaction` | test/test.py:25-84 | an address outside 0..127 raises first, then data outside 0..255, with no write to `ui_in`; otherwise a transaction that returns the idle word `ui_in_logicarray(1,0,0)` = 4 |
| `SpiDriver.BitsStepsMeasures` | test/test.py:57-77 | shifting out n bits writes `(0,b,0)` then `(0,b,1)` for each bit b in order, and waits 2n half periods and no cycles |
| `SpiDriver.FrameMeasures` | test/test.py:50-83 | a frame of n bits writes CS low, a clock pair per bit and CS high, waits 1 + 600 cycles and 2n half periods |
| `SpiDriver.WordsShape` | test/test.py:54-82 | in the writes of a frame, CS low comes first, bit k's clock-low and clock-high words sit at positions 2k+1 and 2k+2, and CS high comes last |
| `SpiDriver.FrameBitsValue` | test/test.py:48-69 | read back as a number, the 16 bits sent are `r_w*32768 + address*256 + data` |
| `SpiDriver.FrameWordValue` | test/test.py:48 | `(r_w << 15) \| (address << 8) \| data` equals `r_w*32768 + address*256 + data` for in-range fields |
| `SpiDriver.FrameBitOrder` | test/test.py:48-69 | the 16 bits sent are the first byte then the data, each MSB first; read back they are `(r_w << 15) \| (address << 8) \| data`, and that word's 16 bits are the bits sent |
| `SpiDriver.DrivesOfValid` | test/test.py:50-82 | the writes of a valid transaction are CS low, the clock-low/clock-high pair of each frame bit, and CS high |
| `SpiDriver.DriveShape` | test/test.py:50-82 | exactly 34 writes: `(0,0,0)` first, `(0,b,0)` then `(0,b,1)` for each frame bit b, and `(1,0,0)` last |
| `SpiDriver.ShapeDiscipline` | test/test.py:57-82 | any write sequence of the frame's shape keeps CS low before the last write and never changes COPI on a write that raises SCLK |
| `SpiDriver.FrameDiscipline` | test/test.py:57-82 | CS stays low until the last write, which is the idle word; a write that raises SCLK comes after a clock-low write with the same data bit |
| `SpiDriver.FrameLayout` | test/test.py:54-83 | the steps of a frame of any length by position: CS low and the setup cycle, then per bit a clock-low write, a half period, a clock-high write of the same bit, a half period, then CS high and the settle cycles |
| `SpiDriver.FrameTimeline` | test/test.py:55-82 | in a frame of any length, bit k's clock-low write comes one cycle and 2k half periods in, its clock-high write one half period later, and CS goes high after two half periods per bit |
| `SpiDriver.StepLayout` | test/test.py:54-83 | the 68 steps of a valid transaction by position: CS low, 1 cycle, four steps per frame bit in order, CS high, 600 cycles |
| `SpiDriver.EdgeTiming` | test/test.py:55-82 | in a valid transaction, bit k's clock-low write starts at tick `1 + 2k*H` and its clock-high write at `1 + (2k+1)*H`, with `H = 5000/T + 1`, and CS high at `1 + 32*H` |
| `SpiDriver.TransactionTiming` | test/test.py:55-83 | in total, a valid transaction waits 32 half periods and 601 cycles: `1 + 32*(5000/T + 1) + 600` ticks, 2233 at 100 ns |
| `SpiDriver.Replay` | test/test.py:54-83 | carrying out the steps with the polling wait writes the driven words in order, begins step i at `Ticks` of the steps before it, and takes exactly the ticks counted by `Ticks` |
| `SpiReceiver.ReceiveBitWords` | test/test.py:57-77 | a receiver that samples on rising SCLK edges gets back, in order, exactly the bits the clock pairs carry |
| `SpiReceiver.ReceiverRecoversTransaction` | test/test.py:26-31 | the receiver gets the 16-bit frame `(r_w << 15) \| (address << 8) \| data`, and decoding it gives back the direction, address and data |
| `LevelSearch.FirstHit` | test/test.py:165-168 | a bounded scan returns the first tick in `from+1 .. from+budget` showing the level, and none exactly when no tick in that window does |
| `LevelSearch.Levelling` | test/test.py:163-180 | phase 1 times out iff no tick in the first `max_cycles` shows `prev_level`, stuck at the last sample; a success is at least two ticks in, at most `2*max_cycles`, on the desired level; a success is the first tick at the desired level after the phase-1 match, within `max_cycles` of it; phase 2 times out iff no tick in the `max_cycles` after the phase-1 match shows `desired_level`, stuck off the desired level at the last of them |
| `LevelSearch.WaitForLevel` | test/test.py:163-180 | the two polling loops compute the same outcome and timestamp as `Levelling` |
| `LevelSearch.ReachedIsFirstEdge` | test/test.py:165-178 | with different levels, the returned tick is an edge from `prev_level` to `desired_level`, and the first such edge after the first tick |
| `LevelSearch.EdgeWithinBudgetIsFound` | test/test.py:165-178 | an edge from `prev_level` to `desired_level` on any tick the search can see, up to `t0 + max_cycles + 1`, is always found, no later than that edge |
| `LevelSearch.ConstantSignal` | test/test.py:165-180 | on a bit that never moves the search fails in phase 1 after exactly `max_cycles` ticks, or in phase 2, or succeeds two ticks in, depending on the levels |
| `Metrics.Duty` | test/test.py:238-240 | the duty times the period is `100 * high`; a zero period is a `ZeroDivisionError` |
| `Metrics.Frequency` | test/test.py:206-207 | the frequency times the period is `1e9`; a zero period is a `ZeroDivisionError` |
| `Metrics.QuotientBounds` | test/test.py:240-241 | comparing `x / p` with a bound, for `p > 0`, is comparing `x` with the bound times `p` |
| `Metrics.DutyCheckIntegral` | test/test.py:238-254 | for edges in order, `lo <= duty <= hi` holds iff `lo*period <= 100*high <= hi*period` |
| `Metrics.FrequencyCheckIntegral` | test/test.py:206-209 | for edges in order, `990 <= freq <= 1010` holds iff `990*period <= 1e9 <= 1010*period` |
| `Metrics.DutyStrictlyBetween` | test/test.py:238-240 | edges `p1 < pf < p2` give a positive period and a duty strictly between 0 and 100 |
| `Metrics.WorkedNumbers` | test/test.py:206-241 | edges at 0, 250000 and 1000000 ns give 25% and pass the 25% check; edges 1 ms apart give 1000 Hz and pass the frequency check |
| `Metrics.MeasurePeriod` | test/test.py:203-206 | the measurement succeeds exactly when both chained rising-edge searches reach their level, and then returns the ns times of the two edges they found, increasing; otherwise it fails with the outcome of the first search that timed out |
| `Metrics.PeriodFoundWithinBudget` | test/test.py:203-206 | two rising edges within `max_cycles + 1` ticks of the start make the frequency measurement succeed |
| `Metrics.MeasureDuty` | test/test.py:234-239 | the measurement succeeds exactly when the rise, fall and rise searches, each started where the last one returned, all reach their level, and then returns the ns times of the rise, fall and rise those searches found, strictly increasing; otherwise it fails with the outcome of the first search that timed out |
| `Metrics.DutyFoundWithinBudget` | test/test.py:234-239 | a rise, a fall and a rise within `max_cycles + 1` ticks of the start, each level held at least two ticks, make the duty measurement succeed |
| `Metrics.PeriodIsConsecutiveRisingEdges` | test/test.py:203-207 | a frequency measurement spans two consecutive rising edges, with none between them, and never divides by zero |
| `Metrics.DutyMeasurementWellFormed` | test/test.py:234-240 | a successful duty measurement returns the times of a rising, a falling and a rising edge in order, so the period is positive and the duty is strictly between 0 and 100 |

## Left out

- cocotb plumbing: the `Clock`/`start_soon` background clock, the `dut` signal handles and `_log` logging. Time is an abstract tick counter and `uo_out` bit 0 is a given trace.
- The `uo_out`/`uio_out` assertions after SPI writes and the register behaviour of the design under test. They depend on hardware that is not part of this model.
- The reset sequencing and the empty `test_pwm_freq`/`test_pwm_duty` stubs. They hold no logic to state.
- The `LogicArray` form of `data`: `data` is an integer here, because `int(data)` is a conversion in a foreign library.
- `SpiDriver.Direction`: `r_w` is only a read or a write. Any other integer would send only its lowest bit as the r/w bit, because `int(r_w) << 7` leaves bits 0..6 clear and bits above 7 are never shifted out; such values are not modelled because the bench only passes 0 and 1.
- `LevelSearch.Trace`: `int(dut.uo_out.value) & 1` converts the whole 8-bit bus and raises `ValueError` when any of its bits is unresolved (X or Z). A trace of bits cannot express that, so this third way out of `levelling`, besides its two timeouts, is not modelled.
- Floating-point rounding and `:.1f` formatting: duty and frequency are exact reals, and the checks are restated as integer inequalities.
- The bench's own slips are not modelled. `levelling` carries a `@cocotb.test()` decorator and callers use the name `wait_for_level`; `ClkCycles` is misspelled; `TestFailure` and `get_sim_time` are not imported. `levelling` is modelled as the helper those callers mean, and a timeout is an outcome value rather than a raised exception.
- `HalfPeriod.AwaitHalfSclk`: requires a tick length above zero, because with a zero-length tick simulated time never advances and the loop does not end.
