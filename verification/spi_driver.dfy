/**
 `send_spi_transaction`: one 16-bit SPI write or read frame (1 read/write bit,
 7 address bits, 8 data bits, most significant bit first) driven onto the
 `ui_in` word, modelled as the list of writes and waits it performs.
 */
module SpiDriver {
  import opened Bits
  import opened SignalVector
  import opened Wrappers
  import opened HalfPeriod

  /** The `r_w` argument: `True`/1 for a write, `False`/0 for a read. */
  datatype Direction = Read | Write

  /** `int(r_w)`. */
  function DirBit(d: Direction): Bit
  {
    if d == Write then 1 else 0
  }

  /** The two `ValueError`s the driver raises before touching `ui_in`. */
  datatype ValueError = AddressOutOfRange | DataOutOfRange

  /**
   One action of the driver: a write of `ui_in`, a `ClockCycles` wait of a
   number of reference clock cycles, or one `await_half_sclk`.
   */
  datatype Step = Drive(word: nat) | WaitCycles(cycles: nat) | HalfSclk

  /** What a transaction does, and the `ui_in` word it returns. */
  datatype Transaction = Transaction(steps: seq<Step>, returned: nat)

  /** Cycles CS is held low before the first bit. */
  const SetupCycles: nat := 1

  /** Cycles waited after CS is raised again. */
  const SettleCycles: nat := 600

  /** Pull CS low with clock and data low, then wait one cycle. */
  const FrameStart: seq<Step> := [Drive(UiIn(0, 0, 0)), WaitCycles(SetupCycles)]

  /** Return CS high with clock and data low, then let the design settle. */
  const FrameEnd: seq<Step> := [Drive(UiIn(1, 0, 0)), WaitCycles(SettleCycles)]

  /** `(int(r_w) << 7) | address`: the read/write bit above the 7 address bits. */
  function FirstByte(dir: Direction, address: nat): (b: nat)
    requires address < 128
    ensures b < 256
    ensures b / 128 == DirBit(dir) && b % 128 == address
  {
    Pow2Values();
    OrDisjoint(DirBit(dir), address, 7);
    Or(Shl(DirBit(dir), 7), address)
  }

  /**
   One bit on the wire: SCLK low with COPI set to `b`, half a period, SCLK
   high with COPI kept, half a period.
   */
  function BitSteps(b: Bit): seq<Step>
  {
    [Drive(UiIn(0, b, 0)), HalfSclk, Drive(UiIn(0, b, 1)), HalfSclk]
  }

  /** The bits of `bits` shifted out in order. */
  function BitsSteps(bits: seq<Bit>): seq<Step>
  {
    if |bits| == 0 then []
    else BitsSteps(bits[..|bits| - 1]) + BitSteps(bits[|bits| - 1])
  }

  /** One of the two `for i in range(8)` loops: the byte `v` sent most significant bit first. */
  function ByteSteps(v: nat): seq<Step>
  {
    BitsSteps(ToBits(v, 8))
  }

  /** Whether the arguments pass the driver's range checks. */
  predicate Valid(address: int, data: int)
  {
    0 <= address <= 127 && 0 <= data <= 255
  }

  /**
   `send_spi_transaction(dut, r_w, address, data)`. The address is checked
   first, then the data; either failure raises before any write of `ui_in`.
   */
  function SendSpiTransaction(dir: Direction, address: int, data: int): (r: Result<Transaction, ValueError>)
    ensures r.Ok? <==> Valid(address, data)
    ensures (address < 0 || address > 127) ==> r == Err(AddressOutOfRange)
    ensures 0 <= address <= 127 && (data < 0 || data > 255) ==> r == Err(DataOutOfRange)
    ensures r.Ok? ==> r.value.returned == UiIn(1, 0, 0) == 4
  {
    if address < 0 || address > 127 then Err(AddressOutOfRange)
    else if data < 0 || data > 255 then Err(DataOutOfRange)
    else Ok(Transaction(FrameStart + ByteSteps(FirstByte(dir, address)) + ByteSteps(data) + FrameEnd, UiIn(1, 0, 0)))
  }

  /** The 16 bits the driver shifts out: the first byte, then the data byte, each MSB first. */
  function FrameBits(dir: Direction, address: nat, data: nat): (bits: seq<Bit>)
    requires address < 128 && data < 256
    ensures |bits| == 16
  {
    ToBits(FirstByte(dir, address), 8) + ToBits(data, 8)
  }

  /** The 16-bit frame `(r_w << 15) | (address << 8) | data`. */
  function FrameWord(dir: Direction, address: nat, data: nat): nat
  {
    Or(Shl(DirBit(dir), 15), Or(Shl(address, 8), data))
  }

  /** The `ui_in` words written, in order. */
  function Drives(steps: seq<Step>): seq<nat>
  {
    if |steps| == 0 then []
    else Drives(steps[..|steps| - 1]) + (if steps[|steps| - 1].Drive? then [steps[|steps| - 1].word] else [])
  }

  /** The reference clock cycles waited by `ClockCycles`. */
  function Cycles(steps: seq<Step>): nat
  {
    if |steps| == 0 then 0
    else Cycles(steps[..|steps| - 1]) + (if steps[|steps| - 1].WaitCycles? then steps[|steps| - 1].cycles else 0)
  }

  /** The number of half-period waits. */
  function HalfWaits(steps: seq<Step>): nat
  {
    if |steps| == 0 then 0
    else HalfWaits(steps[..|steps| - 1]) + (if steps[|steps| - 1].HalfSclk? then 1 else 0)
  }

  /** Total reference clock ticks the steps take with a tick of `tickNs` nanoseconds. */
  function Ticks(steps: seq<Step>, tickNs: nat): nat
    requires tickNs > 0
  {
    Cycles(steps) + HalfWaits(steps) * HalfSclkTicks(tickNs)
  }

  /** The writes `ui_in` goes through while `bits` are shifted out: two per bit, clock low then high. */
  function BitWords(bits: seq<Bit>): (ws: seq<nat>)
  {
    seq(2 * |bits|, j requires 0 <= j < 2 * |bits| => UiIn(0, bits[j / 2], j % 2))
  }

  /** Drives, cycles and half waits add up over concatenation. */
  lemma {:induction false} MeasuresAppend(a: seq<Step>, b: seq<Step>)
    ensures Drives(a + b) == Drives(a) + Drives(b)
    ensures Cycles(a + b) == Cycles(a) + Cycles(b)
    ensures HalfWaits(a + b) == HalfWaits(a) + HalfWaits(b)
  {
    if |b| == 0 {
      assert a + b == a;
    } else {
      var p := b[..|b| - 1];
      assert (a + b)[..|a + b| - 1] == a + p;
      MeasuresAppend(a, p);
    }
  }

  /** The measures of a single step. */
  lemma MeasuresOne(x: Step)
    ensures Drives([x]) == (if x.Drive? then [x.word] else [])
    ensures Cycles([x]) == (if x.WaitCycles? then x.cycles else 0)
    ensures HalfWaits([x]) == (if x.HalfSclk? then 1 else 0)
  {
    assert [x][..0] == [];
  }

  /** The measures of a two-step list. */
  lemma MeasuresTwo(x: Step, y: Step)
    ensures Drives([x, y]) == Drives([x]) + Drives([y])
    ensures Cycles([x, y]) == Cycles([x]) + Cycles([y])
    ensures HalfWaits([x, y]) == HalfWaits([x]) + HalfWaits([y])
  {
    assert [x, y] == [x] + [y];
    MeasuresAppend([x], [y]);
  }

  lemma {:induction false} BitsStepsAppend(a: seq<Bit>, b: seq<Bit>)
    ensures BitsSteps(a + b) == BitsSteps(a) + BitsSteps(b)
  {
    if |b| == 0 {
      assert a + b == a;
    } else {
      var p := b[..|b| - 1];
      assert (a + b)[..|a + b| - 1] == a + p;
      BitsStepsAppend(a, p);
    }
  }

  /** One bit writes clock low then clock high with the same data, and waits twice. */
  lemma BitStepsMeasures(b: Bit)
    ensures Drives(BitSteps(b)) == [UiIn(0, b, 0), UiIn(0, b, 1)]
    ensures Cycles(BitSteps(b)) == 0
    ensures HalfWaits(BitSteps(b)) == 2
  {
    var lo, hi := UiIn(0, b, 0), UiIn(0, b, 1);
    assert BitSteps(b) == [Drive(lo), HalfSclk] + [Drive(hi), HalfSclk];
    MeasuresAppend([Drive(lo), HalfSclk], [Drive(hi), HalfSclk]);
    MeasuresTwo(Drive(lo), HalfSclk);
    MeasuresTwo(Drive(hi), HalfSclk);
    MeasuresOne(Drive(lo));
    MeasuresOne(Drive(hi));
    MeasuresOne(HalfSclk);
  }

  lemma BitWordsSnoc(p: seq<Bit>, b: Bit)
    ensures BitWords(p + [b]) == BitWords(p) + [UiIn(0, b, 0), UiIn(0, b, 1)]
  {
    var bits := p + [b];
    var lhs, rhs := BitWords(bits), BitWords(p) + [UiIn(0, b, 0), UiIn(0, b, 1)];
    assert |lhs| == |rhs|;
    forall j | 0 <= j < |lhs|
      ensures lhs[j] == rhs[j]
    {
      if j < 2 * |p| {
        assert bits[j / 2] == p[j / 2];
      }
    }
  }

  /** Shifting out `bits` writes each bit twice, clock low then clock high, and waits twice per bit. */
  lemma {:induction false} BitsStepsMeasures(bits: seq<Bit>)
    ensures Drives(BitsSteps(bits)) == BitWords(bits)
    ensures Cycles(BitsSteps(bits)) == 0
    ensures HalfWaits(BitsSteps(bits)) == 2 * |bits|
  {
    if |bits| > 0 {
      var p, b := bits[..|bits| - 1], bits[|bits| - 1];
      BitsStepsMeasures(p);
      MeasuresAppend(BitsSteps(p), BitSteps(b));
      BitStepsMeasures(b);
      BitWordsSnoc(p, b);
      assert bits == p + [b];
    }
  }

  /** The whole step list of a valid transaction: setup, the 16 frame bits, CS raised, settle. */
  lemma StepsOfValid(dir: Direction, address: int, data: int)
    requires Valid(address, data)
    ensures SendSpiTransaction(dir, address, data).Ok?
    ensures SendSpiTransaction(dir, address, data).value.steps
         == FrameStart + BitsSteps(FrameBits(dir, address, data)) + FrameEnd
  {
    var a, b := ToBits(FirstByte(dir, address), 8), ToBits(data, 8);
    BitsStepsAppend(a, b);
    var sa, sb := BitsSteps(a), BitsSteps(b);
    assert FrameStart + sa + sb + FrameEnd == FrameStart + (sa + sb) + FrameEnd;
  }

  /** The measures of the frame start and end. */
  lemma StartEndMeasures()
    ensures Drives(FrameStart) == [UiIn(0, 0, 0)] && Cycles(FrameStart) == SetupCycles && HalfWaits(FrameStart) == 0
    ensures Drives(FrameEnd) == [UiIn(1, 0, 0)] && Cycles(FrameEnd) == SettleCycles && HalfWaits(FrameEnd) == 0
  {
    MeasuresTwo(Drive(UiIn(0, 0, 0)), WaitCycles(SetupCycles));
    MeasuresOne(Drive(UiIn(0, 0, 0)));
    MeasuresOne(WaitCycles(SetupCycles));
    MeasuresTwo(Drive(UiIn(1, 0, 0)), WaitCycles(SettleCycles));
    MeasuresOne(Drive(UiIn(1, 0, 0)));
    MeasuresOne(WaitCycles(SettleCycles));
  }

  /** Any frame of `bits`: its writes, cycles and half waits. */
  lemma FrameMeasures(bits: seq<Bit>)
    ensures Drives(FrameStart + BitsSteps(bits) + FrameEnd) == [UiIn(0, 0, 0)] + BitWords(bits) + [UiIn(1, 0, 0)]
    ensures Cycles(FrameStart + BitsSteps(bits) + FrameEnd) == SetupCycles + SettleCycles
    ensures HalfWaits(FrameStart + BitsSteps(bits) + FrameEnd) == 2 * |bits|
  {
    var mid := BitsSteps(bits);
    MeasuresAppend(FrameStart, mid);
    MeasuresAppend(FrameStart + mid, FrameEnd);
    BitsStepsMeasures(bits);
    StartEndMeasures();
  }

  /** The writes of any frame: CS low first, a clock-low/clock-high pair per bit, CS high last. */
  lemma WordsShape(bits: seq<Bit>)
    ensures var ds := [UiIn(0, 0, 0)] + BitWords(bits) + [UiIn(1, 0, 0)];
      && |ds| == 2 * |bits| + 2
      && ds[0] == UiIn(0, 0, 0)
      && (forall k :: 0 <= k < |bits| ==> ds[2 * k + 1] == UiIn(0, bits[k], 0) && ds[2 * k + 2] == UiIn(0, bits[k], 1))
      && ds[2 * |bits| + 1] == UiIn(1, 0, 0)
  {
    var bw := BitWords(bits);
    BitWordsPairs(bits);
    Bracketed(UiIn(0, 0, 0), bw, UiIn(1, 0, 0));
  }

  /** Every bit's pair of writes, by position. */
  lemma BitWordsPairs(bits: seq<Bit>)
    ensures |BitWords(bits)| == 2 * |bits|
    ensures forall k :: 0 <= k < |bits| ==>
      BitWords(bits)[2 * k] == UiIn(0, bits[k], 0) && BitWords(bits)[2 * k + 1] == UiIn(0, bits[k], 1)
  {
    forall k | 0 <= k < |bits|
      ensures BitWords(bits)[2 * k] == UiIn(0, bits[k], 0) && BitWords(bits)[2 * k + 1] == UiIn(0, bits[k], 1)
    {
      BitWordsPair(bits, k);
    }
  }

  /** Each bit takes four steps. */
  lemma {:induction false} BitsStepsLength(bits: seq<Bit>)
    ensures |BitsSteps(bits)| == 4 * |bits|
  {
    if |bits| > 0 {
      BitsStepsLength(bits[..|bits| - 1]);
    }
  }

  /** The steps of the first `k` bits are the first `4 * k` steps, and bit `k`'s four steps follow them. */
  lemma BitsStepsSplit(bits: seq<Bit>, k: nat)
    requires k < |bits|
    ensures BitsSteps(bits) == BitsSteps(bits[..k]) + BitSteps(bits[k]) + BitsSteps(bits[k + 1..])
    ensures |BitsSteps(bits[..k])| == 4 * k
  {
    assert bits == bits[..k] + [bits[k]] + bits[k + 1..];
    BitsStepsAppend(bits[..k] + [bits[k]], bits[k + 1..]);
    BitsStepsAppend(bits[..k], [bits[k]]);
    assert [bits[k]][..0] == [];
    BitsStepsLength(bits[..k]);
  }

  /**
   In any frame, bit `k` is shifted out by steps `4k + 2 .. 4k + 5`: the
   clock-low write, a half period, the clock-high write, a half period.
   */
  lemma FrameBitAt(bits: seq<Bit>, k: nat)
    requires k < |bits|
    ensures var s := FrameStart + BitsSteps(bits) + FrameEnd;
      && |s| == 4 * |bits| + 4
      && s[4 * k + 2] == Drive(UiIn(0, bits[k], 0)) && s[4 * k + 3] == HalfSclk
      && s[4 * k + 4] == Drive(UiIn(0, bits[k], 1)) && s[4 * k + 5] == HalfSclk
      && s[..4 * k + 2] == FrameStart + BitsSteps(bits[..k])
      && s[..4 * k + 4] == FrameStart + BitsSteps(bits[..k]) + [Drive(UiIn(0, bits[k], 0)), HalfSclk]
  {
    BitsStepsSplit(bits, k);
    BitsStepsLength(bits);
    var lo, hi := Drive(UiIn(0, bits[k], 0)), Drive(UiIn(0, bits[k], 1));
    var head, tail := BitsSteps(bits[..k]), BitsSteps(bits[k + 1..]);
    Regroup(FrameStart, head, [lo, HalfSclk, hi, HalfSclk], tail, FrameEnd);
    Window(FrameStart + head, lo, HalfSclk, hi, HalfSclk, tail + FrameEnd);
  }

  /**
   The clock edges of any frame are a half period apart: bit `k`'s clock-low
   write comes `SetupCycles + 2k` half periods in, its clock-high write one
   half period later, and CS is raised after two half periods per bit.
   */
  lemma FrameTimeline(bits: seq<Bit>, tickNs: nat)
    requires tickNs > 0
    ensures var s, h := FrameStart + BitsSteps(bits) + FrameEnd, HalfSclkTicks(tickNs);
      && |s| == 4 * |bits| + 4
      && (forall k :: 0 <= k < |bits| ==>
            && s[4 * k + 2] == Drive(UiIn(0, bits[k], 0))
            && Ticks(s[..4 * k + 2], tickNs) == SetupCycles + 2 * k * h
            && s[4 * k + 4] == Drive(UiIn(0, bits[k], 1))
            && Ticks(s[..4 * k + 4], tickNs) == SetupCycles + (2 * k + 1) * h)
      && Ticks(s[..4 * |bits| + 2], tickNs) == SetupCycles + 2 * |bits| * h
  {
    var s := FrameStart + BitsSteps(bits) + FrameEnd;
    FrameEndTicks(bits, tickNs);
    forall k | 0 <= k < |bits|
      ensures s[4 * k + 2] == Drive(UiIn(0, bits[k], 0))
           && Ticks(s[..4 * k + 2], tickNs) == SetupCycles + 2 * k * HalfSclkTicks(tickNs)
           && s[4 * k + 4] == Drive(UiIn(0, bits[k], 1))
           && Ticks(s[..4 * k + 4], tickNs) == SetupCycles + (2 * k + 1) * HalfSclkTicks(tickNs)
    {
      FrameBitAt(bits, k);
      FrameBitTicks(bits, k, tickNs);
    }
  }

  /** Regrouping a five-part concatenation. */
  lemma Regroup<T>(p: seq<T>, a: seq<T>, m: seq<T>, b: seq<T>, q: seq<T>)
    ensures p + (a + m + b) + q == (p + a) + m + (b + q)
  {
  }

  /** Indexing four elements placed after a prefix. */
  lemma Window<T>(a: seq<T>, w: T, x: T, y: T, z: T, rest: seq<T>)
    ensures var s := a + [w, x, y, z] + rest;
      && |s| == |a| + 4 + |rest|
      && s[|a|] == w && s[|a| + 1] == x && s[|a| + 2] == y && s[|a| + 3] == z
      && s[..|a|] == a && s[..|a| + 2] == a + [w, x]
  {
    var s := a + [w, x, y, z] + rest;
    assert s[..|a| + 2] == a + [w, x];
  }

  /**
   The steps of any frame by position: CS low and the setup cycle, four steps
   per bit, CS high and the settle cycles.
   */
  lemma FrameLayout(bits: seq<Bit>)
    ensures var s := FrameStart + BitsSteps(bits) + FrameEnd;
      && |s| == 4 * |bits| + 4
      && s[0] == Drive(UiIn(0, 0, 0)) && s[1] == WaitCycles(SetupCycles)
      && (forall k :: 0 <= k < |bits| ==>
            s[4 * k + 2] == Drive(UiIn(0, bits[k], 0)) && s[4 * k + 3] == HalfSclk
            && s[4 * k + 4] == Drive(UiIn(0, bits[k], 1)) && s[4 * k + 5] == HalfSclk)
      && s[4 * |bits| + 2] == Drive(UiIn(1, 0, 0)) && s[4 * |bits| + 3] == WaitCycles(SettleCycles)
  {
    var s := FrameStart + BitsSteps(bits) + FrameEnd;
    BitsStepsLength(bits);
    forall k | 0 <= k < |bits|
      ensures s[4 * k + 2] == Drive(UiIn(0, bits[k], 0)) && s[4 * k + 3] == HalfSclk
           && s[4 * k + 4] == Drive(UiIn(0, bits[k], 1)) && s[4 * k + 5] == HalfSclk
    {
      FrameBitAt(bits, k);
    }
  }

  /**
   In any frame, the clock-low write of bit `k` comes one setup cycle and `2k`
   half periods after the start, and its clock-high write one half period later.
   */
  lemma FrameBitTicks(bits: seq<Bit>, k: nat, tickNs: nat)
    requires k < |bits| && tickNs > 0
    ensures var s := FrameStart + BitsSteps(bits) + FrameEnd;
      && |s| == 4 * |bits| + 4
      && Ticks(s[..4 * k + 2], tickNs) == SetupCycles + 2 * k * HalfSclkTicks(tickNs)
      && Ticks(s[..4 * k + 4], tickNs) == SetupCycles + (2 * k + 1) * HalfSclkTicks(tickNs)
  {
    FrameBitAt(bits, k);
    PrefixMeasures(bits[..k], UiIn(0, bits[k], 0));
    Distribute(2 * k, 1, HalfSclkTicks(tickNs));
  }

  /** The cycles and half waits before the first `|q|` bits and before the next write after them. */
  lemma PrefixMeasures(q: seq<Bit>, lo: nat)
    ensures Cycles(FrameStart + BitsSteps(q)) == SetupCycles && HalfWaits(FrameStart + BitsSteps(q)) == 2 * |q|
    ensures Cycles(FrameStart + BitsSteps(q) + [Drive(lo), HalfSclk]) == SetupCycles
    ensures HalfWaits(FrameStart + BitsSteps(q) + [Drive(lo), HalfSclk]) == 2 * |q| + 1
  {
    MeasuresAppend(FrameStart, BitsSteps(q));
    BitsStepsMeasures(q);
    StartEndMeasures();
    WriteThenHalf(FrameStart + BitsSteps(q), lo);
  }

  /** A write followed by a half period adds no cycles and one half wait. */
  lemma WriteThenHalf(pre: seq<Step>, lo: nat)
    ensures Cycles(pre + [Drive(lo), HalfSclk]) == Cycles(pre)
    ensures HalfWaits(pre + [Drive(lo), HalfSclk]) == HalfWaits(pre) + 1
  {
    MeasuresAppend(pre, [Drive(lo), HalfSclk]);
    MeasuresTwo(Drive(lo), HalfSclk);
    MeasuresOne(Drive(lo));
    MeasuresOne(HalfSclk);
  }

  /** In any frame, CS is raised one setup cycle and two half periods per bit after the start. */
  lemma FrameEndTicks(bits: seq<Bit>, tickNs: nat)
    requires tickNs > 0
    ensures var s := FrameStart + BitsSteps(bits) + FrameEnd;
      && |s| == 4 * |bits| + 4
      && Ticks(s[..4 * |bits| + 2], tickNs) == SetupCycles + 2 * |bits| * HalfSclkTicks(tickNs)
  {
    BitsStepsLength(bits);
    TakeFront(FrameStart + BitsSteps(bits), FrameEnd);
    PrefixMeasures(bits, 0);
  }

  /** The front part of a concatenation. */
  lemma TakeFront<T>(a: seq<T>, b: seq<T>)
    ensures (a + b)[..|a|] == a
  {
  }

  /** Indexing a sequence wrapped between two elements. */
  lemma Bracketed<T>(a: T, m: seq<T>, c: T)
    ensures |[a] + m + [c]| == |m| + 2
    ensures ([a] + m + [c])[0] == a && ([a] + m + [c])[|m| + 1] == c
    ensures forall i :: 0 <= i < |m| ==> ([a] + m + [c])[i + 1] == m[i]
  {
  }

  /** Read back as a number, the frame bits are the first byte above the data byte. */
  lemma FrameBitsValue(dir: Direction, address: nat, data: nat)
    requires address < 128 && data < 256
    ensures FromBits(FrameBits(dir, address, data)) == DirBit(dir) * 32768 + address * 256 + data
  {
    var fb := FirstByte(dir, address);
    assert fb == DirBit(dir) * 128 + address;
    FromBitsTwoBytes(fb, data);
  }

  /** `(r_w << 15) | (address << 8) | data` puts the three fields side by side. */
  lemma FrameWordValue(dir: Direction, address: nat, data: nat)
    requires address < 128 && data < 256
    ensures FrameWord(dir, address, data) == DirBit(dir) * 32768 + address * 256 + data
  {
    Pow2Values();
    OrDisjoint(address, data, 8);
    OrDisjoint(DirBit(dir), address * 256 + data, 15);
  }

  /**
   The frame is the read/write bit and the address in the first byte, the data
   in the second, most significant bit first: read back as a number it is
   `(r_w << 15) | (address << 8) | data`, and that number's 16 bits are the
   bits sent.
   */
  lemma FrameBitOrder(dir: Direction, address: nat, data: nat)
    requires address < 128 && data < 256
    ensures FromBits(FrameBits(dir, address, data)) == FrameWord(dir, address, data)
    ensures FrameWord(dir, address, data) == DirBit(dir) * 32768 + address * 256 + data
    ensures ToBits(FrameWord(dir, address, data), 16) == FrameBits(dir, address, data)
  {
    FrameBitsValue(dir, address, data);
    FrameWordValue(dir, address, data);
    ToFromBits(FrameBits(dir, address, data));
  }

  /** The pair of writes that carries bit `k`. */
  lemma BitWordsPair(bits: seq<Bit>, k: nat)
    requires k < |bits|
    ensures BitWords(bits)[2 * k] == UiIn(0, bits[k], 0)
    ensures BitWords(bits)[2 * k + 1] == UiIn(0, bits[k], 1)
  {
    var lo, hi := 2 * k, 2 * k + 1;
    assert lo / 2 == k && lo % 2 == 0;
    assert hi / 2 == k && hi % 2 == 1;
  }

  /**
   A valid transaction writes `ui_in` exactly 34 times: CS low with clock and
   data low, then for each frame bit `b` the word (0, b, 0) followed by
   (0, b, 1), then CS high with clock and data low.
   */
  lemma DriveShape(dir: Direction, address: int, data: int)
    requires Valid(address, data)
    ensures var ds := Drives(SendSpiTransaction(dir, address, data).value.steps);
      var bits := FrameBits(dir, address, data);
      && |ds| == 34
      && ds[0] == UiIn(0, 0, 0)
      && (forall k :: 0 <= k < 16 ==> ds[2 * k + 1] == UiIn(0, bits[k], 0) && ds[2 * k + 2] == UiIn(0, bits[k], 1))
      && ds[33] == UiIn(1, 0, 0)
  {
    DrivesOfValid(dir, address, data);
    WordsShape(FrameBits(dir, address, data));
  }

  /** The writes of a valid transaction: CS low, the frame bits, CS high. */
  lemma DrivesOfValid(dir: Direction, address: int, data: int)
    requires Valid(address, data)
    ensures Drives(SendSpiTransaction(dir, address, data).value.steps)
         == [UiIn(0, 0, 0)] + BitWords(FrameBits(dir, address, data)) + [UiIn(1, 0, 0)]
  {
    StepsOfValid(dir, address, data);
    FrameMeasures(FrameBits(dir, address, data));
  }


  /** Any write sequence of the frame's shape keeps CS low and COPI steady while SCLK is high. */
  lemma ShapeDiscipline(ds: seq<nat>, bits: seq<Bit>)
    requires |ds| == 34 && |bits| == 16
    requires ds[0] == UiIn(0, 0, 0) && ds[33] == UiIn(1, 0, 0)
    requires forall k :: 0 <= k < 16 ==> ds[2 * k + 1] == UiIn(0, bits[k], 0) && ds[2 * k + 2] == UiIn(0, bits[k], 1)
    ensures forall j :: 0 <= j < 33 ==> Ncs(ds[j]) == 0
    ensures forall j :: 1 <= j < 34 && Sclk(ds[j]) == 1 ==> Sclk(ds[j - 1]) == 0 && Data(ds[j]) == Data(ds[j - 1])
  {
    forall j | 1 <= j < 33
      ensures Ncs(ds[j]) == 0
      ensures Sclk(ds[j]) == 1 ==> Sclk(ds[j - 1]) == 0 && Data(ds[j]) == Data(ds[j - 1])
    {
      var k := (j - 1) / 2;
      assert ds[2 * k + 1] == UiIn(0, bits[k], 0);
      if j == 2 * k + 2 {
        assert ds[j] == UiIn(0, bits[k], 1);
      } else {
        assert j == 2 * k + 1;
      }
    }
  }

  /**
   During a valid transaction CS stays low until the final write, which is the
   idle word, and a write that raises SCLK never changes COPI: data only moves
   while the clock is low.
   */
  lemma FrameDiscipline(dir: Direction, address: int, data: int)
    requires Valid(address, data)
    ensures var ds := Drives(SendSpiTransaction(dir, address, data).value.steps);
      && |ds| == 34
      && (forall j :: 0 <= j < 33 ==> Ncs(ds[j]) == 0)
      && Ncs(ds[33]) == 1 && Sclk(ds[33]) == 0 && Data(ds[33]) == 0
      && (forall j :: 1 <= j < |ds| && Sclk(ds[j]) == 1 ==> Sclk(ds[j - 1]) == 0 && Data(ds[j]) == Data(ds[j - 1]))
  {
    DriveShape(dir, address, data);
    ShapeDiscipline(Drives(SendSpiTransaction(dir, address, data).value.steps), FrameBits(dir, address, data));
  }

  /**
   A valid transaction waits one cycle, then 32 half periods, then 600 cycles;
   at the bench's 100 ns clock that is 2233 ticks.
   */
  lemma TransactionTiming(dir: Direction, address: int, data: int, tickNs: nat)
    requires Valid(address, data) && tickNs > 0
    ensures var steps := SendSpiTransaction(dir, address, data).value.steps;
      && HalfWaits(steps) == 32
      && Cycles(steps) == SetupCycles + SettleCycles
      && Ticks(steps, tickNs) == 1 + 32 * HalfSclkTicks(tickNs) + 600
      && Ticks(steps, TickNs) == 2233
  {
    StepsOfValid(dir, address, data);
    FrameMeasures(FrameBits(dir, address, data));
    HalfSclkAtBenchClock();
  }


  /**
   The 68 steps of a valid transaction by position: CS low and one cycle;
   for each of the 16 frame bits a clock-low write, a half period, a
   clock-high write with the same bit, a half period; CS high and 600 cycles.
   */
  lemma StepLayout(dir: Direction, address: int, data: int)
    requires Valid(address, data)
    ensures SendSpiTransaction(dir, address, data).Ok?
    ensures var steps, bits := SendSpiTransaction(dir, address, data).value.steps, FrameBits(dir, address, data);
      && |steps| == 68
      && steps[0] == Drive(UiIn(0, 0, 0)) && steps[1] == WaitCycles(1)
      && (forall k :: 0 <= k < 16 ==>
            steps[4 * k + 2] == Drive(UiIn(0, bits[k], 0)) && steps[4 * k + 3] == HalfSclk
            && steps[4 * k + 4] == Drive(UiIn(0, bits[k], 1)) && steps[4 * k + 5] == HalfSclk)
      && steps[66] == Drive(UiIn(1, 0, 0)) && steps[67] == WaitCycles(600)
  {
    StepsOfValid(dir, address, data);
    FrameLayout(FrameBits(dir, address, data));
  }

  /**
   When each write of a valid transaction happens, in ticks from the start:
   bit `k`'s clock-low write after one cycle and `2k` half periods, its
   clock-high write one half period later, and CS high after 32 half periods.
   */
  lemma EdgeTiming(dir: Direction, address: int, data: int, tickNs: nat)
    requires Valid(address, data) && tickNs > 0
    ensures SendSpiTransaction(dir, address, data).Ok?
    ensures var steps, bits := SendSpiTransaction(dir, address, data).value.steps, FrameBits(dir, address, data);
      var h := HalfSclkTicks(tickNs);
      && |steps| == 68
      && (forall k :: 0 <= k < 16 ==>
            && steps[4 * k + 2] == Drive(UiIn(0, bits[k], 0))
            && Ticks(steps[..4 * k + 2], tickNs) == 1 + 2 * k * h
            && steps[4 * k + 4] == Drive(UiIn(0, bits[k], 1))
            && Ticks(steps[..4 * k + 4], tickNs) == 1 + (2 * k + 1) * h)
      && steps[66] == Drive(UiIn(1, 0, 0)) && Ticks(steps[..66], tickNs) == 1 + 32 * h
  {
    StepsOfValid(dir, address, data);
    FrameLayout(FrameBits(dir, address, data));
    FrameTimeline(FrameBits(dir, address, data), tickNs);
  }

  /**
   Carrying out the steps against a tick counter, with every half-period wait
   done by the polling loop: the writes come out in order, step `i` begins
   `Ticks(steps[..i], tickNs)` ticks after the start, and the time spent is
   `Ticks(steps, tickNs)` ticks.
   */
  method Replay(steps: seq<Step>, start: nat, tickNs: nat) returns (now: nat, written: seq<nat>, begun: seq<nat>)
    requires tickNs > 0
    ensures written == Drives(steps)
    ensures now == start + Ticks(steps, tickNs) * tickNs
    ensures |begun| == |steps|
    ensures forall i :: 0 <= i < |steps| ==> begun[i] == start + Ticks(steps[..i], tickNs) * tickNs
  {
    now := start;
    written := [];
    begun := [];
    var i := 0;
    while i < |steps|
      invariant 0 <= i <= |steps|
      invariant written == Drives(steps[..i])
      invariant now == start + Ticks(steps[..i], tickNs) * tickNs
      invariant |begun| == i
      invariant forall j :: 0 <= j < i ==> begun[j] == start + Ticks(steps[..j], tickNs) * tickNs
    {
      begun := begun + [now];
      var before := Ticks(steps[..i], tickNs);
      TicksSnoc(steps, i, tickNs);
      match steps[i] {
        case Drive(w) =>
          written := written + [w];
        case WaitCycles(n) =>
          now := now + n * tickNs;
          Distribute(before, n, tickNs);
        case HalfSclk =>
          var spent;
          now, spent := AwaitHalfSclk(now, tickNs);
          Distribute(before, HalfSclkTicks(tickNs), tickNs);
      }
      i := i + 1;
    }
    assert steps[..|steps|] == steps;
  }

  /** Ticks taken by one step. */
  function StepTicks(x: Step, tickNs: nat): nat
    requires tickNs > 0
  {
    match x
    case Drive(_) => 0
    case WaitCycles(n) => n
    case HalfSclk => HalfSclkTicks(tickNs)
  }

  /** Extending a prefix by one step adds that step's write and ticks. */
  lemma TicksSnoc(steps: seq<Step>, i: nat, tickNs: nat)
    requires i < |steps| && tickNs > 0
    ensures Drives(steps[..i + 1]) == Drives(steps[..i]) + (if steps[i].Drive? then [steps[i].word] else [])
    ensures Ticks(steps[..i + 1], tickNs) == Ticks(steps[..i], tickNs) + StepTicks(steps[i], tickNs)
  {
    var p := steps[..i + 1];
    assert p[..i] == steps[..i] && p[i] == steps[i];
    var h := HalfSclkTicks(tickNs);
    Distribute(HalfWaits(steps[..i]), 1, h);
  }

  lemma Distribute(x: nat, n: nat, t: nat)
    ensures (x + n) * t == x * t + n * t
  {
  }
}
