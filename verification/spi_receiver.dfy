/**
 A reference SPI peripheral front end: what a mode-0 receiver shifts in from
 the `ui_in` words the driver writes. It samples COPI on every rising edge of
 SCLK while CS is low. The driver's frames are checked against it.
 */
module SpiReceiver {
  import opened Bits
  import opened SignalVector
  import opened SpiDriver

  /** SCLK rises between two successive writes while the chip is selected. */
  predicate RisingEdge(prev: nat, cur: nat)
  {
    Ncs(cur) == 0 && Sclk(prev) == 0 && Sclk(cur) == 1
  }

  /** The bits shifted in over the successive `ui_in` words `ws`, in order. */
  function Receive(ws: seq<nat>): seq<Bit>
  {
    if |ws| < 2 then []
    else
      Receive(ws[..|ws| - 1])
      + (if RisingEdge(ws[|ws| - 2], ws[|ws| - 1]) then [Data(ws[|ws| - 1])] else [])
  }

  /** A write with SCLK low shifts nothing in. */
  lemma ReceiveClockLow(ws: seq<nat>, w: nat)
    requires |ws| >= 1 && Sclk(w) == 0
    ensures Receive(ws + [w]) == Receive(ws)
  {
    var all := ws + [w];
    assert all[..|all| - 1] == ws;
    assert all[|all| - 1] == w && !RisingEdge(all[|all| - 2], w);
  }

  /** A write that raises SCLK with CS low shifts in its COPI bit. */
  lemma ReceiveClockRise(ws: seq<nat>, b: Bit)
    requires |ws| >= 1 && Sclk(ws[|ws| - 1]) == 0
    ensures Receive(ws + [UiIn(0, b, 1)]) == Receive(ws) + [b]
  {
    var w := UiIn(0, b, 1);
    var all := ws + [w];
    assert all[..|all| - 1] == ws;
    assert all[|all| - 2] == ws[|ws| - 1] && all[|all| - 1] == w;
    assert RisingEdge(ws[|ws| - 1], w) && Data(w) == b;
  }

  /** After the CS-low write, the clock-low/clock-high pairs deliver exactly the bits they carry. */
  lemma {:induction false} ReceiveBitWords(bits: seq<Bit>)
    ensures Receive([UiIn(0, 0, 0)] + BitWords(bits)) == bits
  {
    if |bits| == 0 {
      assert [UiIn(0, 0, 0)] + BitWords(bits) == [UiIn(0, 0, 0)];
    } else {
      var p, b := bits[..|bits| - 1], bits[|bits| - 1];
      assert bits == p + [b];
      BitWordsSnoc(p, b);
      var x := [UiIn(0, 0, 0)] + BitWords(p);
      assert [UiIn(0, 0, 0)] + BitWords(bits) == (x + [UiIn(0, b, 0)]) + [UiIn(0, b, 1)];
      ReceiveBitWords(p);
      ReceiveClockLow(x, UiIn(0, b, 0));
      ReceiveClockRise(x + [UiIn(0, b, 0)], b);
    }
  }

  /** The read/write flag, address and data carried by a 16-bit frame. */
  function DecodeFrame(bits: seq<Bit>): (Direction, nat, nat)
    requires |bits| == 16
  {
    var first := FromBits(bits[..8]);
    (if first / 128 == 1 then Write else Read, first % 128, FromBits(bits[8..]))
  }

  /**
   Round trip: a peripheral sampling on rising SCLK edges receives exactly the
   16 frame bits, whose value is `(r_w << 15) | (address << 8) | data`, and
   decodes them back to the transaction's direction, address and data.
   */
  lemma ReceiverRecoversTransaction(dir: Direction, address: int, data: int)
    requires Valid(address, data)
    ensures var bits := Receive(Drives(SendSpiTransaction(dir, address, data).value.steps));
      && bits == FrameBits(dir, address, data)
      && FromBits(bits) == FrameWord(dir, address, data)
      && DecodeFrame(bits) == (dir, address, data)
  {
    var bits := FrameBits(dir, address, data);
    DrivesOfValid(dir, address, data);
    ReceiveBitWords(bits);
    ReceiveClockLow([UiIn(0, 0, 0)] + BitWords(bits), UiIn(1, 0, 0));
    FrameBitOrder(dir, address, data);
    var fb := FirstByte(dir, address);
    assert bits[..8] == ToBits(fb, 8) && bits[8..] == ToBits(data, 8);
    Pow2Values();
    FromToBits(fb, 8);
    FromToBits(data, 8);
  }
}
