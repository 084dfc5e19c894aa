/**
 The composite `ui_in` input word of the design under test: bit 2 is the
 active-low chip select, bit 1 the serial data (COPI) and bit 0 the serial
 clock; bits 7..3 are unused and always zero.
 */
module SignalVector {
  import opened Bits

  /**
   `ui_in_logicarray(ncs, bit, sclk)`: the value of the eight-character
   `LogicArray` literal "00000{ncs}{bit}{sclk}".
   */
  function UiIn(ncs: Bit, bit: Bit, sclk: Bit): (w: nat)
    ensures w == 4 * ncs + 2 * bit + sclk
    ensures Ncs(w) == ncs && Data(w) == bit && Sclk(w) == sclk
  {
    LiteralValue(ncs, bit, sclk);
    LowFields(ncs, bit, sclk);
    FromBits([0, 0, 0, 0, 0, ncs, bit, sclk])
  }

  /** The literal "00000{ncs}{bit}{sclk}" has value `4*ncs + 2*bit + sclk`. */
  lemma LiteralValue(ncs: Bit, bit: Bit, sclk: Bit)
    ensures FromBits([0, 0, 0, 0, 0, ncs, bit, sclk]) == 4 * ncs + 2 * bit + sclk
  {
    assert [0, 0, 0, 0, 0, ncs, bit, sclk] == seq(5, _ => 0) + [ncs, bit, sclk];
    FromBitsLeadingZeros(5, [ncs, bit, sclk]);
    assert [ncs, bit, sclk][..2] == [ncs, bit];
    assert [ncs, bit][..1] == [ncs];
    assert [ncs][..0] == [];
    assert FromBits([ncs]) == ncs;
    assert FromBits([ncs, bit]) == 2 * ncs + bit;
  }

  /** Bits 2, 1 and 0 of `4*ncs + 2*bit + sclk` are `ncs`, `bit` and `sclk`; the rest are zero. */
  lemma LowFields(ncs: Bit, bit: Bit, sclk: Bit)
    ensures var w := 4 * ncs + 2 * bit + sclk;
      && BitAt(w, 2) == ncs && BitAt(w, 1) == bit && BitAt(w, 0) == sclk
      && forall k :: 3 <= k ==> BitAt(w, k) == 0
  {
    var w := 4 * ncs + 2 * bit + sclk;
    assert w / 2 == 2 * ncs + bit && (w / 2) / 2 == ncs;
    Pow2Values();
    forall k | 3 <= k
      ensures BitAt(w, k) == 0
    {
      BitAtAbove(w, 3, k);
    }
  }

  /** Bit 2 of a `ui_in` word: the chip select, low while a frame is on the wire. */
  function Ncs(w: nat): Bit
  {
    BitAt(w, 2)
  }

  /** Bit 1 of a `ui_in` word: the serial data line. */
  function Data(w: nat): Bit
  {
    BitAt(w, 1)
  }

  /** Bit 0 of a `ui_in` word: the serial clock. */
  function Sclk(w: nat): Bit
  {
    BitAt(w, 0)
  }

  /** Bits 7..3 of a `ui_in` word, and every bit above them, are zero. */
  lemma UiInHighBitsZero(ncs: Bit, bit: Bit, sclk: Bit)
    ensures forall k :: 3 <= k ==> BitAt(UiIn(ncs, bit, sclk), k) == 0
  {
    LowFields(ncs, bit, sclk);
  }

  /** Two `ui_in` words are equal exactly when their three named lines are. */
  lemma UiInInjective(n1: Bit, b1: Bit, s1: Bit, n2: Bit, b2: Bit, s2: Bit)
    ensures UiIn(n1, b1, s1) == UiIn(n2, b2, s2) <==> n1 == n2 && b1 == b2 && s1 == s2
  {
    if UiIn(n1, b1, s1) == UiIn(n2, b2, s2) {
      assert Ncs(UiIn(n1, b1, s1)) == n1 && Ncs(UiIn(n2, b2, s2)) == n2;
    }
  }
}
