/**
 Python's operations on non-negative integers that the test bench uses to
 take words apart and put them together: `>>`, `& 0x1`, `<<` and `|`, and
 the value of a bit string written most significant bit first (the way a
 `LogicArray` literal such as "00000101" is read).
 */
module Bits {

  /** One binary digit, as produced by `(v >> k) & 0x1`. */
  type Bit = b: int | 0 <= b <= 1

  function Pow2(k: nat): (p: nat)
    ensures p >= 1
  {
    if k == 0 then 1 else 2 * Pow2(k - 1)
  }

  /** `(v >> k) & 0x1`: bit `k` of `v`, counting from the least significant. */
  function BitAt(v: nat, k: nat): Bit
  {
    if k == 0 then v % 2 else BitAt(v / 2, k - 1)
  }

  /** `v << k`. */
  function Shl(v: nat, k: nat): nat
  {
    v * Pow2(k)
  }

  /** `a | b`: bit `i` of the result is set when bit `i` of `a` or of `b` is. */
  function Or(a: nat, b: nat): nat
    decreases a + b
  {
    if a == 0 then b
    else if b == 0 then a
    else 2 * Or(a / 2, b / 2) + (if a % 2 == 1 || b % 2 == 1 then 1 else 0)
  }

  /** The value of `bs` read most significant bit first. */
  function FromBits(bs: seq<Bit>): (v: nat)
    ensures v < Pow2(|bs|)
  {
    if |bs| == 0 then 0 else 2 * FromBits(bs[..|bs| - 1]) + bs[|bs| - 1]
  }

  /**
   The `n` low bits of `v`, most significant first: index `i` holds
   `(v >> (n-1-i)) & 0x1`, which is what `for i in range(8)` with
   `(v >> (7-i)) & 0x1` produces for `n == 8`.
   */
  function ToBits(v: nat, n: nat): (bs: seq<Bit>)
    ensures |bs| == n
  {
    seq(n, i requires 0 <= i < n => BitAt(v, n - 1 - i))
  }

  /** Dropping the last of `n` bits is the same as halving `v` first. */
  lemma ToBitsPrefix(v: nat, n: nat)
    requires n >= 1
    ensures ToBits(v, n)[..n - 1] == ToBits(v / 2, n - 1)
    ensures ToBits(v, n)[n - 1] == v % 2
  {
    forall i | 0 <= i < n - 1
      ensures ToBits(v, n)[i] == ToBits(v / 2, n - 1)[i]
    {
      assert BitAt(v, n - 1 - i) == BitAt(v / 2, n - 2 - i);
    }
    assert ToBits(v, n)[n - 1] == BitAt(v, 0);
  }

  /** Reading back the `n` low bits of a value that fits gives the value. */
  lemma {:induction false} FromToBits(v: nat, n: nat)
    requires v < Pow2(n)
    ensures FromBits(ToBits(v, n)) == v
  {
    if n > 0 {
      ToBitsPrefix(v, n);
      FromToBits(v / 2, n - 1);
    }
  }

  /** Splitting a value into its bits again gives back the bit string. */
  lemma {:induction false} ToFromBits(bs: seq<Bit>)
    ensures ToBits(FromBits(bs), |bs|) == bs
  {
    var n := |bs|;
    if n > 0 {
      var p := bs[..n - 1];
      ToFromBits(p);
      ToBitsPrefix(FromBits(bs), n);
      assert FromBits(bs) / 2 == FromBits(p);
      assert ToBits(FromBits(bs), n) == ToBits(FromBits(p), n - 1) + [bs[n - 1]];
      assert bs == p + [bs[n - 1]];
    }
  }

  /** Concatenating bit strings shifts the first one left past the second. */
  lemma {:induction false} FromBitsAppend(a: seq<Bit>, b: seq<Bit>)
    ensures FromBits(a + b) == FromBits(a) * Pow2(|b|) + FromBits(b)
  {
    if |b| == 0 {
      assert a + b == a;
    } else {
      var p, l := b[..|b| - 1], b[|b| - 1];
      var ab := a + b;
      assert ab[..|ab| - 1] == a + p && ab[|ab| - 1] == l;
      FromBitsAppend(a, p);
      var x, q, y := FromBits(a), Pow2(|p|), FromBits(p);
      assert FromBits(ab) == 2 * (x * q + y) + l;
      assert FromBits(b) == 2 * y + l;
      MulDouble(x, q);
    }
  }

  lemma MulDouble(x: nat, q: nat)
    ensures x * (2 * q) == 2 * (x * q)
  {
  }

  /** Leading zero bits do not change the value. */
  lemma {:induction false} FromBitsLeadingZeros(k: nat, b: seq<Bit>)
    ensures FromBits(seq(k, _ => 0) + b) == FromBits(b)
  {
    FromBitsAppend(seq(k, _ => 0), b);
    FromBitsZeros(k);
  }

  lemma {:induction false} FromBitsZeros(k: nat)
    ensures FromBits(seq(k, _ => 0)) == 0
  {
    if k > 0 {
      assert seq(k, _ => 0)[..k - 1] == seq(k - 1, _ => 0);
      FromBitsZeros(k - 1);
    }
  }

  /** A value below `2^k` has no bit set at position `k` or above. */
  lemma {:induction false} BitAtAbove(v: nat, k: nat, j: nat)
    requires v < Pow2(k) && k <= j
    ensures BitAt(v, j) == 0
  {
    if j > 0 {
      if k > 0 {
        BitAtAbove(v / 2, k - 1, j - 1);
      } else {
        BitAtAbove(v / 2, 0, j - 1);
      }
    }
  }

  /**
   Or-ing a value shifted left by `k` with one that fits in `k` bits puts the
   two side by side: `(a << k) | b == a * 2^k + b`.
   */
  lemma {:induction false} OrDisjoint(a: nat, b: nat, k: nat)
    requires b < Pow2(k)
    ensures Or(Shl(a, k), b) == Shl(a, k) + b
  {
    var s := Shl(a, k);
    if s != 0 && b != 0 {
      assert k > 0;
      assert s == 2 * (a * Pow2(k - 1));
      assert s / 2 == Shl(a, k - 1) && s % 2 == 0;
      OrDisjoint(a, b / 2, k - 1);
    }
  }

  /** Two bytes sent one after the other, most significant bit first, read back as `hi * 256 + lo`. */
  lemma FromBitsTwoBytes(hi: nat, lo: nat)
    requires hi < 256 && lo < 256
    ensures FromBits(ToBits(hi, 8) + ToBits(lo, 8)) == hi * 256 + lo
  {
    Pow2Values();
    FromBitsAppend(ToBits(hi, 8), ToBits(lo, 8));
    FromToBits(hi, 8);
    FromToBits(lo, 8);
  }

  /** The powers of two that frame the test bench's 7-, 8-, 15- and 16-bit fields. */
  lemma Pow2Values()
    ensures Pow2(3) == 8 && Pow2(7) == 128 && Pow2(8) == 256
    ensures Pow2(15) == 32768 && Pow2(16) == 65536
  {
    assert Pow2(3) == 8;
    assert Pow2(7) == 128;
    assert Pow2(8) == 256;
    assert Pow2(11) == 2048;
    assert Pow2(15) == 32768;
  }
}
