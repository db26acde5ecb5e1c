/**
 * `bitMask<T>(lsb, msb)`: the w-bit word whose bits lsb through msb
 * (inclusive) are set and whose other bits are clear.
 */
module BitMasks {
  import opened Bits
  import opened HalCommon

  /**
   * Built as `((1 << span) | ((1 << span) - 1)) << lsb` with
   * `span = msb - lsb`: the low `span + 1` ones are formed without ever
   * shifting by the full width, so `msb == w - 1` is handled.
   */
  function BitMask(w: Width, lsb: nat, msb: nat): (r: nat)
    requires lsb <= msb < w
    ensures Fits(r, w)
  {
    var top := Bit(w, msb - lsb);
    var r := Trunc(Shl(Or(top, top - 1), lsb), w);
    forall i: nat | w <= i
      ensures !BitSet(r, i)
    {
      MaskBit(w, lsb, msb, i);
    }
    BoundFromBits(r, w);
    r
  }

  /** `(1 << k) | ((1 << k) - 1)` has exactly the bits 0 through k set. */
  lemma SpanOnesBits(k: nat, i: nat)
    ensures BitSet(Or(Pow2(k), Pow2(k) - 1), i) <==> i <= k
  {
    OrBits(Pow2(k), Pow2(k) - 1, i);
    LowOnesBits(k, i);
    Pow2Bits(k, i);
  }

  lemma MaskBit(w: Width, lsb: nat, msb: nat, i: nat)
    requires lsb <= msb < w
    ensures BitSet(Trunc(Shl(Or(Pow2(msb - lsb), Pow2(msb - lsb) - 1), lsb), w), i) <==> lsb <= i <= msb
  {
    var ones := Or(Pow2(msb - lsb), Pow2(msb - lsb) - 1);
    TruncBits(Shl(ones, lsb), w, i);
    ShlBits(ones, lsb, i);
    if lsb <= i {
      SpanOnesBits(msb - lsb, i - lsb);
    }
  }

  /** The mask has exactly the bits lsb through msb set. */
  lemma BitMaskBits(w: Width, lsb: nat, msb: nat, i: nat)
    requires lsb <= msb < w
    ensures BitSet(BitMask(w, lsb, msb), i) <==> lsb <= i <= msb
  {
    MaskBit(w, lsb, msb, i);
  }

  /** `(2^k - 1) << lsb` has exactly the bits lsb through lsb + k - 1 set. */
  lemma ShiftedOnesBits(k: nat, lsb: nat, i: nat)
    ensures BitSet(Shl(Pow2(k) - 1, lsb), i) <==> lsb <= i < lsb + k
  {
    ShlBits(Pow2(k) - 1, lsb, i);
    if lsb <= i {
      LowOnesBits(k, i - lsb);
    }
  }

  /** The mask is the number `(2^(msb - lsb + 1) - 1) * 2^lsb`. */
  lemma BitMaskValue(w: Width, lsb: nat, msb: nat)
    requires lsb <= msb < w
    ensures BitMask(w, lsb, msb) == (Pow2(msb - lsb + 1) - 1) * Pow2(lsb)
  {
    var ones := Pow2(msb - lsb + 1) - 1;
    var mask := BitMask(w, lsb, msb);
    forall i: nat
      ensures BitSet(mask, i) == BitSet(Shl(ones, lsb), i)
    {
      BitMaskBits(w, lsb, msb, i);
      ShiftedOnesBits(msb - lsb + 1, lsb, i);
    }
    BitsDetermine(mask, Shl(ones, lsb));
    ShlIsMul(ones, lsb);
    assert mask == ones * Pow2(lsb);
  }

  /** A one-bit mask is `bit<T>(pos)`. */
  lemma BitMaskSingle(w: Width, pos: nat)
    requires pos < w
    ensures BitMask(w, pos, pos) == Bit(w, pos)
  {
    forall i: nat
      ensures BitSet(BitMask(w, pos, pos), i) == BitSet(Bit(w, pos), i)
    {
      BitMaskBits(w, pos, pos, i);
      BitBits(w, pos, i);
    }
    BitsDetermine(BitMask(w, pos, pos), Bit(w, pos));
  }

  /** The mask of the k low bits is 2^k - 1; for k == w it is `static_cast<T>(-1)`. */
  lemma BitMaskLow(w: Width, k: nat)
    requires 0 < k <= w
    ensures BitMask(w, 0, k - 1) == Pow2(k) - 1
    ensures k == w ==> BitMask(w, 0, k - 1) == AllOnes(w)
  {
    BitMaskValue(w, 0, k - 1);
    assert Pow2(0) == 1;
  }
}
