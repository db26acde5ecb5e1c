/**
 * Common definitions of the hardware abstraction layer: the machine word
 * widths, the single-bit word `bit<T>(pos)`, and the access-permission
 * encoding `AccessType`.
 */
module HalCommon {
  import opened Bits

  /** Bit widths of the unsigned word types a layout may use (uint8_t .. uint64_t). */
  type Width = w: nat | w == 8 || w == 16 || w == 32 || w == 64 witness 32

  /** `sizeof` of a word type of the given width. */
  function Bytes(w: Width): (r: nat)
    ensures r * 8 == w && r >= 1
  {
    w / 8
  }

  /** The value of `static_cast<T>(-1)` for a w-bit T. */
  function AllOnes(w: Width): (r: nat)
  {
    Pow2(w) - 1
  }

  /** `static_cast<T>(-1)` has every bit of the word set and no other. */
  lemma AllOnesBits(w: Width, i: nat)
    ensures BitSet(AllOnes(w), i) <==> i < w
  {
    assert AllOnes(w) == Pow2(w) - 1;
    LowOnesBits(w, i);
  }

  /** A w-bit word is a natural number below 2^w. */
  predicate Fits(x: nat, w: nat)
  {
    x < Pow2(w)
  }

  /**
   * `bit<T>(pos)`: the constant 1 of the w-bit type shifted left by pos.
   * The precondition keeps pos inside the word: for a 32- or 64-bit T a
   * shift by the width or more is undefined behaviour, while a narrower T is
   * promoted to `int` first, so positions from w to 31 give 0 once the
   * result is converted back to T. No use of `bit` shifts that far.
   */
  function Bit(w: Width, pos: nat): (r: nat)
    requires pos < w
    ensures Fits(r, w)
    ensures r == Pow2(pos)
  {
    var r := Trunc(Shl(1, pos), w);
    forall i: nat ensures BitSet(r, i) == BitSet(Pow2(pos), i) {
      TruncBits(Shl(1, pos), w, i);
      ShlBits(1, pos, i);
      Pow2Bits(pos, i);
      if pos <= i {
        Pow2Bits(0, i - pos);
      }
    }
    BitsDetermine(r, Pow2(pos));
    Pow2Monotone(pos + 1, w);
    r
  }

  /** `bit<T>(pos)` has bit pos set and every other bit clear. */
  lemma BitBits(w: Width, pos: nat, i: nat)
    requires pos < w
    ensures BitSet(Bit(w, pos), i) <==> i == pos
  {
    Pow2Bits(pos, i);
  }

  /** `bit<T>(0)` is 1 and `bit<T>(w - 1)` is the top bit of the word: half of 2^w. */
  lemma BitEnds(w: Width)
    ensures Bit(w, 0) == 1
    ensures 2 * Bit(w, w - 1) == Pow2(w)
  {
  }

  /** Access permissions of a bit field, a 2-bit set of READ and WRITE. */
  datatype AccessType = NONE | READ_ONLY | WRITE_ONLY | READ_WRITE
  {
    /** The enumerator's integer value. */
    function Value(): (v: nat)
    {
      match this
      case NONE => 0
      case READ_ONLY => 1
      case WRITE_ONLY => 2
      case READ_WRITE => 3
    }

    /** The read permission bit (READ_ONLY's bit) is present. */
    predicate Readable()
      ensures Readable() <==> And(Value(), READ_ONLY.Value()) != 0
    {
      BitSet(Value(), 0)
    }

    /** The write permission bit (WRITE_ONLY's bit) is present. */
    predicate Writable()
      ensures Writable() <==> And(Value(), WRITE_ONLY.Value()) != 0
    {
      assert And(3, 2) == 2 * And(1, 1) && And(2, 2) == 2 * And(1, 1);
      BitSet(Value(), 1)
    }
  }

  /**
   * The enumerators are defined as `bit(0)`, `bit(1)` and their OR (with the
   * default 32-bit `bit`), so READ_WRITE is READ_ONLY | WRITE_ONLY and the
   * four values are distinct.
   */
  lemma AccessTypeEncoding()
    ensures NONE.Value() == 0
    ensures READ_ONLY.Value() == Bit(32, 0) && WRITE_ONLY.Value() == Bit(32, 1)
    ensures READ_WRITE.Value() == Or(READ_ONLY.Value(), WRITE_ONLY.Value())
    ensures forall a: AccessType, b: AccessType :: a.Value() == b.Value() ==> a == b
  {
    assert Or(1, 2) == 2 * Or(0, 1) + 1;
    assert Or(0, 1) == 2 * Or(0, 0) + 1;
  }

  /** READ_WRITE carries both permission bits and NONE neither; each permission bit is held by exactly two enumerators. */
  lemma AccessTypePermissions(a: AccessType)
    ensures a.Readable() <==> a == READ_ONLY || a == READ_WRITE
    ensures a.Writable() <==> a == WRITE_ONLY || a == READ_WRITE
    ensures READ_WRITE.Readable() && READ_WRITE.Writable()
    ensures !NONE.Readable() && !NONE.Writable()
  {
  }
}
