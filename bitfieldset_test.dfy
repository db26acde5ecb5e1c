/**
 * What the library's test suite asserts, stated as verified properties:
 * `bitMask` against the naive loop and at its boundaries, the six-field,
 * five-word test layout, and the set/get/word/copy scenarios on a field set
 * over that layout with 32-bit words.
 */
module BitFieldSetTest {
  import opened Bits
  import opened HalCommon
  import opened BitMasks
  import opened BitFieldDef
  import opened FieldSets

  /** `bitMaskNaive<T>(lsb, msb)`: ORs `bit<T>(i)` into the mask for i from lsb to msb. */
  method BitMaskNaive(w: Width, lsb: nat, msb: nat) returns (mask: nat)
    requires msb < w
    ensures Fits(mask, w)
    ensures forall j: nat :: BitSet(mask, j) <==> lsb <= j <= msb
    ensures lsb <= msb ==> mask == BitMask(w, lsb, msb)
  {
    mask := 0;
    var i := lsb;
    forall j: nat ensures !BitSet(mask, j) {
      NoBitsOfZero(j);
    }
    while i <= msb
      invariant lsb <= i && (i <= msb + 1 || i == lsb)
      invariant Fits(mask, w)
      invariant forall j: nat :: BitSet(mask, j) <==> lsb <= j < i
    {
      ghost var prev := mask;
      mask := Or(mask, Bit(w, i));
      forall j: nat
        ensures BitSet(mask, j) <==> lsb <= j < i + 1
      {
        OrBits(prev, Bit(w, i), j);
        BitBits(w, i, j);
      }
      forall j: nat | w <= j
        ensures !BitSet(mask, j)
      {
      }
      BoundFromBits(mask, w);
      i := i + 1;
    }
    if lsb <= msb {
      forall j: nat
        ensures BitSet(mask, j) == BitSet(BitMask(w, lsb, msb), j)
      {
        BitMaskBits(w, lsb, msb, j);
      }
      BitsDetermine(mask, BitMask(w, lsb, msb));
    }
  }

  /** `utilBitMaskTestRuntime<T>()`: compares `bitMask` with the naive loop for every lsb <= msb < w; no comparison fails. */
  method BitMaskTestRuntime(w: Width) returns (failures: nat)
    ensures failures == 0
  {
    failures := 0;
    var lsb := 0;
    while lsb < w
      invariant lsb <= w
      invariant failures == 0
    {
      var msb := lsb;
      while msb < w
        invariant lsb <= msb <= w
        invariant failures == 0
      {
        var naive := BitMaskNaive(w, lsb, msb);
        failures := failures + if BitMask(w, lsb, msb) == naive then 0 else 1;
        msb := msb + 1;
      }
      lsb := lsb + 1;
    }
  }

  /** `bitMask(0, 0) == 0x01`. */
  lemma MaskOfBitZero(w: Width)
    ensures BitMask(w, 0, 0) == 0x01
  {
    BitMaskLow(w, 1);
    assert Pow2(1) == 2;
  }

  /** `bitMask(0, 2) == 0x7`, the mask of a 3-bit field at bit 0. */
  lemma MaskOfLowThree(w: Width)
    ensures BitMask(w, 0, 2) == 0x7
  {
    BitMaskLow(w, 3);
    SmallPowers();
  }

  /** `bitMask(0, 7) == 0xFF`. */
  lemma MaskOfLowByte(w: Width)
    ensures BitMask(w, 0, 7) == 0xFF
  {
    BitMaskLow(w, 8);
    ByteRange();
  }

  /** A byte holds 2^8 values. */
  lemma ByteRange()
    ensures Pow2(8) == 0x100
  {
    assert Pow2(4) == 0x10;
  }

  /** `bitMask(0, 3) == 0xF`. */
  lemma MaskOfLowNibble(w: Width)
    ensures BitMask(w, 0, 3) == 0xF
  {
    BitMaskLow(w, 4);
    assert Pow2(4) == 0x10;
  }

  /** `utilBitMaskTestConst<T>()`: the boundary values of `bitMask`, for every word width. */
  lemma BitMaskTestConst(w: Width)
    ensures BitMask(w, 0, 0) == 0x01
    ensures BitMask(w, w - 1, w - 1) == Bit(w, w - 1)
    ensures BitMask(w, 0, w - 1) == AllOnes(w)
    ensures BitMask(w, 0, 7) == 0xFF
    ensures BitMask(w, 0, 3) == 0xF
  {
    MaskOfBitZero(w);
    BitMaskSingle(w, w - 1);
    BitMaskLow(w, w);
    MaskOfLowByte(w);
    MaskOfLowNibble(w);
  }

  /** The powers of two that bound the values of the 2- and 3-bit test fields. */
  lemma SmallPowers()
    ensures Pow2(2) == 4 && Pow2(3) == 8
  {
  }

  /** Field identities of `TestBitFieldFlexDef`. */
  const F1: nat := 0
  const F2: nat := 1
  const F3: nat := 2
  const F4: nat := 3
  const F5: nat := 4
  const F6: nat := 5

  /** A descriptor naming only `.word`, `.lsb` and `.msb`. */
  function Field(w: Width, word: nat, lsb: nat, msb: nat): (f: BitField)
    requires lsb <= UINT8_MAX && msb <= UINT8_MAX && word <= SIZE_MAX
  {
    Declare(w, NoDesignators.(word := Some(word), lsb := Some(lsb), msb := Some(msb)))
  }

  /** `TestBitFieldFlexDef<TWord>`: six fields over five words of w bits. */
  function TestLayout(w: Width): (l: Layout)
    ensures l.width == w && l.wordCount == 5 && l.fieldCount == |l.fields| == 6
  {
    Layout(w, 5, 6, [
      Field(w, 0, 0, 2),
      Field(w, 0, 3, 4),
      Field(w, 0, 5, w - 1),
      Field(w, 1, 0, w / 2),
      Field(w, 1, w / 2 + 1, w - 1),
      Field(w, 2, 0, w - 1)])
  }

  /** A descriptor as `Field` builds it: every other member takes its default. */
  function Plain(word: nat, lsb: nat, msb: nat): (f: BitField)
  {
    BitField(OFFSET_UNDEFINED, word, lsb, msb, 0, 0, 0, 0, READ_WRITE, false)
  }

  lemma TestLayoutFields(w: Width)
    ensures TestLayout(w).fields == [
      Plain(0, 0, 2), Plain(0, 3, 4), Plain(0, 5, w - 1),
      Plain(1, 0, w / 2), Plain(1, w / 2 + 1, w - 1), Plain(2, 0, w - 1)]
  {
  }

  /** Every descriptor of the test layout is well formed: its word is below 5 and its range, envelope and byte offset are consistent. */
  lemma TestLayoutWellFormed(w: Width)
    ensures forall k :: 0 <= k < |TestLayout(w).fields| ==> FieldWellFormed(w, 5, TestLayout(w).fields[k])
  {
    TestLayoutFields(w);
  }

  /** No two fields of the test layout overlap. */
  lemma TestLayoutNoOverlap(w: Width)
    ensures AllRangesOk(w, TestLayout(w).fields)
    ensures NoOverlap(w, TestLayout(w).fields)
  {
    TestLayoutFields(w);
    var fs := TestLayout(w).fields;
    forall j, k | 0 <= j < k < |fs| && fs[j].word == fs[k].word
      ensures fs[j].msb < fs[k].lsb || fs[k].msb < fs[j].lsb
    {
    }
    NoOverlapIffRangesApart(w, fs);
  }

  /** The test layout passes every sanity check: F1, F2, F3 split word 0, F4 and F5 split word 1, F6 fills word 2. */
  lemma TestLayoutValid(w: Width)
    ensures ValidLayout(TestLayout(w))
  {
    TestLayoutWellFormed(w);
    TestLayoutNoOverlap(w);
  }

  /** F1's mask is `0b111`. */
  lemma TestLayoutF1Mask(w: Width)
    ensures FieldMask(w, TestLayout(w).fields[F1]) == 0x7
  {
    TestLayoutFields(w);
    MaskOfLowThree(w);
  }

  /** F6's mask is the whole word. */
  lemma TestLayoutF6Mask(w: Width)
    ensures FieldMask(w, TestLayout(w).fields[F6]) == AllOnes(w)
  {
    TestLayoutFields(w);
    BitMaskLow(w, w);
  }

  /**
   * Word 0 holds F1, F2 and F3 in ascending, non-touching bit ranges that
   * end at the top bit; word 1 holds F4 and F5 the same way; F6 spans all of
   * word 2; every field is subject to the overlap check.
   */
  lemma TestLayoutPlacement(w: Width)
    ensures var fs := TestLayout(w).fields;
      && |fs| == 6
      && fs[F1].word == fs[F2].word == fs[F3].word == 0
      && fs[F4].word == fs[F5].word == 1
      && fs[F6].word == 2
      && fs[F1].lsb == 0 && fs[F1].msb < fs[F2].lsb && fs[F2].msb < fs[F3].lsb && fs[F3].msb == w - 1
      && fs[F4].lsb == 0 && fs[F4].msb < fs[F5].lsb && fs[F5].msb == w - 1
      && fs[F6].lsb == 0 && fs[F6].msb == w - 1
      && forall k :: 0 <= k < |fs| ==> !fs[k].mayOverlap
  {
    TestLayoutFields(w);
  }

  /** Two fields of word 0 sharing bit 2, neither allowed to overlap: the overlap check rejects the layout. */
  lemma OverlappingLayoutRejected(w: Width)
    ensures AllRangesOk(w, [Field(w, 0, 0, 2), Field(w, 0, 2, 7)])
    ensures !NoOverlap(w, [Field(w, 0, 0, 2), Field(w, 0, 2, 7)])
    ensures !ValidLayout(Layout(w, 3, 2, [Field(w, 0, 0, 2), Field(w, 0, 2, 7)]))
  {
    var fs := [Field(w, 0, 0, 2), Field(w, 0, 2, 7)];
    assert fs[0] == Plain(0, 0, 2) && fs[1] == Plain(0, 2, 7);
    assert AllRangesOk(w, fs);
    ConflictIffRangesIntersect(w, fs[0], fs[1]);
    assert Conflict(w, fs[0], fs[1]);
  }

  /**
   * What the test scenarios rely on: the layout is valid, and F1 and F2 are
   * read-write fields of one word, 3 and 2 bits wide, subject to the overlap
   * check.
   */
  predicate ScenarioShape(l: Layout)
  {
    && ValidLayout(l)
    && CanGet(l, F1) && CanSet(l, F1) && CanGet(l, F2) && CanSet(l, F2)
    && !l.fields[F1].mayOverlap && !l.fields[F2].mayOverlap
    && l.fields[F1].word == l.fields[F2].word
    && FieldWidth(l.fields[F1]) == 3 && FieldWidth(l.fields[F2]) == 2
  }

  lemma TestLayoutShape(w: Width)
    ensures ScenarioShape(TestLayout(w))
  {
    TestLayoutValid(w);
    TestLayoutFields(w);
    var fs := TestLayout(w).fields;
    assert fs[F1] == Plain(0, 0, 2) && fs[F2] == Plain(0, 3, 4);
  }

  /** Storage of a field set over the test layout: five w-bit words of any initial contents. */
  predicate TbfWords(w: Width, init: seq<nat>)
  {
    WordsFit(TestLayout(w), init)
  }

  /** `testConstexpr()`: after reset, F1 = 2 and F2 = 3, the two fields read back sum to 5. */
  method TestConstexpr(w: Width, init: seq<nat>) returns (sum: nat)
    requires TbfWords(w, init)
    ensures sum == 5
  {
    TestLayoutShape(w);
    SmallPowers();
    var tb := new FieldSet(TestLayout(w), init);
    tb.ResetAll();
    tb.Set(F1, 2);
    tb.Set(F2, 3);
    sum := tb.Get(F1) + tb.Get(F2);
  }

  /** `testConstWordConstexpr()`: the same through one snapshot of word 0. */
  method TestConstWordConstexpr(w: Width, init: seq<nat>) returns (sum: nat)
    requires TbfWords(w, init)
    ensures sum == 5
  {
    TestLayoutShape(w);
    SmallPowers();
    var tb := new FieldSet(TestLayout(w), init);
    tb.ResetAll();
    tb.Set(F1, 2);
    tb.Set(F2, 3);
    var w0 := tb.Word(F1);
    sum := w0.Get(F1) + w0.Get(F2);
  }

  /** `BasicTest`: F1 = 3 and F2 = 2 read back; setting F2 left F1 alone. */
  method BasicTest(w: Width, init: seq<nat>) returns (f1: nat, f2: nat)
    requires TbfWords(w, init)
    ensures f1 == 3 && f2 == 2
  {
    TestLayoutShape(w);
    SmallPowers();
    var tb := new FieldSet(TestLayout(w), init);
    tb.ResetAll();
    tb.Set(F1, 3);
    tb.Set(F2, 2);
    f1 := tb.Get(F1);
    f2 := tb.Get(F2);
  }

  /**
   * `CascadedCV`: the word-0 snapshot gives F1 = 3 and F2 = 2; a copy taken
   * before `set<F2>(55)` on the original still gives 3 and 2 through the
   * chained `get<F1>(f1).get<F2>(f2)`.
   */
  method CascadedCV(w: Width, init: seq<nat>) returns (w0f1: nat, w0f2: nat, f1: nat, f2: nat)
    requires TbfWords(w, init)
    ensures w0f1 == 3 && w0f2 == 2
    ensures f1 == 3 && f2 == 2
  {
    TestLayoutShape(w);
    SmallPowers();
    var tb := new FieldSet(TestLayout(w), init);
    tb.ResetAll();
    tb.Set(F1, 3);
    tb.Set(F2, 2);
    var w0 := tb.Word(F1);
    w0f1 := w0.Get(F1);
    w0f2 := w0.Get(F2);
    var tbc := tb.Copy();
    tb.Set(F2, 55);
    var same;
    f1, same := tbc.GetInto(F1);
    f2, same := same.GetInto(F2);
  }
}
