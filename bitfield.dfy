/**
 * The bit field descriptor `BitField<TWord>`, its default member values, and
 * the sanity conditions a layout (an array of descriptors over a fixed number
 * of words) must meet.
 */
module BitFieldDef {
  import opened Bits
  import opened HalCommon
  import opened BitMasks

  /** Largest value of a 64-bit `size_t`. */
  const SIZE_MAX: nat := 0xFFFF_FFFF_FFFF_FFFF

  /** `BITFIELD_OFFSET_UNDEFINED`: the byte offset of a descriptor that does not give one. */
  const OFFSET_UNDEFINED: nat := SIZE_MAX

  /** Largest value of a `uint8_t` member (lsb, msb, compound offset). */
  const UINT8_MAX: nat := 0xFF

  /** One field of a layout; `def`, `min` and `max` are field values already shifted down to bit 0. */
  datatype BitField = BitField(
    byteOffset: nat,
    word: nat,
    lsb: nat,
    msb: nat,
    compoundOffset: nat,
    def: nat,
    min: nat,
    max: nat,
    access: AccessType,
    mayOverlap: bool)

  datatype Option<T> = None | Some(value: T)

  /** The members a designated initializer names explicitly; the others take their defaults. */
  datatype Designators = Designators(
    byteOffset: Option<nat>,
    word: Option<nat>,
    lsb: Option<nat>,
    msb: Option<nat>,
    compoundOffset: Option<nat>,
    def: Option<nat>,
    min: Option<nat>,
    max: Option<nat>,
    access: Option<AccessType>,
    mayOverlap: Option<bool>)

  /** An initializer that names no member at all (`{}`). */
  const NoDesignators := Designators(None, None, None, None, None, None, None, None, None, None)

  function OrElse<T>(o: Option<T>, default: T): (r: T)
  {
    if o.Some? then o.value else default
  }

  /**
   * Aggregate initialization of a `BitField<TWord>` for a w-bit TWord.
   * A member without a default member initializer (lsb, compound_offset,
   * def, min, max) is value-initialized to 0 when omitted. An explicit value
   * must fit its member's type: a narrowing conversion in a constant
   * initializer is rejected by the compiler.
   */
  function Declare(w: Width, d: Designators): (f: BitField)
    requires OrElse<nat>(d.byteOffset, 0) <= SIZE_MAX && OrElse<nat>(d.word, 0) <= SIZE_MAX
    requires OrElse<nat>(d.lsb, 0) <= UINT8_MAX && OrElse<nat>(d.msb, 0) <= UINT8_MAX
    requires OrElse<nat>(d.compoundOffset, 0) <= UINT8_MAX
    requires Fits(OrElse<nat>(d.def, 0), w) && Fits(OrElse<nat>(d.min, 0), w) && Fits(OrElse<nat>(d.max, 0), w)
    ensures d.byteOffset.None? ==> f.byteOffset == OFFSET_UNDEFINED
    ensures d.byteOffset.Some? ==> f.byteOffset == d.byteOffset.value
    ensures d.word.Some? ==> f.word == d.word.value
    ensures d.word.None? ==> f.word == WordIndex(f.byteOffset, w)
    ensures d.lsb.None? ==> f.lsb == 0
    ensures d.msb.None? ==> f.msb == w - 1
    ensures d.lsb.Some? ==> f.lsb == d.lsb.value
    ensures d.msb.Some? ==> f.msb == d.msb.value
    ensures f.compoundOffset == OrElse<nat>(d.compoundOffset, 0)
    ensures f.def == OrElse<nat>(d.def, 0) && f.min == OrElse<nat>(d.min, 0) && f.max == OrElse<nat>(d.max, 0)
    ensures d.access.None? ==> f.access == READ_WRITE
    ensures d.access.Some? ==> f.access == d.access.value
    ensures d.mayOverlap.None? ==> !f.mayOverlap
    ensures d.mayOverlap.Some? ==> f.mayOverlap == d.mayOverlap.value
    ensures f.word <= SIZE_MAX && f.lsb <= UINT8_MAX && f.msb <= UINT8_MAX
    ensures Fits(f.def, w) && Fits(f.min, w) && Fits(f.max, w)
  {
    var byteOffset := OrElse(d.byteOffset, OFFSET_UNDEFINED);
    BitField(
      byteOffset,
      if d.word.Some? then d.word.value else WordIndex(byteOffset, w),
      OrElse<nat>(d.lsb, 0),
      OrElse(d.msb, w - 1),
      OrElse<nat>(d.compoundOffset, 0),
      OrElse<nat>(d.def, 0),
      OrElse<nat>(d.min, 0),
      OrElse<nat>(d.max, 0),
      OrElse(d.access, READ_WRITE),
      OrElse(d.mayOverlap, false))
  }

  /**
   * `byte_offset / sizeof(TWord)`, the default of the word index: the word
   * that holds the given byte, never larger than the byte offset.
   */
  function WordIndex(byteOffset: nat, w: Width): (word: nat)
    ensures word <= byteOffset
    ensures w == 8 ==> word == byteOffset
    ensures w == 16 ==> 2 * word <= byteOffset < 2 * word + 2
    ensures w == 32 ==> 4 * word <= byteOffset < 4 * word + 4
    ensures w == 64 ==> 8 * word <= byteOffset < 8 * word + 8
  {
    match w
    case 8 => byteOffset
    case 16 => byteOffset / 2
    case 32 => byteOffset / 4
    case 64 => byteOffset / 8
  }

  /** The bit range is usable in a w-bit word. */
  predicate RangeOk(w: Width, f: BitField)
  {
    f.lsb <= f.msb < w
  }

  /** Number of bits of the field. */
  function FieldWidth(f: BitField): (n: nat)
    requires f.lsb <= f.msb
  {
    f.msb - f.lsb + 1
  }

  /** The field's bits within its word. */
  function FieldMask(w: Width, f: BitField): (m: nat)
    requires RangeOk(w, f)
  {
    BitMask(w, f.lsb, f.msb)
  }

  /** The field's mask has exactly the bits lsb through msb set. */
  lemma FieldMaskBits(w: Width, f: BitField, i: nat)
    requires RangeOk(w, f)
    ensures BitSet(FieldMask(w, f), i) <==> f.lsb <= i <= f.msb
  {
    BitMaskBits(w, f.lsb, f.msb, i);
  }

  /** The sanity conditions on one descriptor of a layout with wordCount words. */
  predicate FieldWellFormed(w: Width, wordCount: nat, f: BitField)
  {
    && RangeOk(w, f)
    && f.word < wordCount
    && (f.byteOffset != OFFSET_UNDEFINED ==> f.byteOffset == f.word * Bytes(w))
    && Fits(f.def, FieldWidth(f))
    && Fits(f.min, FieldWidth(f))
    && Fits(f.max, FieldWidth(f))
    && f.min <= f.max
  }

  /** Two fields subject to the overlap check lie in the same word and share a bit of their masks. */
  predicate Conflict(w: Width, f: BitField, g: BitField)
    requires RangeOk(w, f) && RangeOk(w, g)
  {
    !f.mayOverlap && !g.mayOverlap && f.word == g.word && And(FieldMask(w, f), FieldMask(w, g)) != 0
  }

  predicate AllRangesOk(w: Width, fs: seq<BitField>)
  {
    forall k :: 0 <= k < |fs| ==> RangeOk(w, fs[k])
  }

  /** No two distinct fields of the sequence conflict. */
  predicate NoOverlap(w: Width, fs: seq<BitField>)
    requires AllRangesOk(w, fs)
  {
    forall j, k :: 0 <= j < k < |fs| ==> !Conflict(w, fs[j], fs[k])
  }

  /** A layout: the word type's width, the number of words, the declared field count and the descriptors. */
  datatype Layout = Layout(width: Width, wordCount: nat, fieldCount: nat, fields: seq<BitField>)

  /**
   * The layout passes every sanity check; a field set over it may be built.
   * Its words are one object, so they span at most SIZE_MAX bytes.
   */
  predicate ValidLayout(l: Layout)
  {
    && l.wordCount * Bytes(l.width) <= SIZE_MAX
    && l.fieldCount == |l.fields|
    && (forall k :: 0 <= k < |l.fields| ==> FieldWellFormed(l.width, l.wordCount, l.fields[k]))
    && NoOverlap(l.width, l.fields)
  }

  /**
   * `word` is the one member a descriptor must give, directly or through
   * `byte_offset`: without either, the derived word index lies beyond every
   * word the storage can hold, so the descriptor fails the sanity checks.
   */
  lemma MissingWordRejected(w: Width, wordCount: nat, d: Designators)
    requires d.word.None? && d.byteOffset.None?
    requires OrElse<nat>(d.lsb, 0) <= UINT8_MAX && OrElse<nat>(d.msb, 0) <= UINT8_MAX
    requires OrElse<nat>(d.compoundOffset, 0) <= UINT8_MAX
    requires Fits(OrElse<nat>(d.def, 0), w) && Fits(OrElse<nat>(d.min, 0), w) && Fits(OrElse<nat>(d.max, 0), w)
    requires wordCount * Bytes(w) <= SIZE_MAX
    ensures !FieldWellFormed(w, wordCount, Declare(w, d))
  {
    WordIndexOfLastByte(w, wordCount);
    assert Declare(w, d).word == WordIndex(SIZE_MAX, w);
  }

  /** The word holding byte SIZE_MAX is not below the count of words that fit in SIZE_MAX bytes. */
  lemma WordIndexOfLastByte(w: Width, wordCount: nat)
    requires wordCount * Bytes(w) <= SIZE_MAX
    ensures wordCount <= WordIndex(SIZE_MAX, w)
  {
    match w
    case 8 => assert Bytes(w) == 1;
    case 16 => assert Bytes(w) == 2;
    case 32 => assert Bytes(w) == 4;
    case 64 => assert Bytes(w) == 8;
  }

  /** A nonzero word has a set bit. */
  lemma SomeBitOfNonzero(x: nat) returns (i: nat)
    requires x != 0
    ensures BitSet(x, i)
  {
    if forall j: nat :: !BitSet(x, j) {
      forall j: nat ensures BitSet(x, j) == BitSet(0, j) {
        NoBitsOfZero(j);
      }
      BitsDetermine(x, 0);
    }
    i :| BitSet(x, i);
  }

  /** The masks of two fields intersect exactly when their bit ranges do. */
  lemma {:induction false} MasksIntersect(w: Width, f: BitField, g: BitField)
    requires RangeOk(w, f) && RangeOk(w, g)
    ensures And(FieldMask(w, f), FieldMask(w, g)) != 0 <==> f.lsb <= g.msb && g.lsb <= f.msb
  {
    var both := And(FieldMask(w, f), FieldMask(w, g));
    if f.lsb <= g.msb && g.lsb <= f.msb {
      var i := if f.lsb < g.lsb then g.lsb else f.lsb;
      AndBits(FieldMask(w, f), FieldMask(w, g), i);
      BitMaskBits(w, f.lsb, f.msb, i);
      BitMaskBits(w, g.lsb, g.msb, i);
      NoBitsOfZero(i);
    } else if both != 0 {
      var i := SomeBitOfNonzero(both);
      AndBits(FieldMask(w, f), FieldMask(w, g), i);
      BitMaskBits(w, f.lsb, f.msb, i);
      BitMaskBits(w, g.lsb, g.msb, i);
      assert false;
    }
  }

  /** Overlap, stated on bit ranges: same word, both checked, ranges intersect. */
  lemma ConflictIffRangesIntersect(w: Width, f: BitField, g: BitField)
    requires RangeOk(w, f) && RangeOk(w, g)
    ensures Conflict(w, f, g) <==>
      !f.mayOverlap && !g.mayOverlap && f.word == g.word && f.lsb <= g.msb && g.lsb <= f.msb
    ensures Conflict(w, f, g) == Conflict(w, g, f)
  {
    MasksIntersect(w, f, g);
    MasksIntersect(w, g, f);
  }

  /** The overlap check, stated on bit ranges: overlap-checked fields of one word have ranges that do not intersect. */
  lemma NoOverlapIffRangesApart(w: Width, fs: seq<BitField>)
    requires AllRangesOk(w, fs)
    ensures NoOverlap(w, fs) <==>
      forall j, k :: 0 <= j < k < |fs| && !fs[j].mayOverlap && !fs[k].mayOverlap && fs[j].word == fs[k].word ==>
        fs[j].msb < fs[k].lsb || fs[k].msb < fs[j].lsb
  {
    forall j, k | 0 <= j < k < |fs|
      ensures Conflict(w, fs[j], fs[k]) <==>
        !fs[j].mayOverlap && !fs[k].mayOverlap && fs[j].word == fs[k].word && fs[j].lsb <= fs[k].msb && fs[k].lsb <= fs[j].msb
    {
      ConflictIffRangesIntersect(w, fs[j], fs[k]);
    }
  }

  /** In a valid layout, two distinct fields in the same word that are both subject to the overlap check share no bit. */
  lemma ValidLayoutDisjoint(l: Layout, j: nat, k: nat)
    requires ValidLayout(l)
    requires j < |l.fields| && k < |l.fields| && j != k
    requires l.fields[j].word == l.fields[k].word
    requires !l.fields[j].mayOverlap && !l.fields[k].mayOverlap
    ensures And(FieldMask(l.width, l.fields[j]), FieldMask(l.width, l.fields[k])) == 0
    ensures l.fields[j].msb < l.fields[k].lsb || l.fields[k].msb < l.fields[j].lsb
  {
    var f, g := l.fields[j], l.fields[k];
    assert RangeOk(l.width, f) && RangeOk(l.width, g);
    ConflictIffRangesIntersect(l.width, f, g);
    if j < k {
      assert !Conflict(l.width, f, g);
    } else {
      assert !Conflict(l.width, g, f);
    }
    MasksIntersect(l.width, f, g);
  }

  /** p lists every index below n exactly once. */
  predicate IsPermutation(p: seq<nat>, n: nat)
  {
    && |p| == n
    && (forall k :: 0 <= k < n ==> p[k] < n)
    && (forall j, k :: 0 <= j < k < n ==> p[j] != p[k])
    && (forall v :: 0 <= v < n ==> v in p)
  }

  /** Every index below n is listed by the permutation at some position. */
  lemma Preimage(p: seq<nat>, n: nat, v: nat) returns (j: nat)
    requires IsPermutation(p, n) && v < n
    ensures j < n && p[j] == v
  {
    assert v in p;
    j :| 0 <= j < |p| && p[j] == v;
  }

  /** If fs has no overlap, neither has its reordering gs. */
  lemma NoOverlapToReordered(w: Width, fs: seq<BitField>, p: seq<nat>, gs: seq<BitField>)
    requires IsPermutation(p, |fs|) && |gs| == |fs|
    requires forall k :: 0 <= k < |gs| ==> gs[k] == fs[p[k]]
    requires AllRangesOk(w, fs) && AllRangesOk(w, gs)
    requires NoOverlap(w, fs)
    ensures NoOverlap(w, gs)
  {
    forall j, k | 0 <= j < k < |gs|
      ensures !Conflict(w, gs[j], gs[k])
    {
      ConflictIffRangesIntersect(w, gs[j], gs[k]);
      if p[j] > p[k] {
        assert !Conflict(w, fs[p[k]], fs[p[j]]);
      } else {
        assert !Conflict(w, fs[p[j]], fs[p[k]]);
      }
    }
  }

  /** If the reordering gs has no overlap, neither has fs. */
  lemma NoOverlapFromReordered(w: Width, fs: seq<BitField>, p: seq<nat>, gs: seq<BitField>)
    requires IsPermutation(p, |fs|) && |gs| == |fs|
    requires forall k :: 0 <= k < |gs| ==> gs[k] == fs[p[k]]
    requires AllRangesOk(w, fs) && AllRangesOk(w, gs)
    requires NoOverlap(w, gs)
    ensures NoOverlap(w, fs)
  {
    forall a, b | 0 <= a < b < |fs|
      ensures !Conflict(w, fs[a], fs[b])
    {
      var j := Preimage(p, |fs|, a);
      var k := Preimage(p, |fs|, b);
      ConflictIffRangesIntersect(w, fs[a], fs[b]);
      if j < k {
        assert !Conflict(w, gs[j], gs[k]);
      } else {
        assert !Conflict(w, gs[k], gs[j]);
      }
    }
  }

  /** The overlap verdict does not depend on the order in which fields are declared. */
  lemma NoOverlapReorder(w: Width, fs: seq<BitField>, p: seq<nat>, gs: seq<BitField>)
    requires IsPermutation(p, |fs|) && |gs| == |fs|
    requires forall k :: 0 <= k < |gs| ==> gs[k] == fs[p[k]]
    requires AllRangesOk(w, fs)
    ensures AllRangesOk(w, gs)
    ensures NoOverlap(w, fs) <==> NoOverlap(w, gs)
  {
    assert AllRangesOk(w, gs);
    if NoOverlap(w, fs) {
      NoOverlapToReordered(w, fs, p, gs);
    }
    if NoOverlap(w, gs) {
      NoOverlapFromReordered(w, fs, p, gs);
    }
  }
}
