/**
 * The field-set accessor `BitFieldSet<Def>`: a fixed array of words over a
 * valid layout, read and written one field at a time.
 *
 * A write is a read-modify-write of the field's word,
 * `word = (word & ~mask) | ((value << lsb) & mask)`, and a read is
 * `(word & mask) >> lsb`; both are first given as functions on a single word
 * (`Insert`, `Extract`) and then used by the class.
 */
module FieldSets {
  import opened Bits
  import opened HalCommon
  import opened BitMasks
  import opened BitFieldDef

  /** The word after writing v into field f (the value is truncated to the word, then masked). */
  function Insert(w: Width, word: nat, f: BitField, v: nat): (r: nat)
    requires RangeOk(w, f)
    ensures Fits(r, w)
  {
    var r := Or(And(word, Not(FieldMask(w, f), w)), And(Trunc(Shl(v, f.lsb), w), FieldMask(w, f)));
    forall i: nat | w <= i
      ensures !BitSet(r, i)
    {
      MaskedWriteBits(w, word, FieldMask(w, f), v, f.lsb, i);
    }
    BoundFromBits(r, w);
    r
  }

  /** Bit i of `(word & ~m) | ((v << n) & m)` in a w-bit word, for any mask m. */
  lemma MaskedWriteBits(w: nat, word: nat, m: nat, v: nat, n: nat, i: nat)
    ensures BitSet(Or(And(word, Not(m, w)), And(Trunc(Shl(v, n), w), m)), i) ==
      (i < w && if BitSet(m, i) then n <= i && BitSet(v, i - n) else BitSet(word, i))
  {
    OrBits(And(word, Not(m, w)), And(Trunc(Shl(v, n), w), m), i);
    AndBits(word, Not(m, w), i);
    NotBits(m, w, i);
    AndBits(Trunc(Shl(v, n), w), m, i);
    TruncBits(Shl(v, n), w, i);
    ShlBits(v, n, i);
  }

  /** Where the mask is set, bit n + k of the written word is bit k of v. */
  lemma MaskedWriteInside(w: nat, word: nat, m: nat, v: nat, n: nat, k: nat)
    requires k + n < w && BitSet(m, k + n)
    ensures BitSet(Or(And(word, Not(m, w)), And(Trunc(Shl(v, n), w), m)), k + n) == BitSet(v, k)
  {
    MaskedWriteBits(w, word, m, v, n, k + n);
  }

  /** Bit i of the word after a write. */
  lemma InsertBit(w: Width, word: nat, f: BitField, v: nat, i: nat)
    requires RangeOk(w, f)
    ensures BitSet(Insert(w, word, f, v), i) <==>
      if f.lsb <= i <= f.msb then BitSet(v, i - f.lsb) else i < w && BitSet(word, i)
  {
    MaskedWriteBits(w, word, FieldMask(w, f), v, f.lsb, i);
    FieldMaskBits(w, f, i);
  }

  /** The value of field f in the word, shifted down to bit 0. */
  function Extract(w: Width, word: nat, f: BitField): (r: nat)
    requires RangeOk(w, f)
    ensures Fits(r, FieldWidth(f))
  {
    var r := Shr(And(word, FieldMask(w, f)), f.lsb);
    forall i: nat | FieldWidth(f) <= i
      ensures !BitSet(r, i)
    {
      MaskedReadBits(word, FieldMask(w, f), f.lsb, i);
      FieldMaskBits(w, f, i + f.lsb);
    }
    BoundFromBits(r, FieldWidth(f));
    r
  }

  /** Bit i of `(word & m) >> n`, for any mask m. */
  lemma MaskedReadBits(word: nat, m: nat, n: nat, i: nat)
    ensures BitSet(Shr(And(word, m), n), i) == (BitSet(word, i + n) && BitSet(m, i + n))
  {
    ShrBits(And(word, m), n, i);
    AndBits(word, m, i + n);
  }

  /** Inside the field, bit lsb + k of the new word is bit k of the value. */
  lemma InsertBitInside(w: Width, word: nat, f: BitField, v: nat, k: nat)
    requires RangeOk(w, f) && k < FieldWidth(f)
    ensures BitSet(Insert(w, word, f, v), k + f.lsb) == BitSet(v, k)
  {
    FieldMaskBits(w, f, k + f.lsb);
    MaskedWriteInside(w, word, FieldMask(w, f), v, f.lsb, k);
  }

  /** Outside the field, the new word keeps the bits of the old word that lie inside the word. */
  lemma InsertBitOutside(w: Width, word: nat, f: BitField, v: nat, i: nat)
    requires RangeOk(w, f) && !(f.lsb <= i <= f.msb)
    ensures BitSet(Insert(w, word, f, v), i) == (i < w && BitSet(word, i))
  {
    InsertBit(w, word, f, v, i);
  }

  /** Bit k of a field's value, for k below the field's width. */
  lemma ExtractBitInside(w: Width, word: nat, f: BitField, k: nat)
    requires RangeOk(w, f) && k < FieldWidth(f)
    ensures BitSet(Extract(w, word, f), k) == BitSet(word, k + f.lsb)
  {
    MaskedReadBits(word, FieldMask(w, f), f.lsb, k);
    FieldMaskBits(w, f, k + f.lsb);
  }

  /** A field's value has no bit at or above the field's width. */
  lemma ExtractBitOutside(w: Width, word: nat, f: BitField, i: nat)
    requires RangeOk(w, f) && FieldWidth(f) <= i
    ensures !BitSet(Extract(w, word, f), i)
  {
    BitsAboveClear(Extract(w, word, f), FieldWidth(f), i);
  }

  /** Reading a field back after writing a value that fits it yields that value. */
  lemma {:induction false} ExtractInsert(w: Width, word: nat, f: BitField, v: nat)
    requires RangeOk(w, f) && Fits(v, FieldWidth(f))
    ensures Extract(w, Insert(w, word, f, v), f) == v
  {
    var r := Extract(w, Insert(w, word, f, v), f);
    forall i: nat
      ensures BitSet(r, i) == BitSet(v, i)
    {
      if i < FieldWidth(f) {
        ExtractBitInside(w, Insert(w, word, f, v), f, i);
        InsertBitInside(w, word, f, v, i);
      } else {
        ExtractBitOutside(w, Insert(w, word, f, v), f, i);
        BitsAboveClear(v, FieldWidth(f), i);
      }
    }
    BitsDetermine(r, v);
  }

  /** Writing field f, whatever the value, leaves every field disjoint from f unchanged. */
  lemma {:induction false} InsertFrame(w: Width, word: nat, f: BitField, v: nat, g: BitField)
    requires RangeOk(w, f) && RangeOk(w, g)
    requires f.msb < g.lsb || g.msb < f.lsb
    requires Fits(word, w)
    ensures Extract(w, Insert(w, word, f, v), g) == Extract(w, word, g)
  {
    var a, b := Extract(w, Insert(w, word, f, v), g), Extract(w, word, g);
    forall i: nat
      ensures BitSet(a, i) == BitSet(b, i)
    {
      if i < FieldWidth(g) {
        InsertFrameInside(w, word, f, v, g, i);
      } else {
        ExtractBitOutside(w, Insert(w, word, f, v), g, i);
        ExtractBitOutside(w, word, g, i);
      }
    }
    BitsDetermine(a, b);
  }

  /** Bit k of field g reads the same before and after a write to the disjoint field f. */
  lemma InsertFrameInside(w: Width, word: nat, f: BitField, v: nat, g: BitField, k: nat)
    requires RangeOk(w, f) && RangeOk(w, g) && k < FieldWidth(g)
    requires f.msb < g.lsb || g.msb < f.lsb
    ensures BitSet(Extract(w, Insert(w, word, f, v), g), k) == BitSet(Extract(w, word, g), k)
  {
    ExtractBitInside(w, Insert(w, word, f, v), g, k);
    ExtractBitInside(w, word, g, k);
    InsertBitElsewhere(w, word, f, v, g, k);
  }

  /** Bit lsb + k of a field g disjoint from f is kept by a write to f. */
  lemma InsertBitElsewhere(w: Width, word: nat, f: BitField, v: nat, g: BitField, k: nat)
    requires RangeOk(w, f) && RangeOk(w, g) && k < FieldWidth(g)
    requires f.msb < g.lsb || g.msb < f.lsb
    ensures BitSet(Insert(w, word, f, v), k + g.lsb) == BitSet(word, k + g.lsb)
  {
    InsertBitOutside(w, word, f, v, k + g.lsb);
  }

  /** Writing back the value just read leaves the word as it was. */
  lemma {:induction false} InsertExtract(w: Width, word: nat, f: BitField)
    requires RangeOk(w, f) && Fits(word, w)
    ensures Insert(w, word, f, Extract(w, word, f)) == word
  {
    var r := Insert(w, word, f, Extract(w, word, f));
    forall i: nat
      ensures BitSet(r, i) == BitSet(word, i)
    {
      if f.lsb <= i <= f.msb {
        InsertExtractInside(w, word, f, i - f.lsb);
      } else {
        InsertBitOutside(w, word, f, Extract(w, word, f), i);
        if i >= w {
          BitsAboveClear(word, w, i);
        }
      }
    }
    BitsDetermine(r, word);
  }

  /** Inside the field, writing back the value just read restores each bit. */
  lemma InsertExtractInside(w: Width, word: nat, f: BitField, k: nat)
    requires RangeOk(w, f) && k < FieldWidth(f)
    ensures BitSet(Insert(w, word, f, Extract(w, word, f)), k + f.lsb) == BitSet(word, k + f.lsb)
  {
    InsertBitInside(w, word, f, Extract(w, word, f), k);
    ExtractBitInside(w, word, f, k);
  }

  /** Of two writes to the same field, the second wins. */
  lemma {:induction false} InsertInsert(w: Width, word: nat, f: BitField, v1: nat, v2: nat)
    requires RangeOk(w, f)
    ensures Insert(w, Insert(w, word, f, v1), f, v2) == Insert(w, word, f, v2)
  {
    var a, b := Insert(w, Insert(w, word, f, v1), f, v2), Insert(w, word, f, v2);
    forall i: nat
      ensures BitSet(a, i) == BitSet(b, i)
    {
      InsertBit(w, Insert(w, word, f, v1), f, v2, i);
      InsertBit(w, word, f, v1, i);
      InsertBit(w, word, f, v2, i);
    }
    BitsDetermine(a, b);
  }

  /** Every field of a cleared word reads 0. */
  lemma {:induction false} ExtractZero(w: Width, f: BitField)
    requires RangeOk(w, f)
    ensures Extract(w, 0, f) == 0
  {
    var r := Extract(w, 0, f);
    forall i: nat
      ensures BitSet(r, i) == BitSet(0, i)
    {
      NoBitsOfZero(i);
      if i < FieldWidth(f) {
        ExtractBitInside(w, 0, f, i);
        NoBitsOfZero(i + f.lsb);
      } else {
        ExtractBitOutside(w, 0, f, i);
      }
    }
    BitsDetermine(r, 0);
  }

  /** Every word of ws is a word of the layout's width. */
  predicate WordsFit(l: Layout, ws: seq<nat>)
  {
    |ws| == l.wordCount && forall k :: 0 <= k < |ws| ==> Fits(ws[k], l.width)
  }

  /** The value of field f in the words ws. */
  function Load(l: Layout, ws: seq<nat>, f: nat): (r: nat)
    requires ValidLayout(l) && |ws| == l.wordCount && f < |l.fields|
    ensures Fits(r, FieldWidth(l.fields[f]))
  {
    assert FieldWellFormed(l.width, l.wordCount, l.fields[f]);
    Extract(l.width, ws[l.fields[f].word], l.fields[f])
  }

  /** The words ws after writing v into field f: only f's word changes. */
  function Store(l: Layout, ws: seq<nat>, f: nat, v: nat): (r: seq<nat>)
    requires ValidLayout(l) && WordsFit(l, ws) && f < |l.fields|
    ensures WordsFit(l, r)
    ensures forall k :: 0 <= k < |ws| && k != l.fields[f].word ==> r[k] == ws[k]
  {
    var fd := l.fields[f];
    assert FieldWellFormed(l.width, l.wordCount, fd);
    ws[fd.word := Insert(l.width, ws[fd.word], fd, v)]
  }

  /** A stored value that fits the field loads back unchanged. */
  lemma LoadStore(l: Layout, ws: seq<nat>, f: nat, v: nat)
    requires ValidLayout(l) && WordsFit(l, ws) && f < |l.fields|
    requires Fits(v, FieldWidth(l.fields[f]))
    ensures Load(l, Store(l, ws, f, v), f) == v
  {
    assert FieldWellFormed(l.width, l.wordCount, l.fields[f]);
    ExtractInsert(l.width, ws[l.fields[f].word], l.fields[f], v);
  }

  /** Storing into f, whatever the value, leaves every other field subject to the overlap check as it was. */
  lemma LoadStoreOther(l: Layout, ws: seq<nat>, f: nat, v: nat, g: nat)
    requires ValidLayout(l) && WordsFit(l, ws) && f < |l.fields| && g < |l.fields| && g != f
    requires !l.fields[f].mayOverlap && !l.fields[g].mayOverlap
    ensures Load(l, Store(l, ws, f, v), g) == Load(l, ws, g)
  {
    var fd, gd := l.fields[f], l.fields[g];
    assert FieldWellFormed(l.width, l.wordCount, fd);
    assert FieldWellFormed(l.width, l.wordCount, gd);
    if gd.word == fd.word {
      ValidLayoutDisjoint(l, f, g);
      InsertFrame(l.width, ws[fd.word], fd, v, gd);
    }
  }

  /** Every field of all-zero words loads 0. */
  lemma LoadZero(l: Layout, ws: seq<nat>, f: nat)
    requires ValidLayout(l) && |ws| == l.wordCount && f < |l.fields|
    requires forall k :: 0 <= k < |ws| ==> ws[k] == 0
    ensures Load(l, ws, f) == 0
  {
    assert FieldWellFormed(l.width, l.wordCount, l.fields[f]);
    ExtractZero(l.width, l.fields[f]);
  }

  /** The field may be read. */
  predicate CanGet(l: Layout, f: nat)
    ensures CanGet(l, f) <==> f < |l.fields| && (l.fields[f].access == READ_ONLY || l.fields[f].access == READ_WRITE)
  {
    f < |l.fields| && l.fields[f].access.Readable()
  }

  /** The field may be written. */
  predicate CanSet(l: Layout, f: nat)
    ensures CanSet(l, f) <==> f < |l.fields| && (l.fields[f].access == WRITE_ONLY || l.fields[f].access == READ_WRITE)
  {
    f < |l.fields| && l.fields[f].access.Writable()
  }

  /**
   * The result of `word<F>()`: one read of word `index` of a field set over
   * `layout`, from which any field held in that word can be extracted.
   */
  datatype WordView = WordView(layout: Layout, index: nat, value: nat)
  {
    /** `get<G>()` on the snapshot; asking for a field of another word is rejected. */
    function Get(g: nat): (r: nat)
      requires ValidLayout(layout) && CanGet(layout, g)
      requires layout.fields[g].word == index
      ensures Fits(r, FieldWidth(layout.fields[g]))
    {
      assert FieldWellFormed(layout.width, layout.wordCount, layout.fields[g]);
      Extract(layout.width, value, layout.fields[g])
    }
  }

  /** A set of bit fields stored in `layout.wordCount` words of `layout.width` bits. */
  class FieldSet {
    const layout: Layout
    const words: array<nat>

    ghost predicate Valid()
      reads words
    {
      ValidLayout(layout) && WordsFit(layout, words[..])
    }

    /** A field set over a valid layout, holding the given initial words. */
    constructor (layout: Layout, init: seq<nat>)
      requires ValidLayout(layout) && WordsFit(layout, init)
      ensures Valid() && this.layout == layout && fresh(words) && words[..] == init
    {
      this.layout := layout;
      words := new nat[|init|](k requires 0 <= k < |init| => init[k]);
    }

    /** `get<F>()`: the value of field f. */
    function Get(f: nat): (r: nat)
      reads words
      requires Valid() && CanGet(layout, f)
      ensures r == Load(layout, words[..], f)
    {
      assert FieldWellFormed(layout.width, layout.wordCount, layout.fields[f]);
      Extract(layout.width, words[layout.fields[f].word], layout.fields[f])
    }

    /** `resetAll()`: every word becomes 0, so every field reads 0 (field defaults are not applied). */
    method ResetAll()
      requires Valid()
      modifies words
      ensures Valid()
      ensures forall k :: 0 <= k < words.Length ==> words[k] == 0
      ensures forall f: nat :: CanGet(layout, f) ==> Get(f) == 0
    {
      forall k | 0 <= k < words.Length {
        words[k] := 0;
      }
      forall f: nat | CanGet(layout, f)
        ensures Get(f) == 0
      {
        LoadZero(layout, words[..], f);
      }
    }

    /**
     * `set<F>(v)`: rewrites the word holding field f. A value that fits the
     * field reads back unchanged; every other field subject to the overlap
     * check keeps its value, whatever v is.
     */
    method Set(f: nat, v: nat)
      requires Valid() && CanSet(layout, f)
      modifies words
      ensures Valid()
      ensures words[..] == Store(layout, old(words[..]), f, v)
      ensures CanGet(layout, f) && Fits(v, FieldWidth(layout.fields[f])) ==> Get(f) == v
      ensures forall g: nat :: (CanGet(layout, g) && g != f && !layout.fields[f].mayOverlap &&
        !layout.fields[g].mayOverlap) ==> Get(g) == old(Get(g))
    {
      var fd := layout.fields[f];
      assert FieldWellFormed(layout.width, layout.wordCount, fd);
      ghost var before := words[..];
      words[fd.word] := Insert(layout.width, words[fd.word], fd, v);
      assert words[..] == Store(layout, before, f, v);
      if CanGet(layout, f) && Fits(v, FieldWidth(fd)) {
        LoadStore(layout, before, f, v);
      }
      forall g: nat | CanGet(layout, g) && g != f && !fd.mayOverlap && !layout.fields[g].mayOverlap
        ensures Get(g) == Load(layout, before, g)
      {
        LoadStoreOther(layout, before, f, v, g);
      }
    }

    /** `word<F>()`: a snapshot of the word holding f; every field of that word reads from it as from the set. */
    function Word(f: nat): (view: WordView)
      reads words
      requires Valid() && f < |layout.fields|
      ensures view.layout == layout && view.index == layout.fields[f].word
      ensures forall g: nat :: CanGet(layout, g) && layout.fields[g].word == view.index ==> view.Get(g) == Get(g)
    {
      assert FieldWellFormed(layout.width, layout.wordCount, layout.fields[f]);
      WordView(layout, layout.fields[f].word, words[layout.fields[f].word])
    }

    /** The chained `get<F>(out)` form: stores the field's value and returns the same set. */
    method GetInto(f: nat) returns (value: nat, self: FieldSet)
      requires Valid() && CanGet(layout, f)
      ensures self == this && value == Get(f)
    {
      value := Get(f);
      self := this;
    }

    /** Copying a field set copies its words into new storage. */
    method Copy() returns (c: FieldSet)
      requires Valid()
      ensures fresh(c) && fresh(c.words)
      ensures c.Valid() && c.layout == layout && c.words[..] == words[..]
    {
      c := new FieldSet(layout, words[..]);
    }
  }
}
