# bitfieldset — a verified model of the bit-field layer

This project models the bit-field layer of `bitfieldset`, a header-only C++
library for describing and accessing bit fields packed into machine words
(hardware registers, descriptors). The layer has four parts, and the model
follows them.

- **Common definitions** (`hal_common.dfy`, module `HalCommon`):
  - the word widths 8, 16, 32 and 64;
  - `bit<T>(pos)`;
  - the `AccessType` permission encoding, a 2-bit set of READ and WRITE.
- **Masks** (`bitmask.dfy`, module `BitMasks`): `bitMask<T>(lsb, msb)`, the word with bits `lsb..msb` set. It is built by the shift-and-OR construction, which never shifts by the full width.
- **Field descriptor and layout** (`bitfield.dfy`, module `BitFieldDef`):
  - `BitField<TWord>`, with the default value of every member that a designated initializer may leave out;
  - `BITFIELD_OFFSET_UNDEFINED`;
  - the sanity conditions a layout of descriptors over a number of words must meet, the overlap check among them.
- **Field set** (`field_set.dfy`, module `FieldSets`):
  - `class FieldSet` holds a layout and an array of words;
  - `ResetAll` and `Set` rewrite the set's words in place;
  - `Copy` allocates a new set holding the same layout and a copy of the words;
  - `Get`, `Word` (a one-word snapshot) and `GetInto` (the chained `get<F>(out)` form) only read;
  - each operation is proved against the value-level functions `Insert`/`Extract` (one word) and `Store`/`Load` (all words).
- **The test suite** (`bitfieldset_test.dfy`, module `BitFieldSetTest`):
  - the naive mask loop and the runtime comparison loop, as methods with loop invariants;
  - the boundary values of `bitMask`;
  - the six-field, five-word `TestBitFieldFlexDef` layout, proved valid;
  - the set/get/word/copy scenarios, as methods whose results are proved.

Words are natural numbers below 2^w. Bitwise operations (`And`, `Or`, `Not`,
`Shl`, `Shr`, `Trunc`) are defined bit by bit in module `Bits` (`bits.dfy`).
Each comes with a lemma saying which bits of its result are set. `BitsDetermine`
then turns bit facts into equalities of words.

## Model

| member | source | states |
|---|---|---|
| `HalCommon.Bit` | include/hal_common.hpp:14-18 | `bit<T>(pos)` for `pos < w` is a w-bit word equal to 2^pos (the shifted 1 converted back to the w-bit type) |
| `HalCommon.BitBits` | include/hal_common.hpp:14-18 | `bit<T>(pos)` has bit `pos` set and every other bit clear |
| `HalCommon.BitEnds` | include/hal_common.hpp:17 | `bit<T>(0) == 1`, and `bit<T>(w-1)` is the top bit of the word (twice it is 2^w) |
| `HalCommon.AllOnesBits` | tests/test_bitfieldset.cpp:58 | `static_cast<T>(-1)` has exactly the bits below w set |
| `HalCommon.AccessTypeEncoding` | include/hal_common.hpp:20-25 | NONE is 0, READ_ONLY is `bit(0)`, WRITE_ONLY is `bit(1)`, READ_WRITE is their OR; the four values are distinct |
| `HalCommon.AccessType.Readable` | include/hal_common.hpp:20-25 | an access type grants reading exactly when its value ANDed with READ_ONLY is nonzero |
| `HalCommon.AccessType.Writable` | include/hal_common.hpp:20-25 | an access type grants writing exactly when its value ANDed with WRITE_ONLY is nonzero |
| `HalCommon.AccessTypePermissions` | include/hal_common.hpp:20-25 | the read bit is held exactly by READ_ONLY and READ_WRITE, the write bit exactly by WRITE_ONLY and READ_WRITE; NONE has neither |
| `BitMasks.BitMask` | tests/test_bitfieldset.cpp:75-85 | `bitMask<T>(lsb, msb)` for `lsb <= msb < w` is a w-bit word |
| `BitMasks.BitMaskBits` | tests/test_bitfieldset.cpp:75-85 | for every `lsb <= msb < w`, `bitMask(lsb, msb)` has exactly the bits `lsb..msb` set, which is what the naive loop builds |
| `BitMasks.BitMaskValue` | tests/test_bitfieldset.cpp:51-61 | `bitMask(lsb, msb)` is the number `(2^(msb-lsb+1) - 1) * 2^lsb` |
| `BitMasks.BitMaskSingle` | tests/test_bitfieldset.cpp:57 | a one-bit mask `bitMask(pos, pos)` equals `bit<T>(pos)` |
| `BitMasks.BitMaskLow` | tests/test_bitfieldset.cpp:58-60 | `bitMask(0, k-1)` is `2^k - 1`, and for k = w it is `static_cast<T>(-1)` |
| `BitFieldDef.Declare` | include/bitfieldset.hpp:38-64 | a designated initializer keeps every member it gives; the omitted ones take their defaults: byte offset `BITFIELD_OFFSET_UNDEFINED`, word `byte_offset / sizeof(TWord)`, lsb, compound offset, def, min and max 0, msb w-1, access READ_WRITE, overlap checked; given members must fit their types |
| `BitFieldDef.WordIndex` | include/bitfieldset.hpp:44 | the derived word index is the word holding the byte: `word * sizeof(TWord) <= byte_offset < (word + 1) * sizeof(TWord)`, written out for each of the four word sizes |
| `BitFieldDef.FieldMaskBits` | include/bitfieldset.hpp:46-48 | a field's mask has exactly the bits `lsb..msb` set |
| `BitFieldDef.FieldWellFormed` | include/bitfieldset.hpp:11-13 | the sanity checks on one descriptor: bit range inside the word, word index below the word count, byte offset (when given) at the start of that word, default, minimum and maximum fitting the field, minimum not above maximum |
| `BitFieldDef.Conflict` | include/bitfieldset.hpp:62-63 | two descriptors conflict when both are overlap-checked, share a word and their masks share a bit |
| `BitFieldDef.NoOverlap` | include/bitfieldset.hpp:62-63 | no two distinct descriptors of the layout conflict |
| `BitFieldDef.ValidLayout` | include/bitfieldset.hpp:11-13 | a layout passes the sanity checks: its words fit in one object of at most `SIZE_MAX` bytes, the declared field count matches, every descriptor is well formed and none overlap |
| `BitFieldDef.MissingWordRejected` | include/bitfieldset.hpp:33 | `word` is required: a descriptor giving neither `.word` nor `.byte_offset` fails the sanity checks of every layout whose words fit in `SIZE_MAX` bytes |
| `BitFieldDef.NoOverlapIffRangesApart` | include/bitfieldset.hpp:62-63 | the overlap check passes exactly when every two overlap-checked descriptors of one word have bit ranges that lie apart |
| `BitFieldDef.MasksIntersect` | include/bitfieldset.hpp:62-63 | two fields' masks share a bit exactly when their bit ranges intersect |
| `BitFieldDef.ConflictIffRangesIntersect` | include/bitfieldset.hpp:62-63 | two fields conflict iff both are overlap-checked, share a word and have intersecting ranges; the relation is symmetric |
| `BitFieldDef.ValidLayoutDisjoint` | include/bitfieldset.hpp:11-13 | in a layout that passes the sanity checks, two distinct overlap-checked fields of the same word have disjoint masks and ranges |
| `BitFieldDef.NoOverlapReorder` | include/bitfieldset.hpp:11-13 | the overlap verdict is the same for any reordering of the descriptors |
| `FieldSets.Insert` | tests/test_bitfieldset.cpp:139-140 | the word after `set` is again a w-bit word |
| `FieldSets.InsertBit` | tests/test_bitfieldset.cpp:139-140 | after `set`, the field's bits are the low bits of the value and every other bit of the word is kept |
| `FieldSets.Extract` | tests/test_bitfieldset.cpp:142-145 | `get` yields a value that fits the field's width |
| `FieldSets.ExtractBitInside` | tests/test_bitfieldset.cpp:142-145 | bit i of the value `get` yields is bit `lsb + i` of the word, for i below the field width |
| `FieldSets.ExtractInsert` | tests/test_bitfieldset.cpp:135-146 | a value that fits the field reads back unchanged after it is written |
| `FieldSets.InsertFrame` | tests/test_bitfieldset.cpp:139-145 | writing a field, whatever the value, leaves every field with a disjoint range unchanged |
| `FieldSets.InsertExtract` | tests/test_bitfieldset.cpp:135-146 | writing back the value just read leaves the word as it was |
| `FieldSets.InsertInsert` | tests/test_bitfieldset.cpp:164-166 | of two writes to one field, the later one alone determines the word |
| `FieldSets.ExtractZero` | tests/test_bitfieldset.cpp:137 | every field of a cleared word reads 0 |
| `FieldSets.Load` | tests/test_bitfieldset.cpp:142-145 | the value of a field in a set of words fits the field's width |
| `FieldSets.Store` | tests/test_bitfieldset.cpp:139-140 | storing into a field keeps all words w-bit and changes no word but the field's own |
| `FieldSets.LoadStore` | tests/test_bitfieldset.cpp:135-146 | a stored value that fits its field loads back unchanged |
| `FieldSets.LoadStoreOther` | tests/test_bitfieldset.cpp:139-145 | storing into one field leaves every other overlap-checked field of a valid layout unchanged |
| `FieldSets.LoadZero` | tests/test_bitfieldset.cpp:137 | all-zero words load 0 for every field |
| `FieldSets.WordView.Get` | tests/test_bitfieldset.cpp:121-126 | a field read from a word snapshot fits the field's width |
| `FieldSets.CanGet` | include/bitfieldset.hpp:60-61 | `get` is allowed exactly on a field of the layout whose access is READ_ONLY or READ_WRITE |
| `FieldSets.CanSet` | include/bitfieldset.hpp:60-61 | `set` is allowed exactly on a field of the layout whose access is WRITE_ONLY or READ_WRITE |
| `FieldSets.FieldSet.constructor` | tests/test_bitfieldset.cpp:137 | a field set over a valid layout holds the given words in fresh storage |
| `FieldSets.FieldSet.Get` | tests/test_bitfieldset.cpp:112 | `get<F>()` is the field's value in the current words |
| `FieldSets.FieldSet.ResetAll` | tests/test_bitfieldset.cpp:107 | every word becomes 0 and every readable field then reads 0; field defaults are not applied |
| `FieldSets.FieldSet.Set` | tests/test_bitfieldset.cpp:139-140 | the new words are `Store` of the old; a fitting value reads back; every other overlap-checked readable field keeps its value |
| `FieldSets.FieldSet.Word` | tests/test_bitfieldset.cpp:157-160 | the snapshot of F's word gives, for every readable field of that word, the same value as `get` on the set |
| `FieldSets.FieldSet.GetInto` | tests/test_bitfieldset.cpp:168-169 | the chained form stores the field's value in the out-parameter and returns the same set |
| `FieldSets.FieldSet.Copy` | tests/test_bitfieldset.cpp:164 | a copy has the same layout and words in fresh storage, so later writes to the original do not reach it |
| `BitFieldSetTest.BitMaskNaive` | tests/test_bitfieldset.cpp:63-73 | the loop ORs `bit(i)` for i from lsb to msb; the result has exactly bits `lsb..msb` set (none when lsb > msb) and equals `bitMask` when `lsb <= msb` |
| `BitFieldSetTest.BitMaskTestRuntime` | tests/test_bitfieldset.cpp:75-85 | over all `lsb <= msb < w`, no comparison of `bitMask` with the naive loop fails |
| `BitFieldSetTest.BitMaskTestConst` | tests/test_bitfieldset.cpp:51-61 | for every width: `bitMask(0,0) == 1`, `bitMask(w-1,w-1) == bit(w-1)`, `bitMask(0,w-1)` is all ones, `bitMask(0,7) == 0xFF`, `bitMask(0,3) == 0xF` |
| `BitFieldSetTest.MaskOfBitZero` | tests/test_bitfieldset.cpp:56 | `bitMask(0, 0) == 1` for every width |
| `BitFieldSetTest.MaskOfLowByte` | tests/test_bitfieldset.cpp:59 | `bitMask(0, 7) == 0xFF` for every width |
| `BitFieldSetTest.MaskOfLowNibble` | tests/test_bitfieldset.cpp:60 | `bitMask(0, 3) == 0xF` for every width |
| `BitFieldSetTest.MaskOfLowThree` | tests/test_bitfieldset.cpp:37 | `bitMask(0, 2) == 0b111`, the mask of F1, for every width |
| `BitFieldSetTest.TestLayout` | tests/test_bitfieldset.cpp:12-44 | the test layout has the given word width, five words and six descriptors, as many as it declares |
| `BitFieldSetTest.TestLayoutFields` | tests/test_bitfieldset.cpp:37-42 | each descriptor of the test layout names only word, lsb and msb; every other member has its default |
| `BitFieldSetTest.TestLayoutWellFormed` | tests/test_bitfieldset.cpp:37-42 | every descriptor of the test layout is well formed over five words |
| `BitFieldSetTest.TestLayoutNoOverlap` | tests/test_bitfieldset.cpp:37-42 | no two descriptors of the test layout overlap |
| `BitFieldSetTest.TestLayoutValid` | tests/test_bitfieldset.cpp:12-44 | the six-field, five-word test layout passes every sanity check, for every word width |
| `BitFieldSetTest.TestLayoutPlacement` | tests/test_bitfieldset.cpp:37-42 | F1, F2, F3 split word 0 in ascending ranges ending at the top bit, F4 and F5 split word 1, F6 spans word 2, and every field is overlap-checked |
| `BitFieldSetTest.TestLayoutF1Mask` | tests/test_bitfieldset.cpp:37 | F1's mask is `0b111` |
| `BitFieldSetTest.TestLayoutF6Mask` | tests/test_bitfieldset.cpp:42 | F6's mask is the whole word |
| `BitFieldSetTest.TestLayoutShape` | tests/test_bitfieldset.cpp:37-38 | in the test layout, F1 and F2 are read-write, overlap-checked fields of one word, 3 and 2 bits wide |
| `BitFieldSetTest.OverlappingLayoutRejected` | include/bitfieldset.hpp:62-63 | two overlap-checked fields of one word sharing bit 2 have valid ranges but fail the overlap check, so the layout fails the sanity checks |
| `BitFieldSetTest.TestConstexpr` | tests/test_bitfieldset.cpp:103-113 | after reset, setting F1 = 2 and F2 = 3 makes the two fields read back to a sum of 5 |
| `BitFieldSetTest.TestConstWordConstexpr` | tests/test_bitfieldset.cpp:115-127 | the same values read through one snapshot of word 0 also sum to 5 |
| `BitFieldSetTest.BasicTest` | tests/test_bitfieldset.cpp:135-146 | after reset, setting F1 = 3 then F2 = 2, F1 reads 3 and F2 reads 2 |
| `BitFieldSetTest.CascadedCV` | tests/test_bitfieldset.cpp:148-172 | the word-0 snapshot reads F1 = 3 and F2 = 2; a copy taken before `set<F2>(55)` on the original still reads 3 and 2 through the chained `get` |

## Left out

- `include/arch/riscv/rv_csr.hpp` and `include/arch/riscv/rv_types.hpp` are not part of this model. They hold the CSR numbers, the `csrr`/`csrw` inline assembly with its dispatch tables, and the XLEN type choice: architecture I/O with no behaviour to prove.
- The source text of the `bitMask` definition and of the `BitFieldSet` class header is not part of this model; both are still modelled, from their documented behaviour and the tests.
  - `BitMasks.BitMask` follows the documented shift-and-OR construction `((1 << span) | ((1 << span) - 1)) << lsb`.
  - `class FieldSet` follows the documented accessor: `set` is the read-modify-write `(word & ~mask) | ((value << lsb) & mask)` (`Insert`), `get` is `(word & mask) >> lsb` (`Extract`), and the permission, word and layout checks happen at compile time.
  - Some lemmas go beyond what the tests assert: `FieldSets.InsertExtract`, `FieldSets.InsertInsert`, `FieldSets.InsertFrame`, `BitMasks.BitMaskValue`, and the truncated, masked write of a value wider than its field.
- The validator's code is not part of this model either. `BitFieldDef.ValidLayout` states the checks declaratively:
  - the words of the layout fitting in one object of at most `SIZE_MAX` bytes;
  - declared field count;
  - word index below the word count and bit range inside the word;
  - byte offset consistent with the word;
  - default, minimum and maximum fitting the field width, and minimum not above maximum;
  - no overlap between overlap-checked fields of one word.

  The validator's per-word accumulator and its list of failed checks are not modelled.
- Compile-time rejection is modelled as preconditions. This covers:
  - a `set` on a field without the write permission, and a `get` without the read permission;
  - a `word<F>` snapshot asked for a field of another word;
  - an invalid layout;
  - a narrowing designated initializer;
  - `bitMask(lsb, msb)` with `msb < lsb` or `msb >= w` (`BitMasks.BitMask` requires `lsb <= msb < w`).
- `volatile` and `const volatile` variants are modelled as plain reads of the same words, because they only change memory-access semantics. The number and width of memory accesses is not modelled either. This covers tests/test_bitfieldset.cpp:174-185.
- `std::is_trivial`/`std::is_standard_layout` and the `consteval` versus runtime distinction are C++ type-system and evaluation-time facts, and are not modelled.
- `compound_offset` is carried in the descriptor but used by nothing in the model, as in the source.
- Storage that the tests leave uninitialised before `resetAll()` is modelled as caller-supplied initial words (any w-bit words).
- `size_t` is taken to be 64 bits wide (`SIZE_MAX`, `BITFIELD_OFFSET_UNDEFINED`).
- BitFieldSetTest.CascadedCV: the value the original set holds after `set<F2>(55)`, a value wider than F2, is not stated, because the test asserts nothing about it. `Set` still defines the resulting word as the truncated, masked write.
- The test scenarios are stated for every word width, not only for the `uint32_t` that `TBF` uses. The 32-bit case is one instance.
