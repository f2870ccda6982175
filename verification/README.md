# A verified model of `bitfield!`

The `bitfield!` macro of `mycelium-bitfield` generates a typed wrapper around
one unsigned integer `T` (`u8`, `u16`, `u32`, `u64` or `usize`). The wrapper
carves the integer into named, contiguous bit ranges called packing specs.
This project models what the generated code does and proves what its
documentation promises.

- **Layout.** The `@field` arms lay the declared fields out from bit 0 upwards, in declaration order. This is modelled in `Layout.Fields` and `Layout.Chain`. The `FIELDS` table is `Bitfields.Struct.Table`, and `Bitfields.TableFollowsDecls` proves it is that layout. `assert_valid` is `Bitfields.Struct.AssertValid` over `Registry.AssertAllValid`.
- **Values.**
  - `new`, `from_bits`, `with`, `get` and `try_get` are pure functions on a value datatype, `Bitfields.Bitfield`.
  - `set` mutates in place, so it is a method of the class `Bitfields.MutBitfield`.
  - Packing itself is the mask-and-shift arithmetic of the packing specs (`Pack`). It works over the word's bits (`Word`), and each operator is related to `/` and `%`.
  - How a value type becomes bits and back (the `FromBits` trait) is a `Codecs.Codec`.
- **Display.**
  - The `Display` impl is first specified as a function of the struct and the word (`Display.DisplayText`).
  - The generated `fmt` is then written as the imperative loops it is (`Display.Fmt` and its helper methods), each proved equal to the function.
  - Lemmas state what the picture shows: segment widths, connector positions, column alignment, the bits in brackets, and exactly when `get` panics inside it.
- **Examples and tests.** `Examples` and `Tests` instantiate the model on the documentation's `MyBitfield<u16>` and `TypedBitfield<u32>` and on the unit tests' `TestBitfield<u32>`. They prove the documented values, including the documented `Display` output line by line.

A panic of `get` is the precondition `TryGet(p).Ok?` of `Get`. Inside `Debug` and `Display`, a panic is a `None` result.

Two readings of the generated code worth stating:
- `most_significant_index()` is the exclusive top of a field, `offset + width` (`Pack.Field.MostSignificantIndex`). This is what makes the cursor loops of `fmt` reproduce the documented ruler (14 leading blanks, bitfield/src/bitfield.rs:250-251), and it keeps `cur_pos` from going below zero on the lowest field.
- `Debug` prints every declared field, reserved `_` fields included, because bitfield/src/bitfield.rs:289-291 emit one `dbg.field` per `$Field`.

## Model

| member | source | states |
|---|---|---|
| Codecs.Raw8Lawful | bitfield/src/bitfield.rs:152-154 | A `u8` packs verbatim: its bits fit in 8 and `try_from_bits` gives the value back. |
| Codecs.Raw16Lawful | bitfield/src/bitfield.rs:77-83 | A `u16` packs verbatim: its bits fit in 16 and read back unchanged. |
| Codecs.Raw32Lawful | bitfield/src/bitfield.rs:143-145 | A `u32` (raw `= n` fields of a `u32` word) packs verbatim and reads back unchanged. |
| Codecs.Raw64Lawful | bitfield/src/bitfield.rs:13-15 | A `u64`/`usize` word packs verbatim and reads back unchanged. |
| Codecs.FlagLawful | bitfield/src/bitfield.rs:147-150 | `bool` is a one-bit flag; every flag reads back as written. |
| Pack.PackBitsAt | bitfield/src/bitfield.rs:21-22 | Packing sets each bit inside the field to the matching bit of the value and leaves every bit outside it as it was. |
| Pack.PackThenUnpack | bitfield/src/bitfield.rs:323-330 | Reading a field after packing it gives the value modulo 2^width: a too-wide value is truncated, never spilled. |
| Pack.UnpackBitsIsArithmetic | bitfield/src/bitfield.rs:358-373 | `unpack_bits` is `(raw / 2^offset) % 2^width`. |
| Pack.UnpackBitsBelow | bitfield/src/bitfield.rs:343-356 | A field's contents are below 2^width. |
| Pack.UnpackBitsAt | bitfield/src/bitfield.rs:343-356 | Bit i of a field's contents is bit offset + i of the word below the width, and 0 from the width up. |
| Pack.PackOverwrites | bitfield/src/bitfield.rs:323-330 | A second pack into the same field replaces the first entirely. |
| Pack.PackIdempotent | bitfield/src/bitfield.rs:323-330 | Packing the same value twice is packing it once. |
| Pack.PackDisjointCommute | bitfield/src/bitfield.rs:323-330 | Packs into fields sharing no bit commute. |
| Pack.PackPreservesDisjoint | bitfield/src/bitfield.rs:323-330 | Packing one field leaves what every disjoint field reads unchanged. |
| Pack.RoundTrip | bitfield/src/bitfield.rs:21-24 | `try_unpack` after `pack` returns `Ok(v)` for every value of a lawful type whose bits fit the field, whatever the word held. |
| Pack.TypedRoundTrip | bitfield/src/bitfield.rs:534-542 | A field declared with a type (`then`/`first`) is `V::BITS` wide, so every value of a lawful type round-trips. |
| Layout.ChainShape | bitfield/src/bitfield.rs:517-545 | The chain after `prev` starts at `prev`'s top, has no gaps, one entry per declaration with its name and declared width, and a `= ..` field only last, reaching the top of the word. |
| Layout.LayoutShape | bitfield/src/bitfield.rs:546-564 | A laid-out table starts at bit 0, has no gaps, and holds one entry per declaration, in declaration order, as wide as declared. |
| Layout.ChainDefined | bitfield/src/bitfield.rs:517-523 | The chain is accepted when `= ..` appears at most last and the fields below it fit in the word. |
| Layout.ChainDefinedOnlyIf | bitfield/src/bitfield.rs:517-545 | Conversely, an accepted chain has `= ..` at most last and room for it. |
| Layout.LayoutDefined | bitfield/src/bitfield.rs:517-564 | The macro accepts a declaration list exactly when it is non-empty, does not start with `= ..`, has `= ..` at most last, and leaves `remaining()` a non-negative width. |
| Registry.AssertAllValidIff | bitfield/src/bitfield.rs:378-380 | `assert_all_valid` returns normally exactly on a table whose fields fit the word, pairwise share no bit, and are ordered among non-reserved names. |
| Registry.OverlapRejected | bitfield/src/bitfield.rs:378-380 | Two fields sharing a bit make `assert_all_valid` panic. |
| Registry.ContiguousOrdered | bitfield/src/bitfield.rs:546-564 | In a gap-free table every field lies at or above the top of every earlier one. |
| Registry.LayoutValid | bitfield/src/bitfield.rs:378-380 | A layout the macro produces, with no empty field, passes `assert_all_valid` exactly when its last field fits in the word. |
| Bitfields.ColumnOf | bitfield/src/bitfield.rs:289-291 | The column of a typed field keeps its name and erased spec. It renders exactly the bit patterns its type's `try_from_bits` accepts, and the text it gives is the `{:?}` rendering of the decoded value. |
| Bitfields.TableFollowsDecls | bitfield/src/bitfield.rs:309-311 | For a struct whose columns carry the declarations' names and the fields the `@field` arms lay out, `FIELDS` is exactly that layout. It starts at bit 0 with no gaps and has one entry per declaration, reserved ones included, in declaration order, each as wide as declared. |
| Bitfields.Struct.AssertValid | bitfield/src/bitfield.rs:378-380 | `assert_valid` returns normally exactly when `FIELDS` is a valid table for the word. |
| Bitfields.Bitfield.With | bitfield/src/bitfield.rs:323-330 | The result stays below 2^n; each bit inside the field is the matching bit of `into_bits(value)`, and each other bit is copied from the receiver. |
| Bitfields.Bitfield.TryGet | bitfield/src/bitfield.rs:358-373 | `try_get` is `try_from_bits` of `(raw >> offset) & (2^width - 1)`, written arithmetically. |
| Bitfields.Bitfield.Get | bitfield/src/bitfield.rs:343-356 | `get` is defined exactly where `try_get` succeeds (elsewhere it panics) and returns the value `try_get` would. |
| Bitfields.NewIsZero | bitfield/src/bitfield.rs:318-321 | `new()` has no bit set, and every field of it reads 0. |
| Bitfields.FromBitsUnchecked | bitfield/src/bitfield.rs:313-316 | `from_bits` wraps any word verbatim; an invalid pattern surfaces only as `try_get`'s error on that field. |
| Bitfields.GetAfterWith | bitfield/src/bitfield.rs:21-24 | `get`/`try_get` after `with` on the same field return the value written, for every value of a lawful type whose bits fit in the field (a raw `= n` field included). |
| Bitfields.WithKeepsOtherFields | bitfield/src/bitfield.rs:323-330 | `with` on one field leaves `try_get` of every disjoint field unchanged. |
| Bitfields.WithOverwrites | bitfield/src/bitfield.rs:323-330 | A second `with` on the same field replaces the first. |
| Bitfields.WithCommutes | bitfield/src/bitfield.rs:87-89 | `with` on two disjoint fields gives the same value in either order. |
| Bitfields.WithTruncates | bitfield/src/bitfield.rs:323-330 | A value wider than its field keeps only its low `width` bits there. |
| Bitfields.FieldsDetermineValue | bitfield/src/bitfield.rs:87-91 | Two values agreeing on every field and on the bits above the last field are equal. |
| Bitfields.Debug | bitfield/src/bitfield.rs:286-294 | `Debug` succeeds exactly when `get` succeeds on every declared field. It then carries the struct's name and one `(name, value)` entry per declared field, reserved ones included, in declaration order. |
| Bitfields.MutBitfield.New | bitfield/src/bitfield.rs:318-321 | A fresh mutable place holds `new()`. |
| Bitfields.MutBitfield.Set | bitfield/src/bitfield.rs:333-341 | `set` returns `self`, and its new value is what `with` builds from its old value. |
| Display.PadBinaryBits | bitfield/src/bitfield.rs:387 | A word printed with `{:0width$b}` has exactly `width` digits, digit i being bit width - 1 - i. |
| Display.PadBinaryRoundTrip | bitfield/src/bitfield.rs:475 | Reading the zero-padded numeral back gives the number: padding never changes the value shown. |
| Display.Glyph | bitfield/src/bitfield.rs:398-416 | A field's ruler segment is exactly as wide as the field. |
| Display.Pass | bitfield/src/bitfield.rs:444-458 | Crossing a field, an annotation row writes exactly as many columns as the field is wide. |
| Display.WriteRepeat | bitfield/src/bitfield.rs:401-403 | Writing `c` k times gives k copies of `c`. |
| Display.PadTo | bitfield/src/bitfield.rs:394-397 | The cursor walk writes one blank per column from `cur_pos` down to the field's top and stops there. |
| Display.DrawGlyph | bitfield/src/bitfield.rs:398-416 | The ruler's `match (name, bits)` writes the field's segment. |
| Display.DrawPass | bitfield/src/bitfield.rs:444-458 | An annotation row's `match (cur_name, bits)` writes the crossing of the field. |
| Display.DrawRuler | bitfield/src/bitfield.rs:389-424 | The ruler loop writes the ruler. `max_len` ends as the longest non-reserved name. `rem` ends as 1 when the lowest field is drawn and 0 when it is reserved. |
| Display.DrawCrossings | bitfield/src/bitfield.rs:433-461 | The walk of a row writes the blanks and crossings above field t and stops with the cursor at t's top bit. |
| Display.DrawDashes | bitfield/src/bitfield.rs:471-474 | The dash loop writes `len - rem` dashes when that is positive, none otherwise. |
| Display.DrawRow | bitfield/src/bitfield.rs:428-476 | One annotation row is written as specified, or the `get` inside it panics. |
| Display.Fmt | bitfield/src/bitfield.rs:384-482 | On a struct whose fields are each at least one bit wide and lie inside the word, `fmt` writes the binary row, the ruler and one row per non-reserved field in declaration order, and panics exactly where the specification does. |
| Display.RowsStep | bitfield/src/bitfield.rs:428-431 | A reserved field adds no row; another adds its row or makes the output panic. |
| Display.GlyphsLength | bitfield/src/bitfield.rs:392-424 | The segments of fields lo .. hi - 1 take up as many columns as those fields have bits. |
| Display.PassesLength | bitfield/src/bitfield.rs:434-461 | The crossings of fields lo .. hi - 1 take up as many columns as those fields have bits. |
| Display.RulerSegment | bitfield/src/bitfield.rs:389-424 | The ruler is n columns wide. Field k's segment comes after the blanks and the segments above it, which fill exactly n - top columns, and before the segments below it. |
| Display.RulerConnector | bitfield/src/bitfield.rs:407-415 | Every non-reserved field shows its connector (`│`, `┤` or `┬`) in its ruler segment. |
| Display.RowShape | bitfield/src/bitfield.rs:463-475 | A row is its crossings, which end at the column of the field's top bit, then its corner, then its label. |
| Display.RowCrossesConnector | bitfield/src/bitfield.rs:444-458 | In field t's row, every non-reserved field above t is crossed by `│` exactly under its connector. |
| Display.RowCornerUnderConnector | bitfield/src/bitfield.rs:463-470 | The corner `└` of a row sits exactly under its field's connector in the ruler. |
| Display.ColonAligned | bitfield/src/bitfield.rs:471-475 | The name ends at its colon column, padded to the longest name less `rem`, unless the corner lies further right. |
| Display.FieldDigits | bitfield/src/bitfield.rs:475 | A field's bits printed to its width are the word's digits in the field's columns. |
| Display.BitsUnderBracket | bitfield/src/bitfield.rs:475 | The bracketed bits of a row are the digits of the binary row above its ruler segment. |
| Display.RowsDefined | bitfield/src/bitfield.rs:428-478 | The rows of fields 0 .. t - 1 are written without a panic exactly when each of those fields is reserved or holds a pattern its type accepts. |
| Display.DisplayPanicsIff | bitfield/src/bitfield.rs:475 | On a struct whose fields are each at least one bit wide and lie inside the word, `Display` panics exactly when some non-reserved field holds a pattern its type rejects. Reserved fields are never read. |
| Display.TotalFieldsNeverPanic | bitfield/src/bitfield.rs:286-294 | A struct whose field types accept every pattern of their width never panics in `Display` or `Debug`. |
| Examples.MyBitfieldLayout | bitfield/src/bitfield.rs:65-74 | `MyBitfield` lays out HELLO 0..6, _RESERVED 6..10 and WORLD 10..13, and passes `assert_valid`. |
| Examples.MyFromBitsFields | bitfield/src/bitfield.rs:79-83 | The fields of `from_bits(0b10100_0011_0101)` hold 0b11_0101, 0 and 0b101. |
| Examples.MyBitfieldGet | bitfield/src/bitfield.rs:79-83 | `get(HELLO)` is 0b11_0101 and `get(WORLD)` is 0b0101 on that value. |
| Examples.MyWithFields | bitfield/src/bitfield.rs:87-89 | The `with` chain puts 0b11_0101 in HELLO and 0b0101 in WORLD, and leaves _RESERVED zero. |
| Examples.MyBitfieldWith | bitfield/src/bitfield.rs:87-91 | The `with` chain equals `from_bits(0b10100_0011_0101)`. |
| Examples.MyBitfieldSet | bitfield/src/bitfield.rs:94-100 | The `set` chain on a mutable `new()` equals `from_bits(0b10100_0011_0101)`. |
| Examples.MyEnumLawful | bitfield/src/bitfield.rs:119-136 | `MyEnum`'s `FromBits` impl round-trips every variant in two bits. |
| Examples.MyEnumRejects | bitfield/src/bitfield.rs:124-131 | The only two-bit pattern `MyEnum` rejects is 0b11. |
| Examples.TypedLayout | bitfield/src/bitfield.rs:138-156 | `TypedBitfield` lays out ENUM_VALUE 0..2, SOME_BITS 2..8, FLAG_1 8, FLAG_2 9 and A_BYTE 10..18, and passes `assert_valid`. |
| Examples.TypedEnumValue | bitfield/src/bitfield.rs:160-162 | `from_bits(0b0011_0101_1001_1110).get(ENUM_VALUE)` is `Baz`. |
| Examples.TypedSomeBits | bitfield/src/bitfield.rs:253 | SOME_BITS of that value reads 39. |
| Examples.TypedFlag1 | bitfield/src/bitfield.rs:163 | FLAG_1 of that value is `true`. |
| Examples.TypedFlag2 | bitfield/src/bitfield.rs:164 | FLAG_2 of that value is `false`. |
| Examples.TypedAByte | bitfield/src/bitfield.rs:256 | A_BYTE of that value reads 13. |
| Examples.TypedBitfieldTryGet | bitfield/src/bitfield.rs:169-172 | `from_bits(0b0011).try_get(ENUM_VALUE)` is an error. |
| Examples.ShapeRuler | bitfield/src/bitfield.rs:251 | The ruler of `TypedBitfield` is 14 blanks, then `└┬─────┘││└┬───┘└┤`. |
| Examples.ShapeCrossings | bitfield/src/bitfield.rs:252-256 | What each annotation row of `TypedBitfield` writes before its corner. |
| Examples.ShapeDashes | bitfield/src/bitfield.rs:252-256 | The dash runs of the five rows are 0, 6, 11, 12 and 19 long. |
| Examples.TypedBinaryRow | bitfield/src/bitfield.rs:250 | The first line of `Display` for `from_bits(0b0011_0101_1001_1110)` is the documented 32-digit binary word. |
| Examples.TypedDigits | bitfield/src/bitfield.rs:252-256 | The bracketed bits are `10`, `100111`, `1`, `0` and `00001101`. |
| Examples.TypedRows | bitfield/src/bitfield.rs:247-256 | The five annotation rows of `from_bits(0b0011_0101_1001_1110)` are the documented ones. |
| Examples.TypedDisplayPanics | bitfield/src/bitfield.rs:169-172 | Formatting `from_bits(0b0011)` panics, because ENUM_VALUE holds no `MyEnum`. |
| Tests.TestEnumLawful | bitfield/src/bitfield.rs:673-690 | `TestEnum`'s `FromBits` impl round-trips every variant in two bits. |
| Tests.TestEnumTotal | bitfield/src/bitfield.rs:677-685 | `TestEnum` rejects a word only when its low byte is 4 or more. So the `unreachable!` arm is never reached on a two-bit field. |
| Tests.TestColumns | bitfield/src/bitfield.rs:651-662 | `TestBitfield`'s `FIELDS` are HELLO 0..4, _RESERVED_1 4..7, WORLD 7, HAVE 8..10, LOTS 10..15, OF 15 and FUN 16..22 of a `u32`. |
| Tests.TestTableLaidOut | bitfield/src/bitfield.rs:651-662 | The declarations lay out as that table, which passes `assert_all_valid`. |
| Tests.TestLayout | bitfield/src/bitfield.rs:720-723 | `macro_bitfield_valid`: the constants are the laid-out fields, and `assert_valid` returns normally. |
| Tests.TestFormatNeverPanics | bitfield/src/bitfield.rs:699-718 | Formatting a `TestBitfield` with `Display` or `Debug` never panics, whatever its bits. |

## Left out

- Token-level macro parsing is not modelled: attributes, doc comments, visibility, `#[derive]` and the commented-out `@process_*` arms. The model starts from the declaration list the macro sees (`Layout.Decl`).
- The compile-time tagging of packing specs with their owner type (`Pack*<V, Self>`) has no runtime behaviour. Each struct here simply has its own specs.
- The `Binary`, `UpperHex` and `LowerHex` impls are thin wrappers over the integer's own formatting and are not modelled.
- `f.pad("")` and the `fmt::Result` error propagation of `Display` are not modelled. The output is a string.
- `{:?}` of a typed value is not modelled. It is a rendering function given with each column: a decimal numeral for the integer types, `true`/`false`, and the variant name for the enums.
- `Pack8` … `PackUsize`, the `FromBits` trait and `assert_all_valid` are not part of this model. They are specified by the mask-and-shift arithmetic and by the checks they make (`Pack`, `Codecs`, `Registry`).
- Signed integer value types are not modelled. `usize` is taken as 64 bits wide.
- hal-core/src/interrupt.rs and src/interrupt.rs are not part of this model. They are interrupt control and interrupt handlers, with I/O and global state.
- Display.Fmt: requires `Display.Drawable`, so it covers only structs whose fields are each at least one bit wide and all lie inside the word. The macro also builds structs that break either condition: it accepts a declaration list running past the word (such as `HELLO: 6` then `WORLD: 4` in a `u8`), and only `assert_valid` rejects it (`Registry.AssertAllValid`, `Layout.LayoutValid`). On those structs the generated `fmt` can subtract past zero. A struct running past the word always does so in the ruler loop, at `cur_pos -= bits` or at `rem = cur_pos - (bits - 1)`: every field's width is taken off `cur_pos`, and the widths add up to more than the word. In a debug build it then panics whatever the fields hold. A non-reserved empty field does so at `bits - 3` in the ruler. A reserved empty field writes nothing and subtracts nothing. The model says nothing about any of these structs.
- Display.DisplayPanicsIff: stated for `Display.Drawable` structs only. A struct with a field past the word, or with a non-reserved empty field, panics in `Display` (debug builds) even when every field holds a valid pattern. The "exactly when" therefore does not extend to it, nor to a struct with a reserved empty field.
- Display.TotalFieldsNeverPanic: its `Display` half is stated for `Display.Drawable` structs only. A struct the macro accepts with a field past the word, or with a non-reserved empty field, panics in `Display` (debug builds) even when all its field types are total.
- Bitfields.Bitfield.TryGet: its arithmetic form is stated for a spec inside the word and a raw value below 2^n. Every `T` has a raw value below 2^n. A spec lies inside the word for every layout that passes `assert_valid`, but not for a declaration list that runs past the word, which the macro accepts. For such a spec only the definition by `Pack.Field.UnpackBits` (mask to the word, then shift) is given.
- Examples.TypedRows: the documented `Display` text is proved piece by piece: the binary row by `Examples.TypedBinaryRow`, the ruler by `Examples.ShapeRuler`, and each annotation row. It is not proved as one string equality.
- Display.DrawRuler: a name's length is counted in characters. `name.len()` counts UTF-8 bytes, so the two differ for non-ASCII field names, which the model does not distinguish.
- Tests.TestFormatNeverPanics: it covers every word, so the particular value built by the `with` chain in `test_bitfield_format` is not computed. Its `println!` output is not modelled.
- Tests.TestEnumTotal: `TestEnum`'s error type is `Infallible`, and its `unreachable!` arm is modelled as `Err(())`.
